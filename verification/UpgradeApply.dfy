/**
 The apply lifecycle of an Upgrade after planning (`src/application/upgrade-apply.ts`,
 `src/application/upgrade-failure-publication.ts`). How every port behaves in a run is a script, and
 what is shown holds for all scripts.
 */
module UpgradeApply {
  /** A port call may take effect and may throw, independently; one that returns has taken effect. */
  datatype Call = Returns | ThrowsAfter | ThrowsBefore

  predicate Throws(c: Call) {
    !c.Returns?
  }

  predicate TakesEffect(c: Call) {
    !c.ThrowsBefore?
  }

  /** How the classifier of a publication failure answers. */
  datatype Classification = BeforeEffect | PerhapsAfterEffect | ClassifierThrows

  datatype Resolution = ResolvedCommitted | ResolvedAbsent | ResolvedUnknown | ResolverThrows

  datatype Settlement = AppliedSettlement | RolledBackSettlement | RecoverySettlement

  datatype Script = Script(
    snapshot: Call,
    locator: Call,
    clearTerminal: Call,
    clearDiagnostics: Call,
    publishPlan: Call,
    apply: Call,
    build: Call,
    expected: Settlement,          // what the compiled terminal says
    publish: Call,
    resolution: Resolution,        // consulted when the publication throws
    classification: Classification,   // consulted when the publication is resolved as absent
    record: Call,
    restore: Call,
    diagnostic: Call,              // forming the diagnostic of a failed run
    failureBuild: Call,
    failurePublish: Call,
    publishDiagnostics: Call,
    retire: Call)

  /** The publication observers tell the truth and do not throw. */
  predicate Truthful(s: Script) {
    Throws(s.publish) ==>
      && !s.resolution.ResolverThrows?
      && (s.resolution.ResolvedCommitted? ==> TakesEffect(s.publish))
      && (s.resolution.ResolvedAbsent? ==> !TakesEffect(s.publish) && !s.classification.ClassifierThrows?)
      && (s.classification.BeforeEffect? ==> !TakesEffect(s.publish))
  }

  /** Every effect before the publication of the applied terminal succeeds. */
  predicate ReachesPublication(s: Script) {
    !Throws(s.snapshot) && !Throws(s.locator) && !Throws(s.clearTerminal) && !Throws(s.clearDiagnostics) &&
    !Throws(s.publishPlan) && !Throws(s.apply) && !Throws(s.build)
  }

  datatype Publication = CommittedSettled | CommittedUncertain | NotCommitted(unknown: bool) | PublicationThrew

  /** How `publishAppliedUpgradeTerminal` ends. */
  function Published(s: Script): Publication {
    if !Throws(s.publish) then CommittedSettled
    else match s.resolution
         case ResolvedCommitted => CommittedUncertain
         case ResolvedUnknown => NotCommitted(true)
         case ResolvedAbsent => (match s.classification
                                 case BeforeEffect => NotCommitted(false)
                                 case PerhapsAfterEffect => NotCommitted(true)
                                 case ClassifierThrows => PublicationThrew)
         case ResolverThrows => PublicationThrew
  }

  /** The applied terminal settled and everything after it succeeded. */
  predicate Succeeds(s: Script) {
    ReachesPublication(s) && Published(s).CommittedSettled? && s.expected.AppliedSettlement? && !Throws(s.record)
  }

  predicate CommitUnknown(s: Script) {
    ReachesPublication(s) && Published(s) == NotCommitted(true)
  }

  /** The backup exists and no applied terminal was seen to be committed. */
  predicate RollsBack(s: Script) {
    !Throws(s.snapshot) && !Throws(s.locator) &&
    (ReachesPublication(s) ==> Published(s).NotCommitted? || Published(s).PublicationThrew?)
  }

  /** A failed run whose rollback was resolved reports it, unless the applied terminal may compete. */
  predicate Reports(s: Script) {
    RollsBack(s) && !CommitUnknown(s) && !Throws(s.diagnostic)
  }

  datatype Outcome = Applied | Failed

  /** What an Upgrade touches. Terminals of earlier attempts are not distinguished from none. */
  class Workspace {
    const script: Script
    var appliedTerminal: bool       // the applied terminal of this attempt is durable
    var failureTerminal: bool       // a failure terminal of this attempt is durable
    var failurePublications: nat    // attempts to publish one
    var diagnosed: bool             // diagnostics of the failure are published
    var restores: nat
    var restored: bool
    var retired: nat
    var backup: bool

    constructor (script: Script)
      ensures this.script == script && !appliedTerminal && !failureTerminal && failurePublications == 0 && !diagnosed
      ensures restores == 0 && !restored && retired == 0 && !backup
    {
      this.script := script;
      appliedTerminal, failureTerminal, failurePublications := false, false, 0;
      restores, restored, retired, backup, diagnosed := 0, false, 0, false, false;
    }

    /** `publishAppliedUpgradeTerminal` */
    method PublishApplied() returns (p: Publication)
      modifies this`appliedTerminal
      ensures p == Published(script)
      ensures appliedTerminal == (old(appliedTerminal) || TakesEffect(script.publish))
    {
      if TakesEffect(script.publish) {
        appliedTerminal := true;
      }
      if !Throws(script.publish) {
        return CommittedSettled;
      }
      match script.resolution
      case ResolverThrows => return PublicationThrew;
      case ResolvedCommitted => return CommittedUncertain;
      case ResolvedUnknown => return NotCommitted(true);
      case ResolvedAbsent =>
        if script.classification.ClassifierThrows? {
          return PublicationThrew;
        }
        return NotCommitted(!script.classification.BeforeEffect?);
    }

    /** `resolveUpgradeRollback`: whether it returned, the settlement, and whether to keep the backup. */
    method ResolveRollback(commitUnknown: bool) returns (returned: bool, settlement: Settlement, keep: bool)
      modifies this`restores, this`restored
      ensures restores == old(restores) + (if commitUnknown then 0 else 1)
      ensures restored == (old(restored) || (!commitUnknown && TakesEffect(script.restore)))
      ensures returned == !Throws(script.diagnostic)
      ensures keep == (commitUnknown || Throws(script.restore))
      ensures settlement == if keep then RecoverySettlement else RolledBackSettlement
    {
      settlement, keep := RolledBackSettlement, commitUnknown;
      if commitUnknown {
        settlement := RecoverySettlement;
      } else {
        restores := restores + 1;
        if TakesEffect(script.restore) {
          restored := true;
        }
        if Throws(script.restore) {
          settlement, keep := RecoverySettlement, true;
        }
      }
      returned := !Throws(script.diagnostic);
    }

    /** `publishUpgradeApplyFailureArtifacts`: a terminal only when the applied one cannot compete. */
    method PublishFailure(commitUnknown: bool)
      modifies this`failurePublications, this`failureTerminal, this`diagnosed
      ensures failurePublications ==
              old(failurePublications) + (if commitUnknown || Throws(script.failureBuild) then 0 else 1)
      ensures failureTerminal == (old(failureTerminal) ||
                                  (!commitUnknown && !Throws(script.failureBuild) &&
                                   TakesEffect(script.failurePublish)))
      ensures diagnosed == (old(diagnosed) || (!commitUnknown && !Throws(script.failureBuild) &&
                                               !Throws(script.failurePublish) &&
                                               TakesEffect(script.publishDiagnostics)))
    {
      if !commitUnknown && !Throws(script.failureBuild) {
        failurePublications := failurePublications + 1;
        if TakesEffect(script.failurePublish) {
          failureTerminal := true;
        }
        if !Throws(script.failurePublish) && TakesEffect(script.publishDiagnostics) {
          diagnosed := true;
        }
      }
    }

    /** The protected body: what it ended as, and the flags that the failure path reads. */
    method ApplyBody() returns (done: bool, committed: bool, commitUnknown: bool, uncertain: bool)
      modifies this`appliedTerminal
      ensures var reached := ReachesPublication(script);
              && (!Throws(script.snapshot) && !Throws(script.locator) ==>
                    && committed ==
                       (reached && (Published(script).CommittedSettled? || Published(script).CommittedUncertain?))
                    && commitUnknown == (reached && Published(script) == NotCommitted(true))
                    && uncertain == (reached && Published(script).CommittedUncertain?)
                    && appliedTerminal == (old(appliedTerminal) || (reached && TakesEffect(script.publish))))
      ensures done ==> committed && !uncertain
      ensures !Throws(script.snapshot) && !Throws(script.locator) ==> done == Succeeds(script)
    {
      done, committed, commitUnknown, uncertain := false, false, false, false;
      if Throws(script.clearTerminal) || Throws(script.clearDiagnostics) || Throws(script.publishPlan) ||
         Throws(script.apply) || Throws(script.build) {
        return;
      }
      var p := PublishApplied();
      match p
      case PublicationThrew => return;
      case NotCommitted(unknown) =>
        commitUnknown := unknown;
        return;
      case _ =>
        committed, uncertain := true, p.CommittedUncertain?;
        if !script.expected.AppliedSettlement? || uncertain {
          return;
        }
        done := !Throws(script.record);
    }

    /**
     `executeUpgradeApplyLifecycle`. For every script:
     - a failure terminal is only attempted when no applied terminal can compete, given truthful observers;
     - the workspace is restored under a durable applied terminal exactly when an observer throws or lies;
     - the backup is retired once, unless the commit or its durability is unknown, the restore failed, or
       resolving the rollback threw, in which case it is kept.
     */
    method Lifecycle() returns (outcome: Outcome)
      requires !appliedTerminal && !failureTerminal && failurePublications == 0 && !diagnosed
      requires restores == 0 && !restored && retired == 0 && !backup
      modifies this
      ensures Truthful(script) ==> !(appliedTerminal && restores > 0)
      ensures (appliedTerminal && restores > 0) <==>
                ReachesPublication(script) && script.publish.ThrowsAfter? &&
                (script.resolution.ResolverThrows? ||
                 (script.resolution.ResolvedAbsent? && !script.classification.PerhapsAfterEffect?))
      ensures Truthful(script) && failurePublications > 0 ==> !appliedTerminal
      ensures failurePublications > 0 ==> !(ReachesPublication(script) && Published(script) == NotCommitted(true))
      ensures backup == !Throws(script.snapshot)
      ensures retired == (if backup && !Keeps(script) then 1 else 0)
      ensures restores == (if RollsBack(script) && !CommitUnknown(script) then 1 else 0)
      ensures restored == (RollsBack(script) && !CommitUnknown(script) && TakesEffect(script.restore))
      ensures failurePublications == (if Reports(script) && !Throws(script.failureBuild) then 1 else 0)
      ensures failureTerminal == (Reports(script) && !Throws(script.failureBuild) && TakesEffect(script.failurePublish))
      ensures appliedTerminal == (ReachesPublication(script) && TakesEffect(script.publish))
      ensures diagnosed ==> failureTerminal
      ensures diagnosed == (Reports(script) && !Throws(script.failureBuild) && !Throws(script.failurePublish) &&
                            TakesEffect(script.publishDiagnostics))
      ensures outcome.Applied? <==> Succeeds(script) && !Throws(script.retire)
      ensures outcome.Applied? ==> appliedTerminal && restores == 0 && failurePublications == 0 && retired == 1
    {
      if Throws(script.snapshot) {
        return Failed;
      }
      backup := true;
      if Throws(script.locator) {
        retired := retired + 1;
        return Failed;
      }
      var keep := false;
      var done, committed, commitUnknown, uncertain := ApplyBody();
      if uncertain {
        keep := true;
      }
      if !done && !committed {
        keep := true;
        var returned, settlement, retain := ResolveRollback(commitUnknown);
        if returned {
          keep := retain;
          PublishFailure(commitUnknown);
        }
      }
      if !keep {
        retired := retired + 1;
        if Throws(script.retire) {
          return Failed;
        }
      }
      return if done then Applied else Failed;
    }
  }

  /** Commit or durability unknown, restore failed, or the resolution of the rollback threw. */
  predicate Keeps(s: Script) {
    && !Throws(s.snapshot) && !Throws(s.locator)
    && if !ReachesPublication(s) then Throws(s.restore) || Throws(s.diagnostic)
       else match Published(s)
            case CommittedSettled => false
            case CommittedUncertain => true
            case NotCommitted(unknown) => unknown || Throws(s.restore) || Throws(s.diagnostic)
            case PublicationThrew => Throws(s.restore) || Throws(s.diagnostic)
  }
}
