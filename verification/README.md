# Verified model of the contract and recovery core

This project models, in Dafny, the parts of the repository whose correctness needs invariants rather
than a reading of branches, and proves what their documentation promises for all inputs, all runs and
all interleavings.

- **Graphs and trees over explicit stacks.** The iterative strong-component search (`DirectedGraph`,
  `ComponentInvariant`), the iterative normaliser over a possibly shared, possibly cyclic heap
  (`CanonicalValue`, `CanonicalNormaliser`, `CanonicalJson`, `CanonicalCycles`, `CanonicalOrder`) and the
  freezing walk (`DeepFreeze`), each against a relational or recursive specification (`Reachability`).
- **Printer, scanner, hash preimage.** The canonical printer and its streaming and coalescing forms
  (`CanonicalText`, `CanonicalTokens`, `CanonicalCompare`), the exact JSON scanner against the grammar of
  sections 2 to 7 of RFC 8259 (`JsonGrammar`, `ExactJson`), UTF-8 as in section 3 of RFC 3629 (`Utf8`), the
  framed preimage and the identities made from it (`IdentityProfile`, `StructuredIdentity`), and the
  documentation source contract from its JSON texts on (`DocumentationText`, `DocumentationSource`).
- **Write-ahead journal with crash recovery.** Semantic Mutation as a ledger with a law on events
  (`MutationRecord`, `MutationLedger`), ports that may fail or crash anywhere (`MutationWorld`), recovery,
  apply and whole runs (`MutationRecovery`, `MutationApply`, `MutationRuns`).
- **Other effect protocols.** Upgrade apply (`UpgradeApply`), workspace creation (`WorkspaceCreate`) and the
  verification session reducer (`SessionResume`).
- **Concurrent scopes as interleaved callbacks.** `LeaseMonitor`, `QueryScope`, and the settlement protocol
  below them (`ResourceSettlement`).

## How things are modelled

- Strings are sequences of 16-bit code units (`CodeUnits`), so lone surrogates are representable.
- A number is its printed JSON token; which tokens are safe integers is a parameter of `DocumentationText`.
  Native number printing is taken to be injective and to print no delimiter; `-0` prints as `0`.
- Native `JSON.parse` is the recursive-descent reader of `JsonGrammar`; property order is the order that the
  language prescribes.
- Hash functions are arbitrary functions. Where equality of digests matters, the absence of a collision
  between the two preimages in question is an explicit assumption.
- Every port is arbitrary within its contract. In the Mutation, creation and session models it may throw, and
  a crash may strike before or after its effect, so the state after an escaped call is every intermediate
  state of that call. In the Upgrade model the behaviour of all ports in a run is a script, and the contract
  is an equivalence over scripts. In the two scopes the order of callbacks is an arbitrary schedule.
- Port contracts of Mutation: an append, a rejection and the replacement of a source take effect whole or not
  at all, and each may take effect and still throw; a derived edit starts from the bytes that are live and
  changes them; settling replacement residue does not change the live digest; nobody else writes while the
  write lease is held. Foreign writes happen between calls, at any time.
- In Upgrade, a port call that returns has taken effect.
- The effect protocols count troubles: failed ports and answers other than the expected one. Progress is stated
  as what must happen in a call without troubles.

## Where the code differs from what one might expect

- A retry of an ended mutation does not always return its result. If another transaction needs recovery, the
  retry is rejected before the retained terminal is read (`src/application/semantic-mutation-apply.ts:215-233`).
  Otherwise it returns the result if and only if the request is among the newest 256 completed ones, or among
  the newest 255 if an unfinished transaction is completed by the same call; an older request runs again.
  `MutationApply.Apply` states this for every workspace, `MutationLedger.RetainedExactly` the retention below
  it, and `MutationRuns.RetryWhenBlocked`, `RetryWhenOld` and `RetryWhenCrowdedOut` give the workspaces.
- A query that was scheduled before its scope closed starts executing afterwards
  (`src/execution/runtime-query-scope.ts:42`); closing only waits for it. `QueryScope.Scope.StartedAfterClose`
  says which ones do.
- In Upgrade, a resolver or a classifier of the publication that throws is not treated as an unknown commit
  (`src/application/upgrade-apply.ts:131-148`, `484-508`): the workspace is restored although the applied
  terminal may be durable. `UpgradeApply.Workspace.Lifecycle` states exactly when.
- Identity migration creates its SHA-256 hasher before the protected block
  (`src/contracts/structured-identity.ts:92-94`): it stays open exactly when no content engine can be created.

## Model

| member | source | states |
|---|---|---|
| `DirectedGraph.Compile` | src/contracts/directed-graph.ts:15-98 | for every node and edge list: fails exactly when some edge has an undeclared endpoint, naming the first such edge; otherwise the result is the partition of the nodes into mutual-reachability classes, each ascending, the classes ascending by least member |
| `DirectedGraph.PartitionUnique` | src/contracts/directed-graph.ts:10-14 | there is only one such partition for a set of nodes and a set of edges, so order and duplicates of the inputs cannot show |
| `DirectedGraph.Adjacency` | src/contracts/directed-graph.ts:20-31 | the adjacency map holds exactly the given edges, or the first edge with an undeclared endpoint is reported, every earlier one being declared |
| `DirectedGraph.ComponentSearch.Enter` | src/contracts/directed-graph.ts:44-53 | the new state of entering a node: numbered, stacked, suspended at its first target |
| `DirectedGraph.ComponentSearch.Deliver` | src/contracts/directed-graph.ts:60-73 | one target is delivered: a new one is entered, a stacked one lowers the low link |
| `DirectedGraph.ComponentSearch.Leave` | src/contracts/directed-graph.ts:75-92 | a finished node emits its component or folds its low link into its parent |
| `DirectedGraph.ComponentSearch.Explore` | src/contracts/directed-graph.ts:55-93 | terminates with nothing suspended, the root numbered and the search invariant kept |
| `DirectedGraph.SteppedKeeps` | src/contracts/directed-graph.ts:58-93 | every turn of the loop keeps the search invariant (stack shape, low links witnessed and bounding, finished nodes sealed, emitted components classes) |
| `DirectedGraph.SteppedProgress` | src/contracts/directed-graph.ts:58-93 | every turn makes progress: fewer unnumbered nodes, or less work in the frames |
| `DirectedGraph.SearchedPartition` | src/contracts/directed-graph.ts:95-97 | once all nodes are numbered the sorted components are the partition |
| `ComponentInvariant.EmittedIsClass` | src/contracts/directed-graph.ts:76-85 | the nodes popped when low link equals index are exactly one mutual-reachability class |
| `ComponentInvariant.Emit` | src/contracts/directed-graph.ts:76-92 | emitting a component keeps the search invariant |
| `ComponentInvariant.Fold` | src/contracts/directed-graph.ts:86-92 | folding the low link of a node that stays on the stack into its parent keeps the search invariant |
| `CanonicalJson.Canonicalise` | src/contracts/canonical.ts:44-121 | the frame loop with its one mutable ancestry set and its output attached before it is filled terminates on every finite heap, shared or cyclic, fails with exactly the failure of the recursive tree-unfolding normaliser, and otherwise builds its normal form |
| `CanonicalJson.Normaliser.Normalize` | src/contracts/canonical.ts:56-82 | one value is passed, refused or opened as a frame, and nothing else changes |
| `CanonicalJson.Normaliser.Turn` | src/contracts/canonical.ts:85-119 | one turn of the loop: the innermost frame is popped or takes its next entry |
| `CanonicalNormaliser.PassScalar` | src/contracts/canonical.ts:92-118 | taking a scalar entry keeps the run invariant, in particular that the ancestry set is the set of inputs on the frame stack |
| `CanonicalNormaliser.Descend` | src/contracts/canonical.ts:70-82 | opening a container keeps the run invariant |
| `CanonicalNormaliser.Pop` | src/contracts/canonical.ts:87-91 | leaving a finished container keeps the run invariant and fixes its value |
| `CanonicalNormaliser.ResumePush` | src/contracts/canonical.ts:70-82 | descending does not change the outcome that the suspended frames still owe |
| `CanonicalCycles.CircularExactly` | src/contracts/canonical.ts:70-71 | on supported data a circular reference is reported exactly when a cycle is reachable from the root |
| `CanonicalOrder.IndexKeyIsNumeric` | src/contracts/canonical.ts:123-125 | the rank of integer-index keys is their numeric order |
| `CanonicalOrder.PropertyOrderAscends` | src/contracts/canonical.ts:123-125 | a normalised object lists integer-index keys ascending and then all other keys in code-unit order, losing and adding none |
| `CanonicalOrder.NormalIsNormal` | src/contracts/canonical.ts:44-121 | every produced value is in normal form at every depth |
| `CanonicalOrder.InsertionOrderIrrelevant` | src/contracts/canonical.ts:79-81 | two heaps that differ only in the order of object properties have the same outcomes |
| `CanonicalText.PrintReads` | src/contracts/canonical.ts:126-158 | in front of any delimiter, the printed form reads back as the value and leaves the rest |
| `CanonicalText.PrintReadsBack` | src/contracts/canonical.ts:126-158 | the printed form is a document of the RFC 8259 grammar whose value is the printed one |
| `CanonicalText.PrintInjective` | src/contracts/canonical.ts:126-158 | printed forms are equal exactly when the values are |
| `CanonicalTokens.TokensPrint` | src/contracts/canonical.ts:126-158 | the tokens concatenate to the printed form |
| `CanonicalTokens.TokensInjective` | src/contracts/canonical.ts:126-158 | token sequences, concatenated encodings and values determine each other |
| `CanonicalTokens.StreamTokens` | src/contracts/canonical.ts:126-158 | the frame-driven producer yields exactly the token sequence of the value, and terminates |
| `CanonicalTokens.Yield` | src/contracts/canonical.ts:138-157 | one turn yields the next tokens of what the frames still owe |
| `CanonicalCompare.Coalesce` | src/contracts/canonical.ts:168-178 | coalescing keeps the concatenation; each chunk is a run of whole tokens, none is empty, and all but the last reach 8192 code units |
| `CanonicalCompare.EncodingChunks` | src/contracts/canonical.ts:168-178 | the chunks of a value concatenate to its printed normal form, and fail exactly as normalisation does |
| `CanonicalCompare.CanonicalEquals` | src/contracts/canonical.ts:284-293 | true exactly when the normal forms are equal and exactly when the encodings are; failures of the left value come first |
| `CanonicalCompare.SameTokens` | src/contracts/canonical.ts:287-292 | the comparison loop decides equality of the two streams |
| `CanonicalCompare.UniqueSortedByKey` | src/contracts/canonical.ts:207-220 | succeeds exactly when values with equal keys are canonically equal, and then yields the first value of each key in strictly ascending key order |
| `CanonicalCompare.EncodingParses` | src/contracts/canonical.ts:126-178 | parsing the canonical encoding with the exact parser succeeds exactly when the depth bound admits its nesting, and yields the normal form |
| `CodeUnits.UniqueSorted` | src/contracts/canonical.ts:190-192 | strictly ascending, with exactly the given values |
| `DeepFreeze.Freeze` | src/contracts/canonical.ts:232-260 | terminates on every object graph; freezes exactly the reachable objects, each once, and for every edge whose target cannot reach its source the target first |
| `DeepFreeze.VisitedInvariant` | src/contracts/canonical.ts:244-257 | visiting a new object keeps the walk invariant (markers, ancestry, followed edges, postorder) |
| `DeepFreeze.FrozenInvariant` | src/contracts/canonical.ts:240-243 | freezing keeps the walk invariant |
| `DeepFreeze.PushSuccessors` | src/contracts/canonical.ts:249-257 | the key loop pushes exactly the unvisited successors, last key first |
| `ExactJson.ParseExactJson` | src/contracts/exact-json.ts:46-209 | accepts exactly the RFC 8259 texts that nest within the bound, repeat no decoded key and meet the root-key contract, yields their value, and on any other valid text names its first violation |
| `ExactJson.ParseTextMeans` | src/contracts/exact-json.ts:136-184 | scan, trailing-data check and native parse together accept exactly the texts of the grammar within the bound and without repeated keys |
| `ExactJson.ValueFollowed` | src/contracts/exact-json.ts:111-176 | on a valid value the pushdown scanner ends where the grammar does, or fails with the first violation in document order |
| `ExactJson.VerdictMeans` | src/contracts/exact-json.ts:115-117 | no violation is found exactly when the nesting is within the bound and no object repeats a key |
| `ExactJson.ScanDocument` | src/contracts/exact-json.ts:136-176 | the loop over offset and frames computes the scanner function, and terminates |
| `ExactJson.ReadStringToken` | src/contracts/exact-json.ts:72-90 | the string loop ends behind the closing quote or rejects, as the scanner function says |
| `ExactJson.ContainerTurn` | src/contracts/exact-json.ts:137-176 | one turn of the main loop is one step of the scanner function and moves forward |
| `ExactJson.CheckRootKeys` | src/contracts/exact-json.ts:185-207 | the root-key contract: exactly the listed keys |
| `Utf8.ByteOrderIsScalarOrder` | src/contracts/documentation-source.ts:52-55 | byte order of UTF-8 encodings (section 3 of RFC 3629) is code-point order |
| `Utf8.EncodeInjective` | src/contracts/digest.ts:47-50 | well-formed texts have equal encodings exactly when they are equal |
| `Utf8.EncodeThen` | src/contracts/canonical.ts:163-167 | encoding a well-formed chunk on its own does not change the bytes |
| `DocumentationSource.PathOrder` | src/contracts/documentation-source.ts:52-55 | on paths of scalar values the comparison is code-point order, and zero only for equal paths |
| `DocumentationSource.OneRoot` | src/contracts/documentation-source.ts:46-48 | among roots that do not overlap, a path inside a root is inside no other |
| `DocumentationSource.RootsApart` | src/contracts/documentation-source.ts:101-105 | the nested loops decide that no two roots overlap |
| `DocumentationSource.CheckBoundary` | src/contracts/documentation-source.ts:84-113 | on decoded fields: accepts exactly the boundaries whose lists, exclusions, roots, exemptions and entry path hold |
| `DocumentationSource.CheckMembers` | src/contracts/documentation-source.ts:129-152 | accepts exactly the member lists that are valid, unaliased, inside the roots, pairwise ascending in code-point order and within the byte budget |
| `DocumentationSource.CheckContract` | src/contracts/documentation-source.ts:121-161 | on decoded fields: accepts exactly the contracts that hold, with the baseline bound, the entrypoint listed and the set digest matching |
| `DocumentationSource.MemberInOneRoot` | src/contracts/documentation-source.ts:98-105 | every member of an accepted contract lies in exactly one source root |
| `DocumentationText.DecodeFile` | src/contracts/documentation-source.ts:67-71 | yields exactly the value of a text within the byte budget that is exact JSON of depth at most 8 with exactly the listed root keys |
| `DocumentationText.DecodeBaselineExactly` | src/contracts/documentation-source.ts:81-97 | a baseline object decodes to a boundary exactly when its schema strings, free-text fields, path lists and prefixed entry say that boundary |
| `DocumentationText.DecodeManifestExactly` | src/contracts/documentation-source.ts:123-138 | a manifest object decodes to a manifest exactly when its schema, digest and members, each with exactly its three fields, say that manifest |
| `DocumentationText.ParseSource` | src/contracts/documentation-source.ts:121-161 | accepts exactly the pairs of texts that say a boundary and a manifest that hold together, and yields those |
| `IdentityProfile.FrameHeader` | src/contracts/identity-profile.ts:40-50 | the buffer written at a moving offset is the framed header; refused exactly for names that are no namespace |
| `IdentityProfile.HeaderDecodes` | src/contracts/identity-profile.ts:30-39 | the framing is uniquely decodable in front of any payload |
| `IdentityProfile.ChunkBoundariesVanish` | src/contracts/canonical.ts:163-178 | however tokens are coalesced, the bytes written are the UTF-8 bytes of the printed form |
| `IdentityProfile.PreimageInjective` | src/contracts/identity-profile.ts:30-50 | framed preimages are equal exactly when domain, schema and normal form are |
| `StructuredIdentity.ContentHasher.Update` | src/contracts/content-digest.ts:72-87 | feeds the engine, or closes the hasher and destroys the engine, whose destruction may itself throw; byte counter within the exact limit |
| `StructuredIdentity.ContentHasher.Finish` | src/contracts/content-digest.ts:88-102 | terminal: the engine is destroyed once whether or not there is a digest |
| `StructuredIdentity.ContentHasher.Dispose` | src/contracts/content-digest.ts:66-70 | idempotent: an open engine is destroyed once and a closed hasher stays as it is; fails only if the destruction throws |
| `StructuredIdentity.ParseIdentityExactly` | src/contracts/identity-profile.ts:56-85 | accepts exactly the published records of the expected domain and schema with a canonical digest |
| `StructuredIdentity.IdentityExact` | src/contracts/structured-identity.ts:51-70 | unless the two preimages collide, identities are equal exactly when domain, schema and normal form are |
| `StructuredIdentity.IssueIdentity` | src/contracts/structured-identity.ts:51-70 | issues the digest of the framed preimage, always when the provider does not fail; an engine that was created is destroyed exactly once on every path |
| `StructuredIdentity.VerifyIdentity` | src/contracts/structured-identity.ts:72-80 | malformed exactly for candidates that do not parse; otherwise accepts exactly the published record of the identity of the given value, and always answers for a supported value when the provider does not fail |
| `StructuredIdentity.VerifyIssued` | src/contracts/structured-identity.ts:51-80 | a record issued for one value verifies another exactly when their normal forms are equal, unless the two preimages collide |
| `StructuredIdentity.MigrateIdentity` | src/contracts/structured-identity.ts:82-120 | returns the identity that direct issuance gives, exactly for the value with the retained SHA-256; the engine is destroyed exactly once; the SHA-256 hasher stays open exactly when no engine could be created |
| `MutationLedger.SafeKeepsConsistent` | src/adapters/mutation/recovery-authority.ts:26-81 | every safe event keeps the ledger consistent: at most one unsettled transaction, and the completion order lists exactly the ended ones |
| `MutationLedger.LawfulIsConsistent` | src/application/semantic-mutation-apply.ts:460-606 | so does every lawful history |
| `MutationLedger.WritesAreBound` | src/application/semantic-mutation-apply.ts:483-517 | in every lawful history a source is replaced only between the two digests of an unfinished durable record with a passed verification, by the staged bytes exactly while it is prepared |
| `MutationLedger.PreparedAlone` | src/application/semantic-mutation-apply.ts:460-513 | a record is prepared only when nothing else is unsettled and its request left nothing behind, and then it is the one unsettled transaction |
| `MutationLedger.TerminalsAreTrue` | src/application/semantic-mutation-record-recovery.ts:122-124 | when a terminal becomes durable the live bytes are the committed ones for verified and the original ones for rolled back and rejected |
| `MutationLedger.TransactionKept` | src/application/semantic-mutation-recovery.ts:60-94 | over every lawful history two records of one request, between which it was not retired, agree in every identity field, and the later one is no new beginning |
| `MutationLedger.LiveBytesConserved` | src/application/semantic-mutation-record-recovery.ts:104-199 | over every lawful history and for every path that no foreign writer touches while a transaction works on it: the path holds exactly the bytes it began with plus accepted mutations and foreign writes in order, or one of the two digests of the unsettled transaction on it, the original being owed |
| `MutationLedger.RetainedSurvives` | src/adapters/mutation/mutation-recovery-record.ts:408-420 | a terminal is retained over every history in which too few others complete |
| `MutationLedger.RetainedExactly` | src/adapters/mutation/mutation-recovery-record.ts:408-420 | a pruned workspace still knows an ended request, with the same result, if and only if fewer than 256 others completed since, those of the history between included |
| `MutationWorld.World.Append` | src/adapters/mutation/mutation-recovery-record.ts:216-308 | only allowed transitions are appended; an append may take effect and still throw |
| `MutationWorld.World.ReplaceSource` | src/adapters/mutation/atomic-source-publish.ts:74-166 | compare and swap that may take effect and still throw |
| `MutationWorld.World.Prune` | src/adapters/mutation/mutation-recovery-record.ts:321-420 | retires only terminals beyond the newest 256, possibly not all of them |
| `MutationWorld.World.InspectAuthority` | src/adapters/mutation/recovery-authority.ts:26-81 | reports the unfinished and the blocked transaction, and refuses to choose between several unfinished ones |
| `MutationRecovery.MarkRecoveryRequired` | src/application/semantic-mutation-record-recovery.ts:91-102 | ends in a durable recovery-required record or escapes; writes no source |
| `MutationRecovery.SwapSource` | src/application/semantic-mutation-record-recovery.ts:110-112 | swapping the live bytes of a transaction keeps the history lawful and its record current |
| `MutationRecovery.RollbackCommitted` | src/application/semantic-mutation-record-recovery.ts:104-140 | in every run: a rolled-back terminal is durable and the original bytes are live, or recovery is required, or the error escaped; the history stays lawful |
| `MutationRecovery.CompleteCommitted` | src/application/semantic-mutation-record-recovery.ts:142-199 | in every run: an accepted terminal is durable, names the staged endpoint, and the committed bytes are live; otherwise as for rollback; accepted whenever nothing fails or deviates |
| `MutationRecovery.RejectPrepared` | src/application/semantic-mutation-record-recovery.ts:201-209 | a rejected terminal is durable and the original bytes are live; no source is written |
| `MutationRecovery.ReproduceEvidence` | src/application/semantic-mutation-recovery.ts:112-136 | recovery proceeds only with artifacts whose path, digests, plan and manifest are those of the record |
| `MutationRecovery.RecoverRecord` | src/application/semantic-mutation-record-recovery.ts:229-382 | every end of recovering one record; bytes that are neither of its two digests are never overwritten and never end it; without failures and deviating answers a prepared or published transaction is accepted, a restored one rolled back, and foreign bytes need recovery |
| `MutationRecovery.Recover` | src/application/semantic-mutation-recovery-coordinator.ts:31-59 | a clean or terminal outcome leaves a settled workspace with at most 256 terminals; everything done belongs to the transaction that was unfinished; when no port fails or deviates, recovery is required if and only if a transaction is blocked already or an unfinished one finds foreign bytes; with nothing unfinished and at most 256 terminals nothing changes; an error escapes only after a port failed |
| `MutationRecovery.OwnKeepsOthers` | src/application/semantic-mutation-record-recovery.ts:229-382 | handling one transaction changes nothing that other requests left behind, except by retirement |
| `MutationApply.PublicationFailed` | src/application/semantic-mutation-apply.ts:518-577 | after a failed publication: rolled back, rejected or recovery-required according to the live bytes, and reported truthfully |
| `MutationApply.RunPrepared` | src/application/semantic-mutation-apply.ts:514-606 | every end of a prepared transaction is truthful, and all its events are its own |
| `MutationApply.ApplyFresh` | src/application/semantic-mutation-apply.ts:468-606 | a fresh request is prepared only in a settled workspace, with the expected plan and a passed verification; without a record no source changes |
| `MutationApply.SettledAnswers` | src/application/semantic-mutation-apply.ts:235-266 | after a settling recovery the refusal of an unfinished retained record is never reached |
| `MutationApply.RecoverAndAnswer` | src/application/semantic-mutation-apply.ts:460-466 | what every request gets before it may run: a request unfinished from an earlier run is concluded and reported truthfully; an ended one is rejected if a transaction needs recovery, otherwise answered with its retained result if and only if it is among the newest 256 (255 behind an unfinished transaction), otherwise treated as new |
| `MutationApply.Apply` | src/application/semantic-mutation-apply.ts:435-606 | in every run with any port failures and any crash: the history stays lawful, a reported result is durable and true of the live bytes, and a retry of a recent terminal writes no source for it; when no port fails or deviates, exactly: a retry of an ended request is rejected if recovery is hindered, gets its retained result if it is recent enough, and otherwise runs again; a new request is accepted unless recovery is hindered; an error escapes only after a port failed |
| `MutationRuns.Run` | src/application/semantic-mutation-apply.ts:435-606 | any sequence of applies, recoveries, crashes and foreign writes at any time between calls keeps the history lawful, and conserves the bytes of every path that foreign writers avoid while a transaction works on it |
| `MutationRuns.RecoverTwice` | src/application/semantic-mutation-recovery-coordinator.ts:31-59 | recovering a recovered workspace changes nothing |
| `MutationRuns.RetryWhenBlocked` | src/application/semantic-mutation-apply.ts:215-233 | a workspace in which the retry of the request accepted last is rejected, because another transaction needs recovery |
| `MutationRuns.RetryWhenOld` | src/adapters/mutation/mutation-recovery-record.ts:408-420 | in a settled workspace of n accepted requests the retry of the oldest runs again if and only if n > 256, and otherwise returns its result |
| `MutationRuns.RetryWhenCrowdedOut` | src/application/semantic-mutation-apply.ts:460-466 | behind one unfinished transaction the same holds with n > 255, since the call completes that transaction first |
| `UpgradeApply.Workspace.ResolveRollback` | src/application/upgrade-apply.ts:178-251 | restores unless the commit is unknown, and keeps the backup exactly when the commit is unknown or the restore threw |
| `UpgradeApply.Workspace.Lifecycle` | src/application/upgrade-apply.ts:402-554 | for every failure pattern: with truthful observers never a durable applied terminal and a restore, and no failure terminal beside an applied one; the exact patterns in which a throwing resolver, a throwing classifier or a lying observer breaks this; the backup is retired exactly once or kept, and exactly when; success, restores, failure terminals and their diagnostics are determined by the script |
| `UpgradeApply.Workspace.PublishFailure` | src/application/upgrade-failure-publication.ts:36-71 | no failure terminal is attempted when the applied commit is unknown |
| `LeaseMonitor.Interleave` | src/execution/lease-observation-monitor.ts:9-82 | over every interleaving: at most one observation in flight and none at the end; a result only if the first, every completed and the last assertion held; no lease failure and no other failure but the own cancellation is lost |
| `LeaseMonitor.Monitor.OnErrorDrained` | src/execution/lease-observation-monitor.ts:49-77 | the thrown value keeps every failure |
| `LeaseMonitor.Monitor.NeverStuck` | src/execution/lease-observation-monitor.ts:38-82 | until the scope ends some event can happen |
| `QueryScope.Interleave` | src/execution/runtime-query-scope.ts:5-58 | over every interleaving: pending never exceeds the maximum, every admitted ticket is pending or released once; after close began nothing is admitted or scheduled, and only tickets scheduled and not yet started before still start; the close promise resolves only after every admitted query settled |
| `QueryScope.Scope.Admit` | src/execution/runtime-query-scope.ts:20-31 | refused exactly when closed or full, otherwise reserved under a new ticket |
| `QueryScope.Scope.Prepared` | src/execution/runtime-query-scope.ts:33-42 | schedules the execution exactly when prepare returned and the scope still accepts, otherwise releases |
| `QueryScope.Scope.Starts` | src/execution/runtime-query-scope.ts:42-42 | a scheduled execution starts in its microtask whether or not the scope still accepts |
| `QueryScope.Scope.StartedAfterClose` | src/execution/runtime-query-scope.ts:42-56 | once the close promise has resolved, the tickets that started after close began are exactly those scheduled and not started when it began |
| `QueryScope.StartsAfterClose` | src/execution/runtime-query-scope.ts:42-56 | the schedule run, prepared, close, start: the execution starts although the scope is closed |
| `QueryScope.Scope.CloseSettles` | src/execution/runtime-query-scope.ts:50-56 | resolves exactly when every awaited ticket was released, and then every admitted one was |
| `ResourceSettlement.Settle` | src/execution/resource-settlement.ts:125-146 | every cleanup is attempted in order; the thrown value is the lone primary failure or holds exactly all failures |
| `WorkspaceCreate.Initialize` | src/application/workspace-initialize.ts:52-75 | a finished run completes this intent; a completed workspace or another intent is left unchanged; a run stops only because an effect failed or the intent differs |
| `WorkspaceCreate.PublishFrontier` | src/application/workspace-initialize.ts:64-70 | publishes exactly what is still staged, and returns only when nothing is |
| `WorkspaceCreate.Reruns` | src/application/workspace-initialize.ts:52-75 | over any number of runs and crashes each entry is published at most once, and a completed workspace has published all of them |
| `SessionResume.Resume` | src/application/verification-session-resume.ts:140-457 | one resume keeps the journal in order; COMPLETED implies that this run saw the exact markers twice and the merged tree equal to the candidate tree; a merged candidate never reads the clock; without failures and objections a merged candidate completes and an open one is ready to integrate |
| `SessionResume.Dispatch` | src/application/verification-session-resume.ts:230-254 | a hosted dispatch is woken only by the run that claimed it |
| `SessionResume.Resumes` | src/application/verification-session-resume.ts:159-202 | over any number of resumes stages complete in order without skip or repeat, no append is refused, and no operation is woken twice |
| `SessionResume.StagesInSequence` | src/application/verification-session-resume.ts:190-202 | in an ordered journal the stage completed after k others is stage k |

## Left out

- Accessors, proxies, prototype overrides, typed-array slots and other host hazards: inputs are plain data.
- Error messages, diagnostics and offsets of failures; only the kind of a failure is modelled.
- `parseExactJsonBytes` and the UTF-8 decoder in front of `decodeDocumentationJson`: files are decoded texts with
  their byte lengths.
- DocumentationText.ParseSource: which paths are portable and which alias, which number tokens are safe integers,
  the digest of the baseline bytes and the digest of a member list are parameters.
- Unicode normalisation, locale case folding and the hash algorithms themselves.
- CanonicalCompare.CanonicalEquals: both streams are produced whole before they are compared; as producing has
  no effects, laziness cannot be observed.
- MutationRecovery.RecoverRecord: artifacts of a transaction root that differ from its record make the port throw;
  their bytes are represented by digests.
- The admission, planning, query and projection use cases around Semantic Mutation, and its lease handling.
- MutationWorld.World.Prune: completion numbers are represented by the order of completion.
- Upgrade planning failures (`executeUpgradePlanningWithFailurePublication`) and the content of terminals.
- UpgradeApply.Workspace.Lifecycle: terminals of earlier attempts are not distinguished from no terminal.
- SessionResume.Resume: receipts, digests and provenance checks are arbitrary answers; only markers, trees, stages,
  claims and clock readings are data.
- WorkspaceCreate.Initialize: blueprint construction and the bytes of entries.
- `withAcquiredResource` and the synchronous `settleResources`: the same protocol as the asynchronous one, without new
  difficulty.
- Adapters, entry points, rendering, inspection summaries and the hosted transport.
