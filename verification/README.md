# Service SDK runtime: a Dafny model

The Service SDK generates event-sourced services. This project models the parts of its runtime where
correctness depends on many functions at once, and proves what they promise over every input and
every run:

- `EffectJournal.dfy`, `EffectAnswers.dfy`: the external-effect journal, a lease protocol of any number of
  workers over one append-only stream, in which a worker's read, its guarded append and its reload are
  separate steps; and what each operation answers and appends, by the last event of the journal.
- `Projection.dfy`, `ProjectionLaws.dfy`: event reduction, and what a whole history does to an entity.
- `ProjectionTables.dfy`, `RowLaws.dfy`: the inline projector with its state table and row table, when the
  store commits a batch, which entities have a row and what the row shows.
- `RowScan.dfy`, `RowQueries.dfy`, `LiveScan.dfy`: the key-prefix scan that answers queries, what its
  answers mean on a reachable table, and what they mean while the table changes.
- `Intents.dfy`, `IntentAnswers.dfy`, `IntentContent.dfy`: /3 intents with idempotent claims, contenders,
  lost responses and late failures; what a contender is told; the staged content of their batches.
- `IntentsV4.dfy`, `ExecutionV4.dfy`: the /4 batch of decision and observation, its recovery on any
  later store, the answer of an execution, staged content, and repair tokens.
- `Cycles.dfy`, `GraphRuns.dfy`: both cycle detectors and the graph obligations over runs of commands.
- `QueryV4.dfy`, `QueryLaws.dfy`, `EventFeed.dfy`, `Codecs.dfy`: ordered and paged queries and what they
  show, the resumable feed, and the identities, cursors and tokens they exchange.
- `Host.dfy`: registration, sealing and draining, split at await points.
- `TreeWriter.dfy`: the generated-tree writer.
- `JsonNumbers.dfy`: JSON equality and the number normal form.
- `Text.dfy`, `Sorting.dfy`: byte strings, decimal numbers, byte order, and sorting.

`dafny verify dfyconfig.toml` checks the whole project.

## Conventions and assumptions

- A Rust string is its UTF-8 bytes; one Dafny `char` stands for one byte, so `|s|` is `len()`.
- A run is a sequence of atomic steps with every choice (which worker, which input, which fault) made by
  the sequence. A theorem about all sequences is a theorem about all interleavings. A step that does
  not apply leaves the system unchanged.
- The durable append is atomic, enforces the expected version, runs the projector in the same
  transaction and rolls back with it. A known idempotency key or claim never appends a second time.
  `read_stream` and `projection_list` return ascending entries strictly after a position.
- SHA-256 in hexadecimal is an injective function to lower-case hexadecimal text (`IsDigest`). Only
  the claim digest of a repair token is required to have 64 digits. Manifest and observation JSON read
  back as written. A number that was parsed from a token reads back from its printed form as the same
  kind and value. `DigestExists`, `LawfulEnvExists` and `SmallIsLawful` show that these laws can be met.
- Entity Runtime replay is a left fold with an arbitrary step function; an accepted decision satisfies
  that step on the instance it was decided on (`Legal`). Authority checks, filters and visibility are
  arbitrary functions or arbitrary verdicts.
- Lease times, which the code parses as RFC 3339 text, are integers. A caller's `now` need not be
  monotone.
- Ordered maps are Dafny maps; where the order of iteration can be observed (first instance, first
  modified stale file, first faulty edge, page order) the model uses the byte order of keys, elsewhere
  the loops pick elements in an arbitrary order.
- Graph edges are written one event per command; a remove command moves its subject out of the active
  state.

## Findings

- The journal's fold accepts a claim after a completion (`FoldAloneIsLax`); safety comes from the
  guards. `LoadAcceptsIff` gives the exact set of logs it accepts, `ShapedIff` the condition under which
  an accepted log has the grammar.
- The record inside `Acquired` may show another worker's lease (`AcquiredShowsForeignLease`). It shows
  the worker's own exactly when the log did not change between append and reload and the append was real
  or was deduplicated against a claim that was still the last event (`AcquiredShowsOwnLeaseIff`).
- `decode_stream_id` undoes `encode_stream_id` exactly for non-empty parts whose realm and category
  have no `|` (`DecodeOfEncode`); every other identity is refused, hence never committed.
- Two /3 connects decided on the same load can both commit and close a cycle, because the append is
  guarded by the caller's expectation and not by the loaded version (`StaleConnectsCloseCycle`). A run
  keeps the DAG invariant exactly when every committed append fits the aggregate it is written to
  (`StaysDagIff`), which holds whenever callers expect the version they loaded (`MatchedRunKeepsDag`).
- A drain that overlaps an unfinished seal is overwritten: the phase returns from 2 to 1
  (`OverlapRevertsDrain`). Over a run the phase decreases exactly when a drain overlaps a seal that later
  resumes without a cancel in between (`PhaseDropsExactly`).
- A refused `write` may already have removed stale files (`RefusedWriteIsNotAtomic`). It has changed the
  root exactly when every file is owned and a stale file on disk sorts before the first modified one
  (`LosesFiles` in the contract of `Write`).
- `0.0` and `-0.0` are equal JSON with different normal forms (`OppositeZeros`); `SameNormalIff` gives the
  exact condition.
- A /4 repair reads the staged references back from the decision. Two plans make this fail, although the
  engine accepts them. Inputs bound to one command field leave only the last reference, which is then
  accepted for each of them (`SharedFieldLosesReference`). An input named like the command field of an
  earlier one removes that reference, and every repair is an integrity failure
  (`LaterNameRemovesReference`). The exact condition (`StagedAreRecorded`): no command field's last staging
  is followed by an input of that name, no reference is blank, and inputs with one command field have one
  reference. A definition refuses a repeated reference field
  (crates/service-definition/src/lib.rs:820-825) and an input named like a command field
  (crates/service-runtime-ir/src/lib.rs:640-653), but the builder looks a binding up by its policy
  (crates/service-builder/src/realization.rs:829-835), so two content inputs under one policy get one
  command field.
- A /3 append whose response is lost abandons its staged content, and the lookup that follows still
  answers success with the committed batch (`LostCommitStillSucceeds`, `AbandonedYetAnswered`). This
  happens to a committed batch exactly when its append's response was lost (`CommittedAbandonedIff`).

## Model

| member | source | states |
|---|---|---|
| EffectJournal.LoadEffect | crates/service-eventlog/src/lib.rs:1302-1369 | the paged read loop returns the fold of the whole stream, for every stored content, including gaps, redacted events, unknown or undecodable events and invalid transitions |
| EffectJournal.FoldPage | crates/service-eventlog/src/lib.rs:1311-1351 | folding one page continues the fold of the stream read so far, and a refused event means that the whole stream is refused |
| EffectJournal.LoadAcceptsIff | crates/service-eventlog/src/lib.rs:1302-1369 | loading succeeds exactly on logs with consecutive unredacted versions, one preparation at the start and every completion right after a claim; it then reports the prepared effect, the state named by the last event, and the length as revision |
| EffectJournal.ShapedIff | crates/service-eventlog/src/lib.rs:1321-1351 | an accepted log has the journal grammar exactly when nothing follows a completion |
| EffectJournal.AppendKeepsLog | crates/service-eventlog/src/lib.rs:443-568 | a guarded append of any pending decision, however stale, keeps grammar, lease discipline and distinct keys |
| EffectJournal.AppendThenReload | crates/service-eventlog/src/lib.rs:466-472 | after an append or a deduplicated one the reload sees the worker's own event |
| EffectJournal.RunKeepsInv | crates/service-eventlog/src/lib.rs:443-568 | in every interleaving the stream is empty or one prepared event, claims, and at most one completion right after a claim; each claim is live when appended and its predecessor expired; every pending decision and every answer is backed by the journal |
| EffectJournal.LoadNeverFails | crates/service-eventlog/src/lib.rs:1302-1369 | `load_effect` is never invalid on a reachable journal |
| EffectJournal.CompletionIsFinal | crates/service-eventlog/src/lib.rs:522-568 | once an outcome is recorded no worker ever appends again, so the outcome never changes |
| EffectJournal.LeasesExclude | crates/service-eventlog/src/lib.rs:484-519 | expiries strictly increase along the log, lease ids differ, and no instant lies in two lease windows |
| EffectJournal.CompletionByLastLease | crates/service-eventlog/src/lib.rs:534-550 | a completion directly follows a claim and was written under that claim's lease |
| EffectJournal.AnswersHold | crates/service-eventlog/src/lib.rs:443-568 | every answer ever given (prepared, acquired, busy, terminal, completed) is true of the final journal |
| EffectJournal.OutcomesAgree | crates/service-eventlog/src/lib.rs:522-568 | any two answers that report a terminal state report the same record |
| EffectJournal.AcquiredShowsOwnLeaseIff | crates/service-eventlog/src/lib.rs:502-517 | for an append at one step of a run and a reload at a later one, the acquired record shows the worker's own claim if and only if the log did not change in between and the append was real, or was deduplicated against a claim that was still last |
| EffectJournal.AcquiredShowsForeignLease | crates/service-eventlog/src/lib.rs:512-517 | a run of four workers in which two acquire a lease and are both shown another one, one of them although nothing was appended after its append |
| EffectJournal.FoldAloneIsLax | crates/service-eventlog/src/lib.rs:1330-1337 | a log with a claim after a completion loads successfully although it lacks the grammar |
| EffectAnswers.PrepareFirst | crates/service-eventlog/src/lib.rs:443-473 | on an empty journal an undisturbed prepare writes the effect and answers it prepared at revision one |
| EffectAnswers.PrepareAgain | crates/service-eventlog/src/lib.rs:451-458 | on a journal that has begun, prepare appends nothing; it confirms the same effect with the current record and refuses any other |
| EffectAnswers.ClaimAtOnce | crates/service-eventlog/src/lib.rs:483-500 | a claim is terminal exactly on a completed journal, acquired at once exactly under the last lease, busy exactly under another live lease, and otherwise fails unless it is claimable; none of these appends |
| EffectAnswers.ClaimFresh | crates/service-eventlog/src/lib.rs:500-518 | on a prepared journal or an expired lease, an undisturbed valid claim under a new lease id is appended and acquired with its own record |
| EffectAnswers.CompleteAtOnce | crates/service-eventlog/src/lib.rs:529-550 | without the last lease a completion appends nothing: the same recorded outcome is confirmed, every other case fails |
| EffectAnswers.CompleteByHolder | crates/service-eventlog/src/lib.rs:543-566 | the lease holder's undisturbed completion extends the journal by exactly that outcome and is answered with the completed record |
| EffectAnswers.StaleAppendFails | crates/service-eventlog/src/lib.rs:510-512 | a decision on an older journal under an unused key fails and appends nothing |
| Projection.First | crates/service-engine/src/lib.rs:1259-1263 | the first instance of an ordered map is the one with the least key |
| Projection.ProjectionState.Apply | crates/service-engine/src/lib.rs:1245-1324 | in-place reduction yields the event's meaning or its error, and an error leaves all existing entities as they were |
| Projection.FoldHistory | crates/service-engine/src/lib.rs:1228-1243 | a gapless history folds to the meaning of its events; any other version sequence is refused |
| ProjectionLaws.OtherEntitiesStay | crates/service-engine/src/lib.rs:1245-1324 | an event changes no entity but the one it is about |
| ProjectionLaws.ExistsIffCreated | crates/service-engine/src/lib.rs:1285-1304 | over a whole history, an entity exists exactly when an event created it |
| ProjectionLaws.StateLaw | crates/service-engine/src/lib.rs:1285-1322 | the lifecycle state is the one left by the last event that created or moved the entity |
| ProjectionLaws.FieldLaw | crates/service-engine/src/lib.rs:1264-1311 | last writer wins: a field has the value that the last event to set it has set, with the identity field and the inherited owner and scopes set by the creation |
| ProjectionLaws.SetFieldIsThere | crates/service-engine/src/lib.rs:1285-1311 | a field that some event of the history set is there |
| RowLaws.ReducesIff | crates/service-engine/src/lib.rs:1245-1324 | an event is accepted exactly when it names an entity, its parent can be inherited from, and the entity is new for a creation, present for an update, and in a source state for a move |
| Projection.RowsDisjoint | crates/service-eventlog/src/lib.rs:1525-1532 | rows computed from different streams never share a table key |
| ProjectionTables.DurableStore.DeleteRows | crates/service-eventlog/src/lib.rs:672-690 | the delete loop removes exactly the given keys |
| ProjectionTables.DurableStore.UpsertRows | crates/service-eventlog/src/lib.rs:714-736 | the upsert loop overlays exactly the given rows |
| ProjectionTables.DurableStore.ApplyProjector | crates/service-eventlog/src/lib.rs:635-739 | one event replaces the stream's state and exactly that stream's rows, or is refused |
| ProjectionTables.DurableStore.Append | crates/service-eventlog/src/lib.rs:903-907 | a batch is committed with all its projections or leaves streams and tables untouched |
| ProjectionTables.ProjectKeepsRows | crates/service-eventlog/src/lib.rs:657-738 | if the row table was the union of all streams' recomputed rows, it is again after any projected event |
| ProjectionTables.ProjectKeepsStates | crates/service-eventlog/src/lib.rs:661-713 | if every stored state was the fold of its stream, it is again after any projected event |
| ProjectionTables.RunKeepsAgreement | crates/service-eventlog/src/lib.rs:635-738 | after any batches over any streams, decided on anything, both tables equal, key for key, the recomputation from the full logs |
| ProjectionTables.AuthorizationStateIsFold | crates/service-eventlog/src/lib.rs:808-822 | the state that re-authorises a retry is the fold of the whole committed stream and exists exactly for committed streams |
| RowLaws.CommitsIff | crates/service-eventlog/src/lib.rs:635-739 | on every reachable store a batch commits exactly when it is not empty, the version fits, and for a stream of the service the identity is readable, nothing is redacted and the longer history folds |
| RowLaws.ShownIff | crates/service-engine/src/lib.rs:2195-2279 | an entity has a row exactly when it exists, no hide rule's parent is in a terminal state, and a live view can read owner and scopes from its parent |
| RowLaws.TableShows | crates/service-eventlog/src/lib.rs:714-736 | in every reachable table an entity of a committed stream has a row under its key exactly then, and the row is that entity's |
| RowLaws.TableCells | crates/service-engine/src/lib.rs:2195-2279 | every cell of such a row is the entity's lifecycle state, its field, or the live owner or scopes of the parent, and no field that the view must show is missing |
| RowScan.Query | crates/service-eventlog/src/lib.rs:1105-1140 | the unpaged scan terminates and returns exactly the matching rows under the prefix in key order; it is refused if and only if a body there is corrupt or more than 10000 rows match |
| RowScan.CorruptMeansNoMatch | crates/service-eventlog/src/lib.rs:1105-1140 | the set of matching rows is undefined, hence the scan refused, exactly when some body under the prefix is corrupt |
| RowQueries.PrefixMeansViewAndRealm | crates/service-eventlog/src/lib.rs:1516-1532 | in a reachable table a key extends a query's prefix exactly when its row has that view and that realm, with an absent realm distinct |
| RowQueries.QueryIsExact | crates/service-eventlog/src/lib.rs:1057-1140 | end to end, the answer is, in ascending key order and once per key, the row of exactly the keys stored for the tenant, view and realm whose values match the selectors |
| LiveScan.QueryLive | crates/service-eventlog/src/lib.rs:1105-1140 | with a different table at every page, a finished scan returns every matching row that stayed throughout, each key once and in order, and no row that was never stored; a refused one met a corrupt body or the cap; an unfinished one found one more page in every table |
| Intents.ReadBatch | crates/service-eventlog/src/lib.rs:758-800 | the paged batch read returns exactly the claimed version range, or refuses when the range is not one the store could hold |
| Intents.RecordedIsBatch | crates/service-eventlog/src/lib.rs:948-1010 | a claim that the runtime wrote passes every consistency check and is read back completely |
| Intents.RunKeepsInv | crates/service-engine/src/lib.rs:932-1126 | in every interleaving of contenders, crashes, lost responses and foreign writers, claims stay bound to one usable batch and all answers are backed by them |
| Intents.AtMostOneBatch | crates/service-engine/src/lib.rs:936-952 | no claim ever commits two batches |
| Intents.SuccessIsTheBatch | crates/service-engine/src/lib.rs:1062-1126 | a successful answer carries the events and version of the claim's batch, which is in the log under the caller's digest |
| Intents.SuccessesAgree | crates/service-engine/src/lib.rs:955-974 | two successful answers to one claim have the same digest, events and version, fresh or replayed |
| Intents.StoredClaimIsAnswered | crates/service-engine/src/lib.rs:932-974 | once a claim is stored under the caller's digest, a fault-free lookup, first or after a lost response, and an allowed authorisation answer with exactly the stored batch |
| IntentAnswers.ReplayedSuccessIff | crates/service-engine/src/lib.rs:955-974 | in every state and at every step, a replayed success is given exactly by an allowed authorisation of a contender that found its claim |
| IntentAnswers.FreshSuccessIff | crates/service-engine/src/lib.rs:1106-1126 | a fresh success is given exactly by a confirmation without a fault |
| IntentAnswers.CommitterIsAnswered | crates/service-engine/src/lib.rs:1106-1141 | a contender that committed is answered, without faults, with its own events and the stored version |
| IntentAnswers.DeniedAfterLookup | crates/service-engine/src/lib.rs:963-967 | a denied contender that found its claim by a lookup is told of a failure |
| IntentAnswers.DeniedAfterAppend | crates/service-engine/src/lib.rs:936-951 | denied after a deduplicated append it looks once more, and a second denial is final |
| IntentAnswers.LookupTells | crates/service-engine/src/lib.rs:932-937 | the first lookup decides on an unknown claim, replays one's own, and fails for another intent or a fault |
| IntentAnswers.ResolveTells | crates/service-engine/src/lib.rs:943-951 | the second lookup replays one's own claim; otherwise the original failure stands |
| IntentAnswers.GiveUpTells | crates/service-engine/src/lib.rs:938-951 | whatever fails between the first lookup and the append leads to the second lookup |
| IntentAnswers.FirstAppendTells | crates/service-eventlog/src/lib.rs:866-946 | a first append stores exactly the decided events at the end of the stream, claimed under the caller's digest |
| IntentAnswers.OtherAppendTells | crates/service-engine/src/lib.rs:1085-1104 | any other append stores nothing; it replays one's own claim or leads to the second lookup |
| IntentAnswers.RecordedIff | crates/service-eventlog/src/lib.rs:948-1010 | a claim reads back exactly when its range is usable and its stream is of the claim's tenant, service, realm, category and key |
| Intents.RunKeepsTables | crates/service-engine/src/lib.rs:1010-1066 | contenders that decide on stale loads still leave both projection tables equal to the recomputation |
| IntentContent.RunKeepsContent | crates/service-engine/src/lib.rs:1018-1147 | over every run of contenders no token is both accepted and abandoned, none is held by two contenders, and none is held once decided |
| IntentContent.ConfirmationAccepts | crates/service-engine/src/lib.rs:1129-1134 | a confirmation accepts a prefix of the batch's tokens, and all of them when it answers success |
| IntentContent.FailuresAbandon | crates/service-engine/src/lib.rs:1031-1091 | a failed staging or decision and a failed append abandon all tokens staged so far |
| IntentContent.CommittedAbandonedIff | crates/service-engine/src/lib.rs:1085-1091 | the tokens of a committed batch are abandoned, then or at any later time, exactly when the response of its append was lost |
| IntentContent.LostCommitStillSucceeds | crates/service-engine/src/lib.rs:940-951 | whenever a batch commits and its response is lost, a working second lookup answers success with that batch although all of its content was abandoned |
| IntentContent.AbandonedYetAnswered | crates/service-engine/src/lib.rs:1085-1091 | such a run exists for every digest: one contender, one token |
| IntentsV4.AppendKeepsStore | crates/service-engine/src/v4.rs:1364-1417 | a decision made on an earlier load becomes, under the revision guard, the next entry of a replayable history, and its batch describes it |
| IntentsV4.RecoverIsStable | crates/service-engine/src/v4.rs:2449-2540 | on every later store a written batch is recovered with the same decision and receipt by an attempt with equal input as JSON, all other fields equal and the recorded expected version; every attempt that differs in one of these gets a conflict; only a failed history read is left undecided |
| IntentsV4.RecoverCommitsIff | crates/service-engine/src/v4.rs:2449-2529 | for any batch whatever, recovery commits exactly when it is the batch of the same intent for that decision and the history verifies the decision |
| IntentsV4.ReplayIff | crates/service-engine/src/v4.rs:2497-2512 | a history replays exactly when every record steps from the instance before it, and then to the last of these |
| IntentsV4.MatchesAgree | crates/service-engine/src/v4.rs:2531-2540 | matching a recorded intent is an equivalence: any attempt that matches it is matched, under the recorded precondition, by exactly the attempts that match the recorded intent |
| IntentsV4.WrittenBatchRecovers | crates/service-engine/src/v4.rs:1364-1429 | over whole runs of interleaved executors, the batch one of them wrote is recovered unchanged at every later moment |
| ExecutionV4.ContentHost.AcceptAll | crates/service-engine/src/v4.rs:1442-1450 | the accept loop accepts a prefix of the tokens and reports success exactly when the host accepts all |
| ExecutionV4.ContentHost.AbandonAll | crates/service-engine/src/v4.rs:1626-1634 | every token is abandoned once |
| ExecutionV4.OwnBatchRecovers | crates/service-engine/src/v4.rs:1419-1425 | once this run's batch is stored, its second lookup finds it and can only commit or stay undecided |
| ExecutionV4.AppendAndDeliver | crates/service-engine/src/v4.rs:1417-1437 | from dispatch to delivery the answer is exactly: committed or an aftercare failure when the store took the append and answered, integrity when it answered without a receipt, otherwise what the second lookup finds |
| ExecutionV4.Settle | crates/service-engine/src/v4.rs:1439-1470 | the final match keeps the outcome or turns a commit into aftercare with its repair token, and treats each staged token as the outcome demands |
| ExecutionV4.ExecuteAdmitted | crates/service-engine/src/v4.rs:1150-1472 | the answer is exactly determined by what the stores and resources do (stored batch, staging failure, earlier error, refusal, dispatch answer, failed acceptance); committed accepts each staged token once, refusals and all errors except a failed aftercare and an undecided append abandon each once, nothing is abandoned when the batch was or may have been committed |
| ExecutionV4.Repair | crates/service-engine/src/v4.rs:1045-1147 | repair answers from the recorded batch alone; it accepts every recorded reference when it commits, a prefix when the host fails, nothing otherwise |
| ExecutionV4.RepairReachesItsBatch | crates/service-engine/src/v4.rs:1045-1147 | a repair token reaches the batch it was made for, with its decision and receipt, exactly for the recorded context; any other context is refused |
| ExecutionV4.RepairOnlyByOrigin | crates/service-engine/src/v4.rs:1090-1119 | a written batch is found for repair exactly by the tenant, realm, authority, user, executor, service, plan, operation and category it was recorded with, under its own claim |
| ExecutionV4.TargetIsGenuine | crates/service-engine/src/v4.rs:1064-1120 | whatever the store holds, a repair works only on a genuine batch of the caller's own intent that the history verifies |
| ExecutionV4.RepairStops | crates/service-engine/src/v4.rs:1051-1071 | a malformed token, an unknown operation, a refused admission and an absent batch each give their own failure |
| ExecutionV4.RedeliverTells | crates/service-engine/src/v4.rs:1128-1146 | a found batch is committed exactly when its references can be read and every resource answers; otherwise integrity or aftercare |
| ExecutionV4.AftercareIsRepairable | crates/service-engine/src/v4.rs:1448-1458 | the token of any failed aftercare leads, at any later time, to the batch with the reported receipt, and commits it when the resources answer and the staged references can be read |
| ExecutionV4.StagedAreRecorded | crates/service-engine/src/v4.rs:1573-1624 | references can be read back from a decision on staged input exactly when every command field's last staging is not followed by an input of that name and its reference is not blank; the staged references are read exactly when moreover inputs with one command field have one reference |
| ExecutionV4.SharedFieldLosesReference | crates/service-engine/src/v4.rs:1200-1221 | two inputs bound to one command field: the repair accepts the second reference twice and the first never |
| ExecutionV4.LaterNameRemovesReference | crates/service-engine/src/v4.rs:1200-1221 | an input named like the command field of an earlier one removes its reference, so nothing can be read back |
| ExecutionV4.RepairDelivers | crates/service-engine/src/v4.rs:1120-1147 | when every resource answers, the repair of such a batch commits its decision and receipt and accepts one reference per content input if the references can be read, and is an integrity failure if not |
| Cycles.Visit | crates/service-engine/src/lib.rs:1771-1795 | a visit that finds nothing restores the path set and leaves a finished set with the node in it; a visit that succeeds proves a cycle |
| Cycles.GraphHasCycle | crates/service-engine/src/lib.rs:1770-1802 | terminates and is true exactly when the graph has a directed cycle |
| Cycles.VisitV4 | crates/service-engine/src/v4.rs:2234-2257 | the same contract for the variant that inserts before it tests |
| Cycles.GraphHasCycleV4 | crates/service-engine/src/v4.rs:2233-2274 | the same answer on the adjacency built from nodes and pairs |
| GraphRuns.InsertGraphEdge | crates/service-engine/src/lib.rs:1748-1768 | an edge is refused as self edge, dangling or duplicate, in this order, and otherwise map and pair set gain it |
| GraphRuns.CollectEdges | crates/service-engine/src/lib.rs:1680-1691 | the edge loop succeeds exactly when no active edge is self, dangling, duplicate or unbound, and otherwise reports the first faulty edge in key order |
| GraphRuns.CheckGraph | crates/service-engine/src/lib.rs:1680-1697 | the refusal is that of the first faulty edge, else of the proposed edge, else a cycle |
| GraphRuns.Materialize | crates/service-engine/src/lib.rs:1621-1697 | succeeds exactly on admissible graphs; the size refusals mean exactly size, and every other refusal is the one owed to the first defect |
| GraphRuns.RequireUnreferenced | crates/service-engine/src/lib.rs:1528-1573 | the scan over all edges passes exactly for an active node that no active edge of the partition touches, and tells an absent node from a referenced one |
| GraphRuns.RunKeepsDag | crates/service-engine/src/lib.rs:1341-1380 | every run of add, connect, remove-node and remove-edge commands keeps every partition's active graph simple and acyclic |
| GraphRuns.CommandEffects | crates/service-engine/src/lib.rs:1245-1380 | an executable command adds or removes exactly its node or edge in the active graph of each partition, and any other changes nothing |
| GraphRuns.AppendKeepsDagIff | crates/service-engine/src/lib.rs:1341-1380 | writing a command keeps a partition a DAG exactly when the command's obligation, sizes aside, holds on the aggregate at the append |
| GraphRuns.StaysDagIff | crates/service-engine/src/lib.rs:1010-1066 | with load and append as separate steps, all partitions stay DAGs throughout a run exactly when every committed append fits the aggregate it is written to |
| GraphRuns.MatchedRunKeepsDag | crates/service-engine/src/lib.rs:1010-1066 | in every interleaving in which callers expect the version they loaded, all partitions stay DAGs |
| GraphRuns.PublishOnlyRefusesSize | crates/service-engine/src/lib.rs:2048-2083 | on a reachable graph publishing succeeds exactly when the graph is non-empty and within both the bound and the default limits |
| GraphRuns.StaleConnectsCloseCycle | crates/service-engine/src/lib.rs:1010-1066 | a run of loads and guarded appends in which two connects decided on one load both commit, the second under a later expected version, and close a cycle |
| Codecs.StreamIdInjective | crates/service-eventlog/src/lib.rs:1464-1470 | no two identities share an encoding, for all byte strings |
| Codecs.DecodeOfEncode | crates/service-eventlog/src/lib.rs:1472-1514 | decoding an encoding gives the original exactly for decodable identities and is refused for all others |
| Codecs.DecodeStreamIdIff | crates/service-eventlog/src/lib.rs:1472-1514 | exactly the texts of a realm part, a framed category and a framed key are accepted, and read as what they spell |
| Codecs.LogicalScopeInjective | crates/service-engine/src/v4.rs:633-660 | service, tenant and optional realm are recovered from the logical scope |
| Codecs.EventCursorRoundTrip | crates/service-eventlog/src/lib.rs:1449-1462 | a cursor decodes to its own position and only under its own identity |
| Codecs.EventCursorAcceptedIff | crates/service-eventlog/src/lib.rs:1453-1462 | a text is accepted as a cursor exactly when it is the prefix, the expected identity and a number |
| Codecs.FeedIdentityInjective | crates/service-eventlog/src/lib.rs:1439-1447 | feeds of different stores, tenants, kinds or streams have different identities |
| Codecs.FramesInjective | crates/service-eventlog/src/lib.rs:1538-1541 | length-framed hash inputs tell any two lists apart |
| Codecs.QueryCursorRoundTrip | crates/service-engine/src/v4.rs:298-308 | a query cursor decodes to its offset exactly while the offset is within the rows |
| Codecs.QueryCursorAcceptedIff | crates/service-engine/src/v4.rs:298-308 | a cursor is accepted exactly as the prefix and a number within the rows; none starts at zero |
| Codecs.RowKeyPrefix | crates/service-eventlog/src/lib.rs:1516-1532 | a row key extends exactly the prefix of its own service, realm text and view |
| Codecs.RowKeyInjective | crates/service-eventlog/src/lib.rs:1525-1532 | equal row keys have equal view, stream and entity |
| Codecs.RepairRoundTrip | crates/service-engine/src/v4.rs:2561-2582 | a token is read back exactly for a non-empty operation and a 64-digit lower-case claim |
| Codecs.RepairTokenCanonical | crates/service-engine/src/v4.rs:2565-2582 | every accepted token is the one token of the coordinates it yields |
| EventFeed.ReadKeepsFaithful | crates/service-eventlog/src/lib.rs:402-436 | one page extends what was seen to exactly the next events in version order |
| EventFeed.RunIsFaithful | crates/service-eventlog/src/lib.rs:377-436 | however writes and reads interleave, the reader has a gap-free, duplicate-free, numbered prefix of the log |
| EventFeed.ReadMakesProgress | crates/service-eventlog/src/lib.rs:402-436 | a read advances or reports that everything was seen |
| EventFeed.PageIff | crates/service-eventlog/src/lib.rs:377-436 | a page is given exactly to an allowed reader with a page size in bounds and no cursor or an accepted one |
| EventFeed.PageIsFull | crates/service-eventlog/src/lib.rs:402-436 | a page holds the next versions in order, as many as the limit and the log allow, and says exactly when more follow |
| EventFeed.DeniedReadShowsNothing | crates/service-eventlog/src/lib.rs:377-401 | over runs, a denied read shows the reader nothing and leaves its cursor |
| EventFeed.ForeignCursorRefused | crates/service-eventlog/src/lib.rs:1453-1462 | a cursor of any other feed is refused |
| QueryV4.CompareJsonTransitive | crates/service-engine/src/v4.rs:355-380 | `compare_json` is transitive over absent, null and all kinds |
| QueryV4.CompareRowsLaws | crates/service-engine/src/v4.rs:255-268 | the multi-key comparator is antisymmetric and transitive, and ties only on one subject |
| QueryLaws.CompareJsonMeans | crates/service-engine/src/v4.rs:355-380 | absent first, then by kind, then false before true, numbers by magnitude, text by bytes |
| QueryLaws.CompareRowsMeans | crates/service-engine/src/v4.rs:255-268 | the first sort key that does not tie decides, reversed when descending; the subject decides when all tie |
| QueryLaws.OrderedIsStrict | crates/service-engine/src/v4.rs:255-268 | with unique subjects every row comes strictly before all that follow it |
| QueryLaws.OrderedMembers | crates/service-engine/src/v4.rs:218-253 | the rows are those of the source instances that pass the filter and agree with every selector, each holding exactly the view's fields that the instance has |
| QueryLaws.CorruptIff | crates/service-engine/src/v4.rs:231-247 | the snapshot is refused exactly when a source instance that passes the filter lacks a required field |
| QueryV4.OrderIndependent | crates/service-engine/src/v4.rs:218-268 | two enumerations of one snapshot with unique subjects give the same ordered rows |
| QueryV4.QueryIgnoresOrder | crates/service-engine/src/v4.rs:159-295 | the whole answer of a page call is the same for every enumeration order, except for the instance named when a required field is missing |
| QueryV4.ShowPage | crates/service-engine/src/v4.rs:273-286 | exactly the visible rows in order, and a version only when they share one subject |
| QueryLaws.VisibleMeans | crates/service-engine/src/v4.rs:273-282 | a page is shown exactly when every visibility check answers, and then holds exactly the visible rows |
| QueryLaws.VisibleInOrder | crates/service-engine/src/v4.rs:273-282 | the visible rows keep their order |
| QueryV4.ProjectQuery | crates/service-engine/src/v4.rs:159-295 | the loops compute filter, order, page and visibility as the query's meaning defines them, with every error case and the first incomplete instance |
| QueryV4.FollowCursors | crates/service-engine/src/v4.rs:269-295 | following cursors with any page limits terminates and yields the visible ordered rows, each once |
| Host.NewRoster | crates/service-host/src/lib.rs:462-478 | a roster exists exactly for 1 to 64 non-blank services with different projector names, and admits exactly those |
| Host.ManagedStore.BeginSeal | crates/service-host/src/lib.rs:402-423 | the loop over the roster enters sealing exactly when registration is complete in phase zero |
| Host.ManagedStore.Finish | crates/service-host/src/lib.rs:424-428 | resuming inserts the registered name, or sets phase one, and frees the lock |
| Host.RunKeepsInv | crates/service-host/src/lib.rs:576-610 | in every interleaving of register, create, seal, cancel and drain the registered set is inside the roster |
| Host.RegisteredIff | crates/service-host/src/lib.rs:576-610 | the registered names are exactly those whose registration returned successfully |
| Host.SealedIsFrozen | crates/service-host/src/lib.rs:401-429 | after a completed seal the registered set equals the roster and never changes |
| Host.OperationsOnlyAfterSeal | crates/service-host/src/lib.rs:523-537 | phase one, the only phase that admits storage operations, implies a complete seal |
| Host.PhaseMonotone | crates/service-host/src/lib.rs:401-447 | without a drain during an unfinished seal the phase never decreases |
| Host.PhaseDropsExactly | crates/service-host/src/lib.rs:401-446 | over a run, the phase decreases somewhere exactly when a drain overlaps a seal that later resumes without a cancel in between |
| Host.OverlapRevertsDrain | crates/service-host/src/lib.rs:427-446 | such a run exists for every one-service host |
| TreeWriter.ArtifactTree.Insert | crates/service-builder/src/tree.rs:48-58 | accepts exactly new valid paths other than the manifest; a duplicate is reported after it has replaced the contents |
| TreeWriter.ValidPathIff | crates/service-builder/src/tree.rs:258-275 | the valid paths are exactly the slash-joined lists of parts that are not empty, not a dot or two dots, and free of both separators |
| TreeWriter.RenderedIs | crates/service-builder/src/tree.rs:180-195 | a rendered tree is its files with their contents and a manifest of exactly their digests |
| TreeWriter.ArtifactTree.Check | crates/service-builder/src/tree.rs:87-109 | lists exactly the differences, each once and in order; empty exactly when the disk equals the rendered tree |
| TreeWriter.SortedDriftIs | crates/service-builder/src/tree.rs:23-32 | sorted drift lists missing files first, then unexpected, then changed ones, each kind by path |
| TreeWriter.ArtifactTree.RemoveStale | crates/service-builder/src/tree.rs:146-170 | removes all stale files, or stops at the first modified one in path order |
| TreeWriter.ArtifactTree.Write | crates/service-builder/src/tree.rs:111-183 | succeeds exactly on writable roots and then leaves exactly the rendered tree; a refused write changed the root exactly when all files are owned and a stale file sorts before the first modified one; on any root it changes no unowned file and removes no stale file with other bytes |
| TreeWriter.RefusedWriteIsNotAtomic | crates/service-builder/src/tree.rs:146-170 | a root with two stale files, the second modified: the write is refused and the first file is gone |
| TreeWriter.WritableIff | crates/service-builder/src/tree.rs:118-170 | a root accepts a tree exactly when it is empty, or its manifest has the format, lists valid paths, owns every file, and every file to be removed is unmodified |
| TreeWriter.RewriteIsWritable | crates/service-builder/src/tree.rs:118-145 | a root written by one tree accepts every other tree |
| TreeWriter.WritesNeverRefused | crates/service-builder/src/tree.rs:111-183 | every sequence of trees written into an empty root succeeds and leaves the last one |
| JsonNumbers.EqualReflexive | crates/service-engine/src/json_number.rs:12-33 | `json_equal` is reflexive |
| JsonNumbers.EqualSymmetric | crates/service-engine/src/json_number.rs:12-33 | `json_equal` is symmetric, by counting keys |
| JsonNumbers.EqualTransitive | crates/service-engine/src/json_number.rs:12-33 | `json_equal` is transitive |
| JsonNumbers.NormalIdempotent | crates/service-engine/src/json_number.rs:59-83 | the number normal form is idempotent |
| JsonNumbers.NormalIsEqual | crates/service-engine/src/json_number.rs:59-83 | the normal form is `json_equal` to its input |
| JsonNumbers.SameNormalIff | crates/service-engine/src/json_number.rs:12-83 | two values share a normal form exactly when they are `json_equal` and agree on the sign of zeros |
| JsonNumbers.OppositeZeros | crates/service-engine/src/json_number.rs:35-56 | any two tokens read as the two zeros are `json_equal` with different normal forms |

## Left out

- HTTP, OpenAPI, connector, catalog, console and documentation surfaces: transport and text.
- Source and YAML generation, release assembly, definition and package validation: templates and flat lists of checks.
- The decision logic of the Entity Runtime and the compilation of definitions: external; only the replay fold and the legality of a decision are used.
- The generic execution pipeline of `crates/service-runtime/src/execution.rs`: the /3 engine covers the same ground.
- Redaction, tenant erasure, snapshots and blobs of the store: a redacted event is refused wherever the code tests for it, but no step redacts.
- The store's per-stream idempotency key in /3 appends: only the claim is modelled there; in the effect journal the key is modelled.
- Lifetime, nested-entity, owned-revision and authority obligations: single tests; a contender's decision is arbitrary, so they only restrict it.
- The paged variant of the row query: it is one store call.
- Cross-entity /4 obligations: they read an unguarded snapshot, so no invariant over runs is claimed for them.
- Graph node and edge rows of a published snapshot and their digest: only admission is modelled. A connect is taken to write the partition, source and target it was checked with.
- The wording of error messages, including the field a query error names.
- SHA-256, UUIDs, RFC 3339 parsing and floating-point printing: arbitrary functions with the stated laws. Unicode white space outside ASCII does not count as blank.
- File-system details of the tree writer (links, directories, input and output errors): the root is a flat map from path to contents.
- Timeouts, pools and the adapters' own sealing: an await that fails or is cancelled is a step.
