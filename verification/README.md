# Verification of Watchpost's replicated definitions, telemetry, installer and alerts

Watchpost monitors posts (hosts, endpoints, devices), the dependencies between
them and the rules that raise alerts. This project models the parts of it that
hold state over time and proves what they keep over whole runs.

The modules, from the bottom up:

- **Graph, Definitions, CommittedLog, Effects** specify the replicated definitions.
  Six operations change posts, dependency edges and rules; `CommittedLog.Fold` is a
  pure fold over the committed log. What holds at every position of every log is
  proved there, and what each operation does to every row.
- **Replica, Fsm** give one replica: first on values, then as the class that
  updates its fields and its database in place, method by method. Every method's
  new state is an equation with the value-level transition.
- **Recovery, Convergence** put replicas into a cluster in which entries are
  delivered, local storage fails, processes crash before or after a commit,
  restart and replay, and exchange snapshots. Every reachable disk is the fold.
- **Admission** is the choke point that labels graph operations with a graph
  revision and recognizes retries. **Standalone** is the same set of operations
  as local transactions, and its agreement with the replicated path.
- **ForeignKeys, PostDeletion** hold the web of references around a post, with
  immediate checks and cascades, and decide exactly when the ordered deletes of
  the program go through.
- **Telemetry** is the collector key row and everything that touches it;
  **Acceptance** says exactly what is accepted and stored. **TelemetryRuns,
  ExactlyOnce, Rotation, Pairing, Filing** are the theorems over whole runs.
- **Install, UnitFile, UnitRoundTrip, UnitReading** are the install transaction with
  its rollback, and the unit file as printed and as parsed, with its quoting undone.
- **Alerts** is rule evaluation with hysteresis; **RateLimits** the two limiters.

Time is an integer number of nanoseconds for telemetry and the limiters, and any
integer unit for alerts. Randomness (credentials, identifiers), the clock, and
what the outside world answers (a systemd command, a transaction that fails, a
lost request) are parameters, so every theorem holds for all of them.

Some expected properties do not hold of the code. For each, the lemmas named
first give the condition under which it holds, and the last one or two a
concrete case in which it fails:

- A snapshot does not ask whether the process is healthy or past replay. Of a
  healthy process it is exact if and only if the process is settled; of one
  stopped at an entry never; of one that has installed a snapshot since, exactly
  while it is handed nothing that has an effect or fails (`SnapshotExactIff`,
  `RunSnapshotExactly`). One taken in the middle of replay makes a learner stop on
  a healthy log (`MidReplaySnapshotPoisons`).
- Only new edges are validated before they are proposed. A deletion of a missing
  post, an update or toggle on another version than the stored one, or a creation
  of what exists stops every replica once it is committed (`DeleteAdmission`,
  `EditExactly`, `EditAdmission`, `CreationExactly`, `CreationAdmission`,
  `UnrealizableStops`; `FirstDeletionStops`, `SecondUpdateStops`).
- A retry is matched without looking at the earlier operation's kind
  (`RetryOfAnyKind`, `AnsweredAcrossKinds`; `ReusedIdKeepsPost`,
  `ReusedIdKeepsRule`), and the revision reported after a restart is the
  operation's own precondition (`RebuiltRevisionAgrees`; `RebuiltRevisionDiffers`).
- Standalone creation drops the archived flag, replicated creation keeps it
  (`PathsAgree`; `ArchivedCreationDiffers`).
- Pairing again keeps the last batch ID and a pending credential
  (`RepairedFirstBatch`, `PolledFirstBatch`, `RepairedOpens`, `PolledOpens`;
  `RepairedBatchLost`).
- Observations can be filed under another post than their key's: a check or a
  polled device shares its ID with a key, saving it over an existing key keeps
  that key's post, and pairing moves a check's key to another post (`AfterFiled`,
  `OwnKeysExactly`, `AfterOwnKeys`; `PairedOverMisfiles`, `SavedOverMisfiles`).
- A post whose alerts or observations are filed under another post cannot be
  deleted; alignment is necessary as well as sufficient (`DeletionExact`,
  `DeletableExactly`; `MisalignedExample`, `MisfiledPostStays`).
- A new alert after a resolved one inherits the instant of the resolution and can
  fire at once (`FiresExactly`; `ResolvedHistoryFiresEarly`). A bad reading with a
  value can demote a firing alert and leave two rows of the same state in a row
  (`DemotesExactly`, `EveryRunChain`; `BadReadingDemotes`,
  `BadReadingBreaksChain`). Maintenance never holds back a pending alert
  (`MaintenanceDoesNotHoldPending`).
- A failed installation reports a complete rollback even if it could not remove
  the new binary or the new unit file (`BinaryRestoredExactly`,
  `UnitRestoredExactly`; `BinaryLeftBehind`, `UnitLeftBehind`).
- The ingest budget admits up to twice its limit across a window boundary. A minute
  is bound by a single limit, whatever is asked for, if and only if no request in
  it opens a window after another one in it (`AtMostTwice`, `SingleBudgetExactly`;
  `TwiceIsReached`).

## Model

| member | source | states |
|---|---|---|
| `Graph.CountReach` | internal/replicated/ops.go:29-37 | the recursive reachability query terminates on every finite graph and counts 1 exactly when a walk leads from start to target |
| `Graph.CycleCheckExact` | internal/replicated/ops.go:54-66 | on an acyclic graph the query rejects an edge exactly when adding it would close a cycle |
| `Graph.AcyclicSubset` | internal/replicated/fsm.go:503-521 | deleting edges never creates a cycle |
| `Definitions.RealizeKeepsCoherent` | internal/replicated/fsm.go:438-641 | every operation that can be realized keeps edges inside existing posts, self-loop free and acyclic, rules attached to posts, and versions positive |
| `Definitions.RealizeVersion` | internal/replicated/fsm.go:463-491 | an object's version moves only by an edit that carries exactly the stored version (up by one), by creation at 1, or by a post deletion |
| `Definitions.RealizeLater` | internal/replicated/fsm.go:522-529 | a realized operation leads to a strictly later state: higher graph revision, or the same graph with some version raised and no row lost |
| `Effects.PostCreated` | internal/replicated/fsm.go:438-461 | a creation adds exactly that post, with every field of its payload, at version 1 |
| `Effects.PostUpdated` | internal/replicated/fsm.go:463-491 | an update rewrites every field of one post but its kind and time of creation, and raises its version by one |
| `Effects.PostDeleted` | internal/replicated/fsm.go:503-521 | a deletion takes the post, exactly the edges that name it and exactly the rules on it; every other row is the same row |
| `Effects.EdgeAdded` | internal/replicated/fsm.go:533-588 | a dependency adds exactly one edge, between existing different posts, new and closing no cycle |
| `Effects.RuleCreated` | internal/replicated/fsm.go:590-613 | a rule is added with every field of its payload, on an existing post |
| `Effects.RuleToggled` | internal/replicated/fsm.go:615-641 | a toggle changes the flag of one rule and raises its version by one |
| `Effects.RealizedExactly` | internal/replicated/fsm.go:438-641 | the six conditions under which a well-formed operation is realized |
| `Effects.EntryTouchesOnlyNamed` | internal/replicated/fsm.go:438-641 | at every position of every log an entry touches only the object it names, and the edges and rules of a deleted post |
| `Effects.EdgeExactly` | internal/replicated/fsm.go:503-588 | an edge is in the graph at a position of the log if and only if an effective entry added it and none has deleted either end since |
| `CommittedLog.EffectiveMeans` | internal/replicated/fsm.go:296-399 | an entry has an effect exactly when the log is healthy before it and it is a well-formed, first-seen, realizable operation |
| `CommittedLog.FoldOrder` | internal/replicated/fsm.go:184-197 | between two positions of a log, equal applied index means identical state and a larger one means a strictly later state; remembered operations only grow; a failure is final |
| `CommittedLog.NoReturn` | internal/replicated/fsm.go:184-197 | no two positions with different applied indexes carry the same tables and graph revision |
| `CommittedLog.Fenced` | internal/replicated/fsm.go:305-307 | past the first unrealizable entry nothing changes any more, and the state is the fold of the healthy prefix before it |
| `CommittedLog.OpsAreEffective` | internal/replicated/fsm.go:392-398 | every remembered operation is the record of exactly one effective entry carrying its ID |
| `CommittedLog.AtMostOneEffect` | internal/replicated/fsm.go:332-337 | two different effective entries never carry the same operation ID, however often the log repeats it |
| `CommittedLog.FoldCoherent` | internal/replicated/fsm.go:533-588 | in every reachable state the graph is closed, self-loop free and acyclic |
| `CommittedLog.SameGraphRevision` | internal/replicated/fsm.go:522-529 | two positions with the same graph revision have the same edges, and the later keeps every post and rule of the earlier |
| `CommittedLog.NoLostUpdates` | internal/replicated/fsm.go:463-491 | while an object lives its version is one more than the number of edits since its creation, and the i-th edit carried revision i |
| `CommittedLog.RuleKeepsPost` | internal/replicated/fsm.go:615-641 | a rule stays on the post it was created for as long as it lives |
| `CommittedLog.ExistingHasBirth` | internal/replicated/fsm.go:438-461 | every existing object was created by one effective entry and has lived since |
| `Replica.RowsOfListing` | internal/replicated/fsm.go:815-831 | inserting the exported rows of a table in any order gives the table back |
| `Replica.ExportInstalls` | internal/replicated/fsm.go:693-748 | an export of coherent tables is accepted row by row by the schema and gives the same tables |
| `Replica.OpenExactly` | internal/replicated/fsm.go:120-156 | opening fails exactly when there are posts without a recorded position; a process starts healthy at that position and remembers nothing |
| `Replica.AnswerTells` | internal/replicated/fsm.go:296-399 | what each answer to an entry tells about the process before and after |
| `Replica.InstallableExactly` | internal/replicated/fsm.go:815-831 | a snapshot is accepted row by row exactly when keys and edges are listed once, edges join two different listed posts, and rules belong to listed posts |
| `Replica.InstallsExactly` | internal/replicated/fsm.go:798-848 | a snapshot ahead of the process replaces everything but the sticky failure if it is complete, and changes nothing otherwise |
| `Fsm.FSM.New` | internal/replicated/fsm.go:120-156 | opening restores the recorded position and graph revision, and is refused exactly when posts exist without a recorded position |
| `Fsm.FSM.ApplyPostCreate` | internal/replicated/fsm.go:438-461 | all of the creation with its position in one transaction, or nothing |
| `Fsm.FSM.ApplyPostUpdate` | internal/replicated/fsm.go:463-491 | all of the update with its position, or nothing when stale, missing or faulted |
| `Fsm.FSM.ApplyPostDelete` | internal/replicated/fsm.go:493-531 | post, its edges and rules go and the graph revision rises, or nothing |
| `Fsm.FSM.ApplyDependencyAdd` | internal/replicated/fsm.go:533-588 | the edge is added under the labelled graph revision exactly when allowed, or nothing changes |
| `Fsm.FSM.ApplyRuleCreate` | internal/replicated/fsm.go:590-613 | the rule is created on an existing post with a known operator, or nothing changes |
| `Fsm.FSM.ApplyRuleSetEnabled` | internal/replicated/fsm.go:615-641 | the toggle needs the stored version, or nothing changes |
| `Fsm.FSM.ApplyEntry` | internal/replicated/fsm.go:234-245 | one committed entry: fence, support checks, duplicate, replay, mutation or poisoning, with the whole resulting state and answer |
| `Fsm.FSM.Snapshot` | internal/replicated/fsm.go:693-748 | the file passes its own verification and holds tables, graph revision, reported position and remembered operations |
| `Fsm.FSM.RestoreFrom` | internal/replicated/fsm.go:754-848 | a file that fails verification or breaks the schema changes nothing; at or behind the opened position only unknown operations are added; otherwise everything but the sticky failure is replaced |
| `Fsm.VerifiedExactly` | internal/replicated/fsm.go:754-789 | a file is accepted exactly when it has the current format, a supported version, and the checksum of the body it carries |
| `Fsm.CopyInstalls` | internal/replicated/fsm.go:754-848 | the file of a snapshot is accepted by any process, and puts a process opened behind it into the same state |
| `Fsm.EditedCopyRefused` | internal/replicated/fsm.go:775-781 | the same file with any edit of its body under the checksum it had is refused and changes nothing |
| `Fsm.ListMap` | internal/replicated/fsm.go:697-711 | every row of a table is exported exactly once |
| `Fsm.InsertRows` | internal/replicated/fsm.go:815-820 | succeeds exactly when all keys differ, and then holds those rows |
| `Fsm.InsertEdges` | internal/replicated/fsm.go:821-825 | succeeds exactly when edges are new, not self loops and end in inserted posts |
| `Recovery.ReachableOk` | internal/replicated/fsm.go:120-156 | the recovery invariant holds at every step of every run of delivery, storage faults, crashes, restarts and snapshots |
| `Recovery.ReplaySimulates` | internal/replicated/fsm.go:343-349 | replaying a materialized entry leaves disk, graph revision and fence alone and remembers what the specification remembers |
| `Recovery.ApplySimulates` | internal/replicated/fsm.go:364-398 | beyond the disk a process follows the specification, or poisons itself and changes nothing else |
| `Recovery.RestartOk` | internal/replicated/fsm.go:120-156 | every disk of a run can be opened, whatever the crash point |
| `Recovery.InstallOk` | internal/replicated/fsm.go:770-847 | installing a snapshot keeps the invariant, behind, at or ahead of the replica |
| `Recovery.DeliverOk` | internal/replicated/fsm.go:296-399 | delivery keeps the invariant in replay, at the tip and behind the fence, with or without a storage fault |
| `Convergence.DurableIsFold` | internal/replicated/fsm.go:184-197 | in every run every disk is the fold of the committed log up to the position it records, is coherent, and can be opened again |
| `Convergence.ReplicasAgree` | internal/replicated/fsm.go:184-197 | two replicas at the same recorded position hold the same definitions and graph revision, whatever their histories |
| `Convergence.RememberedOpsAgree` | internal/replicated/fsm.go:343-349 | after replay a process remembers the same operation IDs, digests, payloads and preconditions as one that never crashed |
| `Convergence.PositionMonotone` | internal/replicated/fsm.go:187-197 | a disk never moves back to an earlier position |
| `Convergence.HandedEntryEffect` | internal/replicated/fsm.go:332-349 | handing an entry over changes the disk only if it is effective, was not represented before, and is after |
| `Convergence.NeverAppliedTwice` | internal/replicated/fsm.go:332-349 | once a disk represents an operation, no later delivery of that ID in the run changes it, across duplicates, restarts and snapshots |
| `Convergence.PoisonedStays` | internal/replicated/fsm.go:305-307 | a poisoned process ignores every further entry |
| `Convergence.PoisonStopsAtEntry` | internal/replicated/fsm.go:380-391 | the entry a process stops at is one that fails everywhere, or an effective one its own storage failed on |
| `Convergence.ReplayIsQuiet` | internal/replicated/fsm.go:343-349 | replay up to the recorded position never opens a transaction, so no storage fault can disturb it |
| `Convergence.RestartMeetsSameEntry` | internal/replicated/fsm.go:305-349 | a poisoned replica that is restarted replays everything it had accepted without touching its disk, then meets the next entry: it stops there if that fails everywhere and otherwise follows the log |
| `Convergence.PoisonedIsStopped` | internal/replicated/fsm.go:305-331 | in every run a poisoned process is stopped at an entry that fails everywhere or is effective, until a snapshot is installed into it, and from then on stands at its disk |
| `Convergence.RunResumesAtEntry` | internal/replicated/fsm.go:305-349 | a stopped replica of any run that is restarted meets the entry it stopped at first |
| `Convergence.SnapshotExactIff` | internal/replicated/fsm.go:693-748 | a snapshot of any process equals the fold at the position it is stored under exactly when the process stands at its disk and was handed nothing effective or failing since it last accepted an entry |
| `Convergence.RunSnapshotExactly` | internal/replicated/fsm.go:693-748 | in every run: a healthy process exactly when settled, a stopped one never, a restored one exactly while it is handed nothing effective or failing |
| `Convergence.MidReplaySnapshotPoisons` | internal/replicated/fsm.go:346-347 | concrete run: a snapshot taken in the middle of replay makes a new replica stop on a healthy log |
| `Convergence.SnapshotRoundTrip` | internal/replicated/fsm.go:770-847 | snapshot then restore reproduces definitions, graph revision, position and operation map in a replica opened behind it, and touches no table of one opened at or past it |
| `Admission.Adapter.ProposeOp` | internal/replicated/adapter.go:122-141 | an unhealthy process refuses; a known ID is answered or refused by intent; otherwise the operation is proposed as built |
| `Admission.Adapter.ValidateDependencyAdd` | internal/replicated/ops.go:38-67 | accepts exactly the edges between two existing different posts that are new and close no cycle |
| `Admission.Adapter.GraphPropose` | internal/replicated/adapter.go:174-202 | as ProposeOp, labelled with the captured graph revision, after validation of a new edge |
| `Admission.AdmissionSound` | internal/replicated/adapter.go:184-202 | an edge validated at revision G and labelled G takes effect at any later position exactly when the graph is still at G; otherwise no table changes and replicas stop |
| `Admission.GraphLockSuffices` | internal/replicated/adapter.go:182-202 | if only other kinds are committed in between, an admitted edge takes effect |
| `Admission.DeleteAdmission` | internal/replicated/adapter.go:69-71 | an admitted deletion fails exactly when its post is missing when reached, which cannot happen if it existed at admission |
| `Admission.NextTakesEffect` | internal/replicated/fsm.go:364-398 | a fresh operation committed next takes effect exactly when it can be realized on the tables of an up-to-date process, and then on both |
| `Admission.GraphProposalCarries` | internal/replicated/adapter.go:184-202 | a graph operation proposed under a fresh ID carries what was asked for, labelled with the revision the graph has; exactly the edges that are not allowed are rejected |
| `Admission.EdgeProposalTakesEffect` | internal/replicated/adapter.go:184-202 | the edge that an up-to-date process proposes takes effect when committed next, and adds exactly itself |
| `Admission.DeletionProposalTakesEffect` | internal/replicated/adapter.go:69-71 | the deletion it proposes takes effect exactly when its post exists, and takes the post and the edges that name it |
| `Admission.ProposalCarries` | internal/replicated/adapter.go:135-141 | an operation proposed as it comes carries every field that was asked for |
| `Admission.UpdateProposalTakesEffect` | internal/replicated/adapter.go:56-64 | an update on the stored version is proposed, and committed next puts the fields asked for into the row |
| `Admission.DecisionExactly` | internal/replicated/adapter.go:122-134 | when a request is refused as unhealthy, answered, refused as different, or proposed |
| `Admission.EditExactly` | internal/replicated/adapter.go:122-141 | a committed update or toggle takes effect exactly when the stored version is the one it carries; otherwise no table changes and replicas stop |
| `Admission.EditAdmission` | internal/replicated/adapter.go:122-141 | it takes effect if that version was stored at admission and no effective entry in between edits the object, deletes it or deletes its post |
| `Admission.CreationExactly` | internal/replicated/adapter.go:122-141 | a committed creation takes effect exactly when the object does not exist and, for a rule, its post does and its operator is known |
| `Admission.CreationAdmission` | internal/replicated/adapter.go:122-141 | it takes effect if that held at admission and no effective entry in between creates the object or deletes the post of the rule |
| `Admission.UnrealizableStops` | internal/replicated/adapter.go:122-141 | whatever cannot be realized on the tables of a healthy up-to-date process stops it when committed next |
| `Admission.StaleEditStops` | internal/replicated/adapter.go:122-141 | every such process proposes any update or toggle that carries another version than the stored one, and stops at it |
| `Admission.SecondUpdateStops` | internal/replicated/adapter.go:122-141 | failing run: two updates of one post on the same version, both proposed; the second stops the replica |
| `Admission.MissingPostStops` | internal/replicated/adapter.go:69-71 | the deletion of any missing post is proposed by every healthy up-to-date process, and once committed stops it |
| `Admission.FirstDeletionStops` | internal/replicated/adapter.go:69-71 | shortest failing run: a new replica and a deletion of a post never created |
| `Admission.RetryRecognized` | internal/replicated/adapter.go:210-250 | a retry of the same kind is recognized exactly when object, revision and intent agree, timestamps aside |
| `Admission.RetryAnswered` | internal/replicated/adapter.go:129-134 | on any healthy process that has been handed the entry such a retry is answered with the original position and nothing is proposed |
| `Admission.RetryOfAnyKind` | internal/replicated/adapter.go:210-250 | for every pair of kinds a request that reuses an ID is recognized exactly when object and revision agree and what its kind decodes from the earlier intent is what it asks for |
| `Admission.AnsweredAcrossKinds` | internal/replicated/adapter.go:129-134 | a request is answered with an operation of another kind exactly when it is a deletion, a creation or update of a post asking for the same, or a toggle to the flag the earlier payload decodes to; otherwise it is refused |
| `Admission.DeleteRetryIgnoresKind` | internal/replicated/adapter.go:246-247 | a deletion is taken for a retry of any earlier operation on the same object and revision |
| `Admission.ReusedIdKeepsPost` | internal/replicated/adapter.go:129-134 | concrete run: a deletion reusing a creation's ID is answered with the creation's result and the post stays |
| `Admission.ReusedIdKeepsRule` | internal/replicated/adapter.go:129-134 | failing run: a toggle that reuses the ID of an update of a post with the ID of the rule is answered with the update, and the rule stays enabled |
| `Admission.RebuiltRevisionAgrees` | internal/replicated/fsm.go:344-345 | the revision reported after a restart equals the original one exactly for creations submitted at 1 and graph operations at 0 |
| `Admission.RebuiltRevisionDiffers` | internal/replicated/fsm.go:344-345 | failing case: a creation submitted at revision 0 reports 1, and 0 after a restart |
| `Standalone.Store.Create` | internal/posts/posts.go:41-80 | standalone creation of a post, dropping the archived flag |
| `Standalone.Store.Update` | internal/posts/posts.go:134-173 | standalone update guarded by the expected version |
| `Standalone.Store.Delete` | internal/posts/posts.go:190-235 | standalone deletion of a post with its rules and edges |
| `Standalone.Store.AddEdge` | internal/posts/posts.go:238-272 | standalone edge insertion: cycle query, then the keys |
| `Standalone.Store.AddRule` | internal/rules/rules.go:100-130 | standalone rule creation |
| `Standalone.Store.Toggle` | internal/rules/rules.go:47-77 | standalone toggle, which needs no version |
| `Standalone.RefusesInvalid` | internal/rules/rules.go:101-103 | what is refused before any table is looked at: bad posts and rules, and self dependencies |
| `Standalone.BadPostExactly` | internal/posts/posts.go:177-188 | the limits of identifiers, names, addresses, kinds and labels |
| `Standalone.CreatedLocally` | internal/posts/posts.go:65-80 | a created post has the fields of the request, except that it is not archived |
| `Standalone.RuleCreatedLocally` | internal/rules/rules.go:117-130 | a created rule has the fields of the request, its duration in whole seconds |
| `Standalone.PathsAgree` | internal/posts/posts.go:41-80 | for a valid request both paths accept or neither does, with the same tables exactly when it is not the creation of an archived post |
| `Standalone.ArchivedCreationDiffers` | internal/posts/posts.go:65-80 | failing case: an archived post comes out active on the standalone path |
| `Standalone.ModesAgree` | internal/posts/posts.go:41-272 | any sequence of valid requests that creates no archived post is accepted by both paths or by neither, with the same tables |
| `PostDeletion.StatementGoesThrough` | internal/replicated/cleanup.go:14-35 | one statement of a children-first script removes exactly the owned rows of its table and leaves no dangling reference |
| `PostDeletion.DeletionExact` | internal/replicated/cleanup.go:14-35 | every children-first order deletes a post without a violation after any statement exactly when its alerts and observations are filed under it; then precisely what refers to it is gone |
| `PostDeletion.MisalignedExample` | internal/replicated/cleanup.go:14-35 | failing case: a consistent database with one misfiled observation, whose collector's post no children-first order deletes |
| `PostDeletion.ClearExact` | internal/replicated/fsm.go:852-882 | clearing before a snapshot always goes through, with no alignment needed |
| `PostDeletion.NothingPointsAtDeleted` | internal/replicated/fsm.go:503-521 | no remaining row names the deleted post |
| `PostDeletion.ProgramOrders` | internal/replicated/cleanup.go:14-35 | the three orders written in the program are children first |
| `PostDeletion.Connection.RunScript` | internal/replicated/cleanup.go:28-34 | the statement loop runs the script, or rolls everything back at the first violation |
| `PostDeletion.Connection.DeletePost` | internal/replicated/fsm.go:503-521 | the replicated deletion succeeds exactly when the post exists and the database is aligned for it, and otherwise changes nothing |
| `PostDeletion.Connection.DeletePostStandalone` | internal/posts/posts.go:212-230 | the standalone deletion looks the post up first and has the same outcome |
| `PostDeletion.Connection.ClearReplicated` | internal/replicated/fsm.go:852-882 | removes everything that hangs on any post |
| `Telemetry.InsertBatch` | internal/ingest/ingest.go:59-67 | the insert loop accepts exactly well-formed, contiguous, same-key, conflict-free batches |
| `Telemetry.Service.Allow` | internal/ingest/ingest.go:119-135 | the fixed window: decision and new window |
| `Telemetry.Service.AcceptBatch` | internal/ingest/ingest.go:32-83 | one batch, atomically: rejected and duplicate batches leave keys and rows alone, an accepted one appends and confirms |
| `Telemetry.Service.Accept` | internal/ingest/ingest.go:224-263 | one observation, atomically |
| `Telemetry.Service.Authenticate` | internal/ingest/ingest.go:166-176 | succeeds exactly for an open key and its active or unexpired pending credential |
| `Telemetry.Service.IngestSource` | internal/server/server.go:405-425 | central checks and device polls append under the post of the source and the next sequence numbers of its key |
| `Telemetry.Service.SaveSource` | internal/checks/schedules.go:50-84 | a check is saved once, and creates its key unless that ID already names one |
| `Telemetry.Service.ImportCheck` | internal/propagation/adapter.go:242-253 | an imported check replaces the post of the check with its ID and leaves keys alone |
| `Telemetry.Service.Enroll` | internal/ingest/ingest.go:136-164 | a key is created once |
| `Telemetry.Service.Rotate` | internal/agentpairing/pairing.go:204-240 | only the pending credential and its expiry change |
| `Telemetry.Service.Revoke` | internal/agentpairing/pairing.go:169-193 | connection and key are revoked together |
| `Telemetry.Service.Unpair` | internal/agentpairing/pairing.go:242-273 | as Revoke, on presentation of the active credential |
| `Telemetry.Service.Retain` | internal/history/history.go:103-112 | answers how many rows went: the batch size, or all expired rows if fewer; an invalid batch size deletes nothing |
| `Telemetry.PrunedMeans` | internal/history/history.go:103-112 | what is left after retention: up to some row only what has not expired, and everything from there on; short of the end only when the batch is used up |
| `Telemetry.Service.IssueToken` | internal/pairing/pairing.go:32-64 | a token is issued for an open post and a lifetime in range |
| `Telemetry.Service.ConsumeToken` | internal/pairing/pairing.go:66-117 | pairing deletes the key's observations and restarts its sequence space, once per token |
| `Telemetry.Service.RequestPairing` | internal/agentpairing/pairing.go:59-86 | at most 100 requests wait at a time |
| `Telemetry.Service.Decide` | internal/agentpairing/pairing.go:275-303 | only a waiting, unexpired request is decided |
| `Telemetry.Service.Poll` | internal/agentpairing/pairing.go:305-398 | an approved request enrolls once; a consumed one is reissued only while its credential was never used |
| `Acceptance.SoundExactly` | internal/ingest/ingest.go:60-62 | what one observation has to be |
| `Acceptance.BatchAcceptedExactly` | internal/ingest/ingest.go:32-67 | a batch is accepted exactly when it has 1 to 128 sound observations of one key and its post, an admitted credential, room in the budget, another name than the last one, and continues the sequence without a gap |
| `Acceptance.BatchDuplicateExactly` | internal/ingest/ingest.go:48-50 | it is acknowledged without being stored exactly when it names the last batch and is admitted; refused, it changes nothing |
| `Acceptance.BatchStored` | internal/ingest/ingest.go:59-82 | an accepted batch is stored as it is, moves its key, and makes the pending credential it came with the active one |
| `Acceptance.SingleAcceptedExactly` | internal/ingest/ingest.go:224-262 | a single observation is accepted exactly when it is sound, new, of the post of its key, within budget and admitted, and is stored as it is |
| `Acceptance.ReportStored` | internal/server/server.go:410-425 | a report is stored whole, under the ID and post of its source and the next numbers |
| `Acceptance.SourceSaved` | internal/checks/schedules.go:50-84 | a new source is saved with its post, and its key created only if the ID had none |
| `Acceptance.BudgetExactly` | internal/ingest/ingest.go:119-135 | when a window is opened, a request fits, and is charged |
| `Pairing.StrangerRefused` | internal/agentpairing/pairing.go:314-330 | a poll with another secret than the request was made with, too late, undecided or refused, changes nothing and is given no credential |
| `Pairing.ApprovedPollPairs` | internal/agentpairing/pairing.go:336-371 | a poll in time with the right secret pairs an approved request under the approved post, once |
| `Pairing.ConsumedPollReissues` | internal/agentpairing/pairing.go:373-401 | a consumed request is handed another credential exactly while its key has seen no ingest, and only the credential changes |
| `Pairing.RequestRecorded` | internal/agentpairing/pairing.go:59-86 | a pairing request is recorded exactly when it is complete and fewer than a hundred wait, for ten minutes |
| `Pairing.DecisionRecorded` | internal/agentpairing/pairing.go:275-303 | a decision changes the state of a waiting request in time, and nothing else |
| `Pairing.TokenRecorded` | internal/pairing/pairing.go:32-64 | a token is issued for an open post and between one and thirty minutes |
| `Pairing.TokenPairs` | internal/pairing/pairing.go:66-117 | a token pairs a key of its own post, or a new one, once and in time; otherwise nothing changes |
| `Pairing.EnrollmentCreates` | internal/ingest/ingest.go:136-164 | enrollment creates a key nobody had, open to the issued credential only |
| `Pairing.RotationRecords` | internal/agentpairing/pairing.go:204-240 | rotation asks for the active credential of a key that is not revoked, and only records a pending one for ten minutes |
| `Pairing.CutsExactly` | internal/agentpairing/pairing.go:169-193 | who can unpair or revoke, and that nothing else is touched |
| `Pairing.OpensExactly` | internal/ingest/ingest.go:194-222 | which credentials open a key, and what confirming makes of it |
| `Pairing.RequestMoves` | internal/agentpairing/pairing.go:275-371 | how a request can move from state to state, by which event |
| `Pairing.PairingHasOrigin` | internal/agentpairing/pairing.go:305-371 | in every run a poll pairs a key only for a request asked for in the run with that very secret and then approved, all within ten minutes |
| `Pairing.PairsOnce` | internal/agentpairing/pairing.go:356-364 | an approval pairs at most once in a run |
| `Pairing.ReissueOnlyUnused` | internal/agentpairing/pairing.go:373-401 | in every run, once telemetry was accepted under a key, no poll of a consumed request gets a credential until the key is paired again |
| `Pairing.SpendingHasOrigin` | internal/pairing/pairing.go:66-117 | in every run a token pairs a key only after it was issued in the run, within its lifetime, under the post it was issued for |
| `Pairing.SpentOnce` | internal/pairing/pairing.go:106-112 | and at most once |
| `TelemetryRuns.AfterSequenced` | internal/ingest/ingest.go:59-78 | every operation keeps sequences between 1 and the key's last and pairwise different |
| `TelemetryRuns.RunSequenced` | internal/ingest/ingest.go:59-78 | that invariant holds in every run of ingest, checks, polls, retention, pairing and reissue |
| `TelemetryRuns.ConstraintNeverRejects` | internal/server/server.go:650-659 | under it the UNIQUE constraint never decides: sources are stored whenever their key exists, batches on their own merits |
| `Filing.AfterFiled` | internal/server/server.go:405-425 | of all events exactly the report of a source whose key belongs to another post files observations under a foreign post |
| `Filing.OwnKeysExactly` | internal/checks/schedules.go:75-77 | a state misfiles no report of any source if and only if no source shares its ID with a key of another post |
| `Filing.AfterOwnKeys` | internal/agentpairing/pairing.go:345-358 | an event keeps that property exactly when it does not put a key under another post than the source of its ID, or save a source for another post than the key of its ID |
| `Filing.RunFiled` | internal/agentpairing/pairing.go:345-358 | in every run without such a clash observations stay filed under their key's post |
| `Filing.PairedOverMisfiles` | internal/agentpairing/pairing.go:345-358 | failing run: an agent pairs under the ID of a check for another post, and the next report of the check is misfiled |
| `Filing.SavedOverMisfiles` | internal/checks/schedules.go:75-77 | failing run: a check is saved under the ID of a collector of another post, and its first report is misfiled |
| `Filing.FiledIsAligned` | internal/replicated/cleanup.go:14-35 | observations are filed under their key's post exactly when the database is aligned for every post as far as observations go |
| `Filing.DeletableExactly` | internal/replicated/cleanup.go:14-35 | with alerts in place every post can be deleted if and only if observations are filed under their key's post |
| `Filing.MisfiledPostStays` | internal/replicated/fsm.go:503-521 | after the pairing run the key's post can be deleted neither by the replicated nor by the standalone statements |
| `ExactlyOnce.BatchesExactlyOnce` | internal/ingest/ingest.go:32-83 | under any pattern of lost requests, lost acknowledgements, rejections and late copies the accepted stream is the earlier one followed by the first k batches, k being the acknowledged count or one more; it is also what is stored, less what retention removed |
| `ExactlyOnce.LateIgnored` | internal/ingest/ingest.go:48-62 | a late copy of an acknowledged batch changes nothing |
| `ExactlyOnce.StartsInStep` | internal/ingest/ingest.go:48-51 | a client whose names are new to the server starts in step |
| `ExactlyOnce.PrunedThins` | internal/history/history.go:103-112 | retention removes elements of a collector's stream and changes neither the rest nor its order |
| `ExactlyOnce.RepairedFirstBatch` | internal/pairing/pairing.go:91-98 | after re-pairing, a first batch is acknowledged without being stored exactly when it reuses the key's last batch ID |
| `ExactlyOnce.PolledFirstBatch` | internal/agentpairing/pairing.go:345-358 | the same after re-pairing by polling an approved request |
| `ExactlyOnce.RepairedBatchLost` | internal/pairing/pairing.go:91-98 | failing case: the first batch after re-pairing reuses the last batch ID and is lost, and the earlier pending credential still opens the key |
| `Rotation.CredentialStep` | internal/agentpairing/pairing.go:204-240 | what any single event can do to the credentials of a key that is not paired again |
| `Rotation.OldStaysUntilConfirmed` | internal/ingest/ingest.go:44-55 | the old credential opens the key through the whole run until a committed ingest confirms a replacement or the key is cut |
| `Rotation.ConfirmationSwaps` | internal/ingest/ingest.go:220-222 | in the confirming step the pending credential becomes active and the old one never opens the key again |
| `Rotation.RetiredForever` | internal/agentpairing/pairing.go:204-240 | a credential out of use never opens the key again |
| `Rotation.UnconfirmedExpires` | internal/ingest/ingest.go:194-218 | a replacement that expired unconfirmed never opens the key afterwards, whatever late ingest presents it and whatever else is rotated or confirmed |
| `Rotation.RevokedForever` | internal/agentpairing/pairing.go:169-193 | after revocation or unpairing nothing opens the key |
| `Rotation.PolledOpens` | internal/agentpairing/pairing.go:345-358 | after re-pairing by an approved request the new credential opens the key, and so does an unexpired pending one from before, and nothing else |
| `Rotation.RepairedOpens` | internal/pairing/pairing.go:91-98 | after re-pairing the new credential opens the key, and so does an unexpired pending one from before, and nothing else |
| `Install.RestoreStepsExact` | internal/service/service.go:867-876 | the enablement steps reproduce a restorable word from any state, except `disabled` over a runtime link that disable leaves alone |
| `Install.ForwardStepsExact` | internal/service/service.go:802-817 | the forward steps keep prior states, or enable and start a fresh service, and load the unit when it changed |
| `Install.ClearedBeforeRestart` | internal/service/service.go:811-817 | a restart is the last forward step, right after failure state is cleared; a reload comes first, exactly when the unit changed |
| `Install.RefusesExactly` | internal/service/service.go:616-708 | the reasons to refuse, each enough by itself |
| `Install.InPlaceExactly` | internal/service/service.go:714-716 | nothing has to be installed exactly when unit and binary are the requested ones |
| `Install.ReportedExactly` | internal/service/service.go:736-783 | a rollback is reported complete exactly when no step but an ignored removal fails |
| `Install.Host.Replace` | internal/service/service.go:736-827 | the forward steps, and the rollback if one fails, with the outcome and the files in every case |
| `Install.Host.RunSteps` | internal/service/service.go:818-823 | succeeds exactly when every step works, stopping at the first failure, with the combined effect |
| `Install.Host.RestoreStates` | internal/service/service.go:762-778 | reports completion exactly when every step works, and then prior enablement and activity are back |
| `Install.Host.RestoreFiles` | internal/service/service.go:744-758 | what binary and unit are afterwards for every outcome of every step, and that failed removals go unreported |
| `Install.Host.Rollback` | internal/service/service.go:736-783 | when completion is reported, exactly; then enablement and activity are the prior ones; and what binary and unit are in every case |
| `Install.Host.Forward` | internal/service/service.go:790-823 | succeeds exactly when every step works, with the requested unit and binary in place; what the files are otherwise |
| `Install.Host.InstallOptions` | internal/service/service.go:616-827 | each of the five outcomes exactly; success yields the request with prior states kept; after a rollback exactly when it is reported complete and what the files are |
| `Install.BinaryRestoredExactly` | internal/service/service.go:744-750 | a rollback reported complete has restored the binary on every host if and only if there was one before |
| `Install.UnitRestoredExactly` | internal/service/service.go:752-758 | and the unit file if and only if there was one before |
| `Install.BinaryLeftBehind` | internal/service/service.go:749-749 | failing host: an existing installation without its binary ends a complete rollback with the new binary in place |
| `Install.UnitLeftBehind` | internal/service/service.go:757-757 | failing host: a fresh host ends a complete rollback with the unit file in place |
| `UnitFile.ReadManagedUnit` | internal/service/service.go:322-389 | the counting loops compute the reading specification |
| `UnitRoundTrip.ExpectedExactly` | internal/service/service.go:68-82 | what is recorded: the address or the joined host and port, the mode, and the default data directory if none was given |
| `UnitReading.CommandLineExact` | internal/service/service.go:408-419 | for all options the line that starts the service reads back as exactly its arguments, whatever quotes, spaces, dollar or percent signs they contain |
| `UnitReading.DirectivesPresent` | internal/service/service.go:395-436 | the other lines that depend on options, and those that confine the service |
| `UnitReading.ScanExactly` | internal/service/service.go:343-366 | the scan counts each kind of metadata line and keeps the last value of each |
| `UnitReading.ReadsExactly` | internal/service/service.go:322-389 | which files read back, and as what |
| `UnitReading.ReadFailsExactly` | internal/service/service.go:322-342 | when a file is answered not managed, and when modified |
| `UnitRoundTrip.UnitRoundTrips` | internal/service/service.go:439-456 | for all trimmed, control-free options the built unit reads back as exactly the recorded listener, mode, data directory, environment file and cookie flag |
| `UnitRoundTrip.EditsDetected` | internal/service/service.go:339-342 | an edit of the text below the header is reported as modified, or malformed when it adds another header line |
| `UnitRoundTrip.BodyInert` | internal/service/service.go:395-436 | no directive line can be taken for metadata, whatever the option values |
| `UnitRoundTrip.MetaScanned` | internal/service/service.go:439-450 | the printed metadata lines are complete and carry the options |
| `UnitRoundTrip.JoinSplit` | internal/service/service.go:323-340 | joining the split lines gives the text whose checksum was taken |
| `Alerts.Engine.Evaluate` | internal/rules/rules.go:132-205 | the step-by-step evaluation appends exactly the specified row |
| `Alerts.Engine.Acknowledge` | internal/rules/rules.go:207-227 | only a firing row is acknowledged, in place |
| `Alerts.BreachesExactly` | internal/rules/rules.go:287-298 | when a reading breaches a rule |
| `Alerts.FirstRow` | internal/rules/rules.go:145-158 | what the first breach writes |
| `Alerts.NextExactly` | internal/rules/rules.go:160-186 | what follows each state, for every rule and reading |
| `Alerts.AppendsOneRow` | internal/rules/rules.go:186-205 | an evaluation keeps every row and appends at most one, of another state, with the value and time of the reading |
| `Alerts.AcknowledgesOneRow` | internal/rules/rules.go:207-227 | an acknowledgement changes the state and time of one firing row |
| `Alerts.LeavesUpExactly` | internal/rules/rules.go:184-186 | with good readings a firing or acknowledged alert leaves that state exactly on a value strictly past recovery |
| `Alerts.BadReadingDemotes` | internal/rules/rules.go:160-186 | concrete reading: a bad-quality recovered value under the firing policy moves a firing alert back to pending |
| `Alerts.DemotesExactly` | internal/rules/rules.go:160-186 | an up alert is followed by anything but its resolution exactly on a bad-quality reading with a recovered value under the firing policy that asks for another state than its own |
| `Alerts.RunChain` | internal/rules/rules.go:186-205 | in every run of good readings, with recovery on the healthy side, consecutive rows are different states of the allowed relation |
| `Alerts.EveryRunChain` | internal/rules/rules.go:186-205 | in every run whatever, a row that was not up is followed by an allowed different state |
| `Alerts.BadReadingBreaksChain` | internal/rules/rules.go:160-205 | failing run: one bad reading leaves two consecutive acknowledged rows |
| `Alerts.OpenedAtIsAnchor` | internal/rules/rules.go:193-196 | in every run the stored opening instant is that of the last reading that broke off a breach, or else of the first breach |
| `Alerts.FiresExactly` | internal/rules/rules.go:186-192 | in every run a pending alert fires at a breach exactly when the duration has passed since that anchor |
| `Alerts.FirstFiringIsEarned` | internal/rules/rules.go:186-192 | the first firing of any rule, whatever the readings, follows unbroken breaches spanning at least its duration |
| `Alerts.RunInherits` | internal/rules/rules.go:193-196 | in every run a row over a waiting or resolved one carries its opening instant unless it resolves; resolving and demoting rows carry their own |
| `Alerts.CountsFromResolution` | internal/rules/rules.go:193-196 | after a resolved row the duration is counted from that resolution |
| `Alerts.ResolvedHistoryFiresEarly` | internal/rules/rules.go:193-196 | concrete run: after a resolved alert a one-minute rule fires one second into a new breach |
| `Alerts.MaintenanceDoesNotHoldPending` | internal/rules/rules.go:169-175 | maintenance makes no difference to a pending alert under breach |
| `RateLimits.AtMostTwice` | internal/ingest/ingest.go:119-135 | no half-open minute of a monotone run admits more than twice the limit for a collector |
| `RateLimits.AtMostOnce` | internal/ingest/ingest.go:119-135 | a half-open minute admits at most the limit if none but the first request in it opens a window |
| `RateLimits.SingleBudgetExactly` | internal/ingest/ingest.go:119-135 | for given arrival times, a half-open minute admits at most the limit whatever the samples if and only if no request of the collector in it opens a window after another one in it |
| `RateLimits.TwiceIsReached` | internal/ingest/ingest.go:119-135 | failing run: a minute across a window boundary admits twice the limit |
| `RateLimits.CheckLimiter.Compact` | internal/server/server.go:108-115 | the in-place compaction keeps exactly the times after the cutoff, in order |
| `RateLimits.CheckLimiter.Allow` | internal/server/server.go:102-121 | decision and new log of one check |
| `RateLimits.LogIsRecent` | internal/server/server.go:108-120 | the log is exactly the recent part of all admissions: pruning forgets nothing that matters |
| `RateLimits.AdmittedExactly` | internal/server/server.go:116-120 | a check is admitted exactly when fewer than sixty were admitted in the last minute |
| `RateLimits.AtMostSixty` | internal/server/server.go:102-121 | no half-open minute of any run admits more than sixty checks |

## Left out

- Raft elections, log transport, TLS and the library's own snapshot scheduling: the committed log is a given sequence, entries are delivered in order, and a snapshot is stored under the position delivered when it was taken.
- Awaiting the commit of a proposed operation: a proposal is the operation handed over; what becomes of it is a position in the log.
- Hashing, digests, JSON and base64: a digest is part of the operation, a payload carries what each decoder makes of it, secrets stand for their hashes, and snapshot checksums are collision free. The unit checksum is any function to 64 hexadecimal digits.
- Integer width: indexes, revisions, versions and sequence numbers are unbounded; wrap-around at 2^63 is not modelled.
- Floating point: thresholds and readings are reals. NaN and the infinities appear only where ingest rejects them.
- Time text: instants are integers, so the comparison of RFC 3339 text with differing numbers of fraction digits (section 5.1 of RFC 3339) is not modelled.
- Row order inside a snapshot and inside query results: an export lists every row once, in any order.
- The product label of the state machine, audit rows, log lines, and text of error messages.
- A commit that reports an error although it became durable, and metadata keys that are individually missing or malformed: position, term and graph revision are one row that is present or absent.
- Concurrency inside one process: methods are atomic. The window between capturing, validating and re-reading the graph revision is modelled by three log positions in `AdmissionSound`.
- `ClearApplyFailure` and the fault injection used by tests.
- Post fields that only some clients set, observer fields of a key row (agent version, last error, last observed instant), and the settings of checks and devices other than their post: they influence none of the modelled decisions.
- Device profiles that are saved without a polling interval: they have no key and report nothing.
- Imported rules: an import can move a rule to another post while its alerts stay behind; imports of checks are modelled.
- Preflight details of the installer (path, environment file, executable and data directory inspection): each enters as one answer, and account and data directory creation as one outcome each.
- UnitReading.CommandLineExact: the reader undoes one level of quoting, escapes and doubled percent signs, the inverse of what the program writes; the rest of the service manager's unit syntax is not part of this model.
- Byte level text: unit file text is a sequence of characters, trimmed by Unicode white space as the source trims it.
- Rules are evaluated one at a time; the selection of rules by signal name in `EvaluateObservation` and its aliases are not modelled, nor is the disabling of a rule.
- HTTP handlers, the command line, users and sessions, actions, incidents, notifications, the launcher, federation, schema migrations, and backup containers: storage plumbing or short guards that would add only easy members.
- ExactlyOnce.BatchesExactlyOnce: the client's batches are the only accepted ingest under its key in these runs.
- Filing.RunFiled: deletions of posts and of their rows are not among the events of these runs.
- Filing.DeletableExactly: that alerts are filed under their rule's post is a hypothesis; alert rows and rules are not part of the telemetry database.
- Convergence.SnapshotRoundTrip: the program compares a snapshot with the position its database was opened at, so a running replica that has since moved past the snapshot would be moved back; that raft never installs an older snapshot into a running process is assumed of the library, and a guard of the runs.
- Definitions.RealizeKeepsCoherent: the supported operation version is one constant, so a cluster whose replicas run different builds is not modelled.
- Recovery.ReachableOk: snapshots exchanged in a run are taken by settled processes; what the others would contain is stated by RunSnapshotExactly.
- PostDeletion.DeletionExact: speaks of the references around posts; tables that neither refer to a post nor to such a row are not part of this model.
- Fsm.FSM.ApplyPostDelete: the node-local first phase is modelled in ForeignKeys and PostDeletion; here its failure is a storage fault.
- Install.Host.InstallOptions: a failed systemd command may leave anything in the part of the state it works on, but no more.
- RateLimits.AtMostTwice: the limit is constant over the run; the service sets it once at start-up.
