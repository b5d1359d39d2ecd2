/** What the recovery invariant gives for whole runs: every disk is the fold of
    the committed log, replicas agree, no operation takes effect twice, a fenced
    replica resumes at the entry it stopped at, and which snapshots are exact. */
module Convergence {
  import opened Outcomes
  import opened Graph
  import opened Definitions
  import opened CommittedLog
  import opened Replica
  import opened Recovery

  /** Crash-recovery refinement. In every run, every replica's disk is the fold
      of the log up to the position it records, its graph is closed and acyclic,
      and it can always be opened again. */
  lemma DurableIsFold(log: seq<LogEntry>, run: seq<Cluster>, events: seq<Event>, k: nat, i: nat)
    requires Run(log, run, events) && k < |run| && i < |run[k].nodes|
    ensures
      var d := Disk(run[k].nodes[i]);
      && Position(d) <= |log|
      && d == DiskOf(Fold(log, Position(d))) && !Fold(log, Position(d)).failed
      && Coherent(d.tables) && Open(d).Some?
  {
    ReachableOk(log, run, events, k);
    assert run[k].nodes[i] in run[k].nodes;
    FoldCoherent(log, Position(Disk(run[k].nodes[i])));
  }

  /** Two replicas whose disks record the same position hold the same
      definitions and graph revision, whatever happened to either of them and
      even if one of them has seen a longer log. */
  lemma ReplicasAgree(log: seq<LogEntry>, more: seq<LogEntry>,
                      run1: seq<Cluster>, events1: seq<Event>, k1: nat, i1: nat,
                      run2: seq<Cluster>, events2: seq<Event>, k2: nat, i2: nat)
    requires Run(log, run1, events1) && k1 < |run1| && i1 < |run1[k1].nodes|
    requires Run(log + more, run2, events2) && k2 < |run2| && i2 < |run2[k2].nodes|
    requires Position(Disk(run1[k1].nodes[i1])) == Position(Disk(run2[k2].nodes[i2]))
    ensures Disk(run1[k1].nodes[i1]) == Disk(run2[k2].nodes[i2])
  {
    DurableIsFold(log, run1, events1, k1, i1);
    DurableIsFold(log + more, run2, events2, k2, i2);
    FoldPrefix(log, more, Position(Disk(run1[k1].nodes[i1])));
  }

  /** A process that has been handed as much as its disk represents remembers
      the same operations, with the same digests, payloads and preconditions, as
      one that never crashed. */
  lemma RememberedOpsAgree(log: seq<LogEntry>, a: Node, b: Node)
    requires a.Up? && b.Up? && UpOk(log, a) && UpOk(log, b) && a.good == b.good
    ensures a.rep.mem.applied.Keys == b.rep.mem.applied.Keys
    ensures forall id | id in a.rep.mem.applied ::
              && a.rep.mem.applied[id].digest == b.rep.mem.applied[id].digest
              && a.rep.mem.applied[id].payload == b.rep.mem.applied[id].payload
              && a.rep.mem.applied[id].revision == b.rep.mem.applied[id].revision
              && a.rep.mem.applied[id].result.objectId == b.rep.mem.applied[id].result.objectId
  {
    forall id | id in a.rep.mem.applied
      ensures Erased(a.rep.mem.applied[id]) == Erased(b.rep.mem.applied[id])
    {
      assert id in Fold(log, a.good).ops;
    }
  }

  // ----- At most one mutation per operation

  /** The disk of a node never moves back. */
  lemma StepKeepsPosition(log: seq<LogEntry>, a: Node, ev: Event, b: Node)
    requires NodeOk(log, a) && NodeNext(log, a, ev, b)
    requires ev.InstallSnapshot? ==> Exact(log, ev.snap.position, ev.snap.env)
    ensures Position(Disk(a)) <= Position(Disk(b))
  {
    match ev {
      case InstallSnapshot(_, snap) => FoldOrder(log, a.good, snap.position);
      case _ =>
    }
  }

  lemma {:induction false} PositionMonotone(log: seq<LogEntry>, run: seq<Cluster>, events: seq<Event>, j: nat, k: nat,
                                            i: nat)
    requires Run(log, run, events) && j <= k < |run| && i < |run[k].nodes|
    ensures i < |run[j].nodes| && Position(Disk(run[j].nodes[i])) <= Position(Disk(run[k].nodes[i]))
  {
    if j < k {
      assert Next(log, run[k - 1], events[k - 1], run[k - 1 + 1]);
      ReachableOk(log, run, events, k - 1);
      PositionMonotone(log, run, events, j, k - 1, i);
      assert run[k - 1].nodes[i] in run[k - 1].nodes;
      if events[k - 1].node == i {
        StepKeepsPosition(log, run[k - 1].nodes[i], events[k - 1], run[k].nodes[i]);
      }
    }
  }

  /** Event k hands node i the entry that carries operation id. */
  ghost predicate Hands(log: seq<LogEntry>, run: seq<Cluster>, events: seq<Event>, k: nat, i: nat, id: Id)
    requires Run(log, run, events) && k < |events|
  {
    && (events[k].Deliver? || events[k].CrashAfterCommit?) && events[k].node == i && i < |run[k].nodes|
    && run[k].nodes[i].Up? && run[k].nodes[i].delivered < |log|
    && var body := log[run[k].nodes[i].delivered].body;
       body.Command? && body.op.id == id
  }

  /** The disk already holds the effect of operation id. */
  ghost predicate Represented(log: seq<LogEntry>, d: Durable, id: Id) {
    Position(d) <= |log| && id in Fold(log, Position(d)).ops
  }

  /** Handing over an entry changes the disk only when that entry is effective,
      was not represented before, and is represented after. */
  lemma HandedEntryEffect(log: seq<LogEntry>, n: Node, storageFault: bool)
    requires n.Up? && UpOk(log, n) && n.delivered < |log|
    ensures
      var b := Delivered(log, n, storageFault);
      b.rep.disk != n.rep.disk ==>
        && Position(b.rep.disk) == n.delivered + 1 && Effective(log, n.delivered + 1)
        && Position(n.rep.disk) <= n.delivered
        && log[n.delivered].body.Command?
        && Represented(log, b.rep.disk, log[n.delivered].body.op.id)
        && !Represented(log, n.rep.disk, log[n.delivered].body.op.id)
  {
    DeliverOk(log, n, storageFault);
    var b := Delivered(log, n, storageFault);
    if b.rep.disk != n.rep.disk {
      if n.delivered < Position(n.rep.disk) { ReplayOk(log, n, storageFault); }
      EffectiveMeans(log, n.delivered + 1);
      SameIndexSameDisk(log, Position(n.rep.disk), n.delivered);
    }
  }

  /** At most one mutation per operation ID over a whole run: once a disk holds
      the effect of an operation, by applying it or by installing a snapshot, no
      later delivery of an entry with that ID changes the disk, through
      duplicates in the log, restarts and snapshots. */
  lemma NeverAppliedTwice(log: seq<LogEntry>, run: seq<Cluster>, events: seq<Event>, j: nat, k: nat, i: nat, id: Id)
    requires Run(log, run, events) && j <= k < |events| && i < |run[j].nodes|
    requires Represented(log, Disk(run[j].nodes[i]), id)
    requires Hands(log, run, events, k, i, id)
    ensures Disk(run[k + 1].nodes[i]) == Disk(run[k].nodes[i])
  {
    assert Next(log, run[k], events[k], run[k + 1]);
    PositionMonotone(log, run, events, j, k, i);
    ReachableOk(log, run, events, k);
    assert run[k].nodes[i] in run[k].nodes;
    var n := run[k].nodes[i];
    FoldOrder(log, Position(Disk(run[j].nodes[i])), Position(n.rep.disk));
    HandedEntryEffect(log, n, if events[k].Deliver? then events[k].storageFault else false);
  }

  // ----- The fence

  /** Hands the next |faults| entries over, one by one. */
  ghost function DeliverAll(log: seq<LogEntry>, n: Node, faults: seq<bool>): Node
    requires n.Up? && n.delivered + |faults| <= |log|
    ensures DeliverAll(log, n, faults).Up?
    ensures DeliverAll(log, n, faults).delivered == n.delivered + |faults|
    decreases |faults|
  {
    if faults == [] then n else DeliverAll(log, Delivered(log, n, faults[0]), faults[1..])
  }

  /** A poisoned process refuses every further entry: no table, position, graph
      revision or remembered operation changes. */
  lemma {:induction false} PoisonedStays(log: seq<LogEntry>, n: Node, faults: seq<bool>)
    requires n.Up? && n.rep.mem.failure.Some? && n.delivered + |faults| <= |log|
    ensures DeliverAll(log, n, faults).rep == n.rep
    decreases |faults|
  {
    if faults != [] { PoisonedStays(log, Delivered(log, n, faults[0]), faults[1..]); }
  }

  /** The first entry a process refused is one the committed log gives effect
      to, or one that fails on every replica. */
  ghost predicate StoppedAt(log: seq<LogEntry>, n: Node) {
    && n.Up? && n.rep.mem.failure.Some? && n.good < n.delivered <= |log|
    && (Fold(log, n.good + 1).failed || Effective(log, n.good + 1))
  }

  lemma PoisonStopsAtEntry(log: seq<LogEntry>, n: Node, storageFault: bool)
    requires n.Up? && UpOk(log, n) && n.rep.mem.failure.None? && n.delivered < |log|
    requires Delivered(log, n, storageFault).rep.mem.failure.Some?
    ensures StoppedAt(log, Delivered(log, n, storageFault))
    ensures Delivered(log, n, storageFault).rep.mem.failure == Some(n.delivered + 1)
  {
    var p, c := Position(n.rep.disk), n.delivered;
    if c < p {
      ReplayOk(log, n, storageFault);
    } else {
      SameIndexSameDisk(log, p, c);
      IndexBound(log, c);
      ApplySimulates(n.rep, Fold(log, c), log[c], c + 1, storageFault);
      assert Fold(log, c + 1) == Step(Fold(log, c), log[c], c + 1);
    }
  }

  /** Replay up to a healthy position that needs nothing beyond the disk never
      starts a transaction, so no storage fault can interfere. */
  lemma {:induction false} ReplayIsQuiet(log: seq<LogEntry>, n: Node, faults: seq<bool>)
    requires n.Up? && UpOk(log, n) && n.rep.mem.failure.None? && n.delivered + |faults| <= |log|
    requires
      var last := n.delivered + |faults|;
      !Fold(log, last).failed && Fold(log, last).index <= Position(n.rep.disk)
    ensures
      var b := DeliverAll(log, n, faults);
      UpOk(log, b) && b.rep.mem.failure.None? && b.rep.disk == n.rep.disk
    decreases |faults|
  {
    hide Step, Apply, Fold, OpsMatch;
    if faults != [] {
      var p, c, last := Position(n.rep.disk), n.delivered, n.delivered + |faults|;
      var b := Delivered(log, n, faults[0]);
      FoldStep(log, c);
      if c < p {
        ReplayOk(log, n, faults[0]);
      } else {
        SameIndexSameDisk(log, p, c);
        IndexBound(log, c);
        FoldOrder(log, c + 1, last);
        ApplySimulates(n.rep, Fold(log, c), log[c], c + 1, faults[0]);
        FreshEntryOk(log, n, faults[0]);
      }
      ReplayIsQuiet(log, b, faults[1..]);
    }
  }

  /** Reconstruction. A poisoned replica that is restarted replays everything it
      had accepted without touching its disk, whatever faults its storage has
      meanwhile, and then meets the entry that comes next: it stops there when the
      entry fails for everyone, and otherwise follows the log. */
  lemma RestartMeetsSameEntry(log: seq<LogEntry>, n: Node, faults: seq<bool>)
    requires n.Up? && UpOk(log, n) && n.rep.mem.failure.Some? && n.good < |log| && |faults| == n.good
    ensures Open(n.rep.disk).Some?
    ensures
      var back := DeliverAll(log, Up(Open(n.rep.disk).value, 0, 0), faults);
      var next := Delivered(log, back, false);
      && back.rep.disk == n.rep.disk && back.rep.mem.failure.None? && OpsMatch(back.rep.mem.applied, n.rep.mem.applied)
      && (Fold(log, n.good + 1).failed ==> next.rep.disk == n.rep.disk && next.rep.mem.failure == Some(n.good + 1))
      && (!Fold(log, n.good + 1).failed ==>
            next.rep.disk == DiskOf(Fold(log, n.good + 1)) && next.rep.mem.failure.None?)
  {
    hide Step, Apply, Fold;
    var d := n.rep.disk;
    FoldStep(log, n.good);
    RestartOk(log, d);
    ReplayIsQuiet(log, Up(Open(d).value, 0, 0), faults);
    var back := DeliverAll(log, Up(Open(d).value, 0, 0), faults);
    var c := n.good;
    SameIndexSameDisk(log, Position(d), c);
    IndexBound(log, c);
    ApplySimulates(back.rep, Fold(log, c), log[c], c + 1, false);
    if !Fold(log, c + 1).failed && Fold(log, c + 1).index != c + 1 { SameIndexSameDisk(log, c, c + 1); }
  }

  // ----- Poisoned processes of a run

  /** How one event of the node itself changes its history. */
  function RestoredBy(a: Node, ev: Event, restored: bool): bool {
    match ev
    case InstallSnapshot(_, _) => restored || (a.Up? && a.rep.mem.failure.Some?)
    case Deliver(_, _) => restored
    case TakeSnapshot(_, _) => restored
    case _ => false
  }

  /** A snapshot was installed into the process of node i after it was poisoned. */
  ghost function Restored(run: seq<Cluster>, events: seq<Event>, k: nat, i: nat): bool
    requires k < |run| == |events| + 1
    decreases k
  {
    if k == 0 then false
    else
      var ev := events[k - 1];
      if ev.node != i then Restored(run, events, k - 1, i)
      else i < |run[k - 1].nodes| && RestoredBy(run[k - 1].nodes[i], ev, Restored(run, events, k - 1, i))
  }

  /** The process reports the position of its disk, which it has reached. */
  predicate AtDisk(n: Node) {
    n.Up? && Position(n.rep.disk) <= n.good && n.rep.mem.appliedIndex == Position(n.rep.disk)
  }

  /** A poisoned process is stopped at its entry, or restored and at its disk; a
      healthy one has not been restored. */
  ghost predicate History(log: seq<LogEntry>, n: Node, restored: bool) {
    if n.Down? || n.rep.mem.failure.None? then !restored
    else if restored then AtDisk(n)
    else StoppedAt(log, n)
  }

  /** Installing a snapshot into a poisoned process leaves it at its disk. */
  lemma InstallRestores(log: seq<LogEntry>, n: Node, snap: Stored, restored: bool)
    requires n.Up? && UpOk(log, n) && n.rep.mem.failure.Some? && n.delivered <= snap.position
    requires Exact(log, snap.position, snap.env) && History(log, n, restored)
    ensures AtDisk(Up(Replica.Restore(n.rep, snap.env), snap.position, snap.position))
  {
    var env, q := snap.env, snap.position;
    IndexIsPosition(log, q);
    if env.index <= n.rep.mem.persistedIndex {
      if !restored {
        FoldOrder(log, n.good, n.good + 1);
        FoldOrder(log, n.good + 1, q);
        assert false;
      }
    } else {
      ExactInstalls(log, q, env);
    }
  }

  lemma DeliverHistory(log: seq<LogEntry>, n: Node, storageFault: bool, restored: bool)
    requires n.Up? && UpOk(log, n) && n.delivered < |log| && History(log, n, restored)
    ensures History(log, Delivered(log, n, storageFault), restored)
  {
    if n.rep.mem.failure.None? {
      if Delivered(log, n, storageFault).rep.mem.failure.Some? { PoisonStopsAtEntry(log, n, storageFault); }
    }
  }

  lemma StartsHealthy(log: seq<LogEntry>, n: Node)
    requires n.Down?
    ensures History(log, n, false)
  {
  }

  lemma StepHistory(log: seq<LogEntry>, a: Node, ev: Event, b: Node, restored: bool)
    requires NodeOk(log, a) && NodeNext(log, a, ev, b) && History(log, a, restored)
    requires ev.InstallSnapshot? ==> Exact(log, ev.snap.position, ev.snap.env)
    ensures History(log, b, RestoredBy(a, ev, restored))
  {
    hide Exact, Exports, StoppedAt, Fold;
    match ev {
      case Deliver(_, fault) => DeliverHistory(log, a, fault, restored);
      case InstallSnapshot(_, snap) => if a.rep.mem.failure.Some? { InstallRestores(log, a, snap, restored); }
      case _ =>
    }
  }

  /** In every run: a poisoned process is stopped at the entry it refused, an entry
      that fails everywhere or that its own storage failed on, until a snapshot is
      installed into it; from then on it stands at its disk's own position. */
  lemma {:induction false} PoisonedIsStopped(log: seq<LogEntry>, run: seq<Cluster>, events: seq<Event>, k: nat, i: nat)
    requires Run(log, run, events) && k < |run| && i < |run[k].nodes|
    ensures History(log, run[k].nodes[i], Restored(run, events, k, i))
  {
    hide History, UpOk, Exact, Delivered, Exports;
    if k == 0 {
      assert run[0].nodes[i] in run[0].nodes;
      StartsHealthy(log, run[0].nodes[i]);
    } else {
      assert Next(log, run[k - 1], events[k - 1], run[k - 1 + 1]);
      ReachableOk(log, run, events, k - 1);
      PoisonedIsStopped(log, run, events, k - 1, i);
      assert run[k - 1].nodes[i] in run[k - 1].nodes;
      if events[k - 1].node == i {
        StepHistory(log, run[k - 1].nodes[i], events[k - 1], run[k].nodes[i], Restored(run, events, k - 1, i));
      }
    }
  }

  /** So a replica of any run that was stopped and is restarted meets that entry
      again, after replaying everything before it without touching its disk. */
  lemma RunResumesAtEntry(log: seq<LogEntry>, run: seq<Cluster>, events: seq<Event>, k: nat, i: nat, faults: seq<bool>)
    requires Run(log, run, events) && k < |run| && i < |run[k].nodes|
    requires run[k].nodes[i].Up? && run[k].nodes[i].rep.mem.failure.Some? && !Restored(run, events, k, i)
    requires |faults| == run[k].nodes[i].good <= |log|
    ensures
      var n := run[k].nodes[i];
      && n.good < |log| && (Fold(log, n.good + 1).failed || Effective(log, n.good + 1)) && Open(n.rep.disk).Some?
      && var back := DeliverAll(log, Up(Open(n.rep.disk).value, 0, 0), faults);
      && var next := Delivered(log, back, false);
      && back.rep.disk == n.rep.disk && back.rep.mem.failure.None?
      && (if Fold(log, n.good + 1).failed then next.rep.mem.failure == Some(n.good + 1) && next.rep.disk == n.rep.disk
          else next.rep.mem.failure.None? && Position(next.rep.disk) == n.good + 1)
  {
    hide Next, Restored, DeliverAll, Delivered, Fold;
    NodeOfRun(log, run, events, k, i);
    RestartMeetsSameEntry(log, run[k].nodes[i], faults);
    if !Fold(log, run[k].nodes[i].good + 1).failed { DiskPosition(log, run[k].nodes[i].good + 1); }
  }

  lemma DiskPosition(log: seq<LogEntry>, n: nat)
    requires n <= |log|
    ensures Position(DiskOf(Fold(log, n))) == Fold(log, n).index
  {
  }

  lemma NodeOfRun(log: seq<LogEntry>, run: seq<Cluster>, events: seq<Event>, k: nat, i: nat)
    requires Run(log, run, events) && k < |run| && i < |run[k].nodes|
    ensures NodeOk(log, run[k].nodes[i]) && History(log, run[k].nodes[i], Restored(run, events, k, i))
  {
    hide History, UpOk, Exact, Restored;
    ReachableOk(log, run, events, k);
    assert run[k].nodes[i] in run[k].nodes;
    PoisonedIsStopped(log, run, events, k, i);
  }

  // ----- Snapshots

  lemma ListingUnique<T(!new)>(s: seq<(Id, T)>, a: map<Id, T>, b: map<Id, T>)
    requires Lists(s, a) && Lists(s, b)
    ensures a == b
  {
    RowsOfListing(s, a);
    RowsOfListing(s, b);
  }

  /** The process has reached its disk's position and reports it, and no entry
      handed to it since it last accepted one has an effect or fails. */
  ghost predicate Current(log: seq<LogEntry>, n: Node)
    requires n.Up? && n.good <= |log| && n.delivered <= |log|
  {
    AtDisk(n) && Fold(log, n.delivered) == Fold(log, n.good)
  }

  /** Taking a snapshot does not check the process first. The snapshot raft
      labels with the delivered position is the fold at that position exactly
      when the process is current, healthy or poisoned, restored or not. */
  lemma SnapshotExactIff(log: seq<LogEntry>, n: Node, env: Envelope)
    requires n.Up? && UpOk(log, n) && Exports(n.rep, env)
    ensures Exact(log, n.delivered, env) <==> Current(log, n)
  {
    var p, c := Position(n.rep.disk), n.delivered;
    IndexIsPosition(log, p);
    if Current(log, n) {
      IndexIsPosition(log, n.good);
      SameIndexSameDisk(log, p, n.good);
    } else if Exact(log, c, env) {
      ListingUnique(env.posts, n.rep.disk.tables.posts, Fold(log, c).tables.posts);
      ListingUnique(env.rules, n.rep.disk.tables.rules, Fold(log, c).tables.rules);
      NoReturn(log, p, c);
      IndexBound(log, c);
      FoldOrder(log, n.good, c);
      assert false;
    }
  }

  /** A process that is stopped at an entry is not current: that entry has an
      effect or fails. */
  lemma StoppedNotCurrent(log: seq<LogEntry>, n: Node)
    requires n.Up? && UpOk(log, n) && StoppedAt(log, n)
    ensures Fold(log, n.delivered) != Fold(log, n.good)
  {
    hide Step;
    IndexBound(log, n.good);
    FoldOrder(log, n.good + 1, n.delivered);
  }

  /** Every process of a run. Healthy: its snapshots are exact exactly when it is
      settled. Stopped at an entry: never. Restored after that: exactly as long as
      it is handed nothing that has an effect or fails. */
  lemma RunSnapshotExactly(log: seq<LogEntry>, run: seq<Cluster>, events: seq<Event>, k: nat, i: nat, env: Envelope)
    requires Run(log, run, events) && k < |run| && i < |run[k].nodes|
    requires run[k].nodes[i].Up? && Exports(run[k].nodes[i].rep, env)
    ensures
      var n := run[k].nodes[i];
      && n.good <= |log| && n.delivered <= |log|
      && (Exact(log, n.delivered, env) <==>
            if n.rep.mem.failure.None? then Settled(n)
            else Restored(run, events, k, i) && Fold(log, n.delivered) == Fold(log, n.good))
  {
    hide Next, Restored, Exact, Exports, Fold, Step;
    var n := run[k].nodes[i];
    NodeOfRun(log, run, events, k, i);
    SnapshotExactIff(log, n, env);
    if n.rep.mem.failure.Some? && !Restored(run, events, k, i) { StoppedNotCurrent(log, n); }
  }

  function CreateEntry(id: Id): LogEntry {
    LogEntry(1, Command(Operation(id, SUPPORTED_VERSION, PostCreate, id, 0, 0,
      Payload("", Some(PostPayload("n", "host", "", "", "{}", false, false, "t", "t")), None, None), Some(id))))
  }

  /** A concrete replica that is not settled: it applied two creations, was
      restarted, and has replayed one of them. Its snapshot at position 1 already
      holds both posts, so a new replica that installs it and is then handed
      entry 2 stops on a duplicate, although the log itself is healthy. */
  lemma MidReplaySnapshotPoisons(env: Envelope)
    requires
      var log := [CreateEntry("a"), CreateEntry("b")];
      var done := DeliverAll(log, Up(Open(FRESH_DISK).value, 0, 0), [false, false]);
      var replaying := Delivered(log, Up(Open(done.rep.disk).value, 0, 0), false);
      Exports(replaying.rep, env)
    ensures
      var log := [CreateEntry("a"), CreateEntry("b")];
      var learner := Up(Replica.Restore(Open(FRESH_DISK).value, env), 1, 1);
      !Fold(log, 2).failed && Delivered(log, learner, false).rep.mem.failure == Some(2)
  {
    var log := [CreateEntry("a"), CreateEntry("b")];
    var zero := Up(Open(FRESH_DISK).value, 0, 0);
    var one := Delivered(log, zero, false);
    var two := Delivered(log, one, false);
    assert DeliverAll(log, one, [false]) == DeliverAll(log, two, []);
    var t1 := EMPTY_TABLES.(posts := map["a" := NewPost(CreateEntry("a").body.op.payload.post.value)]);
    assert one.rep.disk == Durable(t1, Some(Meta(1, 1, 0)));
    var t2 := t1.(posts := t1.posts["b" := NewPost(CreateEntry("b").body.op.payload.post.value)]);
    assert two.rep.disk == Durable(t2, Some(Meta(2, 1, 0)));
    var replaying := Delivered(log, Up(Open(two.rep.disk).value, 0, 0), false);
    assert Fold(log, 1) == Step(INITIAL, log[0], 1);
    assert Fold(log, 2) == Step(Fold(log, 1), log[1], 2);
    FoldCoherent(log, 2);
    assert replaying.rep.disk.tables == t2 == Fold(log, 2).tables;
    ExportInstalls(replaying.rep, env);
  }

  /** A snapshot of a settled replica, restored into a replica behind it,
      reproduces definitions, graph revision, position and remembered operations
      exactly. Restored into one whose opened materialization is at or past it,
      it touches nothing on disk and only adds unknown operations. */
  lemma SnapshotRoundTrip(log: seq<LogEntry>, source: Node, target: Node, env: Envelope)
    requires source.Up? && UpOk(log, source) && Settled(source) && Exports(source.rep, env)
    requires target.Up? && UpOk(log, target)
    ensures
      var after := Replica.Restore(target.rep, env);
      if target.rep.mem.persistedIndex < Position(source.rep.disk) then
        && after.disk == source.rep.disk
        && after.mem == source.rep.mem.(persistedIndex := Position(source.rep.disk), failure := target.rep.mem.failure)
      else
        && after.disk == target.rep.disk
        && after.mem == target.rep.mem.(applied := after.mem.applied)
        && after.mem.applied.Keys == target.rep.mem.applied.Keys + source.rep.mem.applied.Keys
        && (forall id | id in target.rep.mem.applied :: after.mem.applied[id] == target.rep.mem.applied[id])
        && (forall id | id in source.rep.mem.applied && id !in target.rep.mem.applied ::
              after.mem.applied[id] == source.rep.mem.applied[id])
  {
    if target.rep.mem.persistedIndex < Position(source.rep.disk) {
      FoldCoherent(log, Position(source.rep.disk));
      ExportInstalls(source.rep, env);
      IndexIsPosition(log, Position(source.rep.disk));
    }
  }
}
