/** A cluster of replicas over one committed log: delivery, local storage
    faults, crashes before and after a commit, restarts with replay, snapshots
    and their installation. Every reachable replica refines the fold. */
module Recovery {
  import opened Outcomes
  import opened Graph
  import opened Definitions
  import opened CommittedLog
  import opened Replica

  /** A replica is a database file, or a process over one. delivered counts the
      entries raft has handed to this process; good is the same count frozen
      when the process first refuses one. */
  datatype Node = Down(disk: Durable) | Up(rep: State, good: nat, delivered: nat)

  /** A snapshot as raft keeps it: the log position it stands for, and its body. */
  datatype Stored = Stored(position: nat, env: Envelope)

  datatype Cluster = Cluster(nodes: seq<Node>, snaps: set<Stored>)

  function Disk(n: Node): Durable {
    match n case Down(d) => d case Up(rep, _, _) => rep.disk
  }

  /** The applied index the disk represents. */
  function Position(d: Durable): nat {
    if d.meta.Some? then d.meta.value.index else 0
  }

  /** The disk a machine state should have. */
  function DiskOf(m: Machine): Durable {
    Durable(m.tables, if m.index == 0 then None else Some(Meta(m.index, m.term, m.graphRev)))
  }

  /** A remembered operation up to the revision it reports: replay rebuilds that
      one field from the operation instead of the original result. */
  function Erased(a: AppliedOp): AppliedOp {
    a.(result := a.result.(revision := 0))
  }

  ghost predicate OpsMatch(a: map<Id, AppliedOp>, b: map<Id, AppliedOp>) {
    a.Keys == b.Keys && forall id | id in a :: Erased(a[id]) == Erased(b[id])
  }

  function TermAt(log: seq<LogEntry>, index: nat): nat {
    if 0 < index <= |log| then log[index - 1].term else 0
  }

  // ----- Steps

  datatype Event =
    | Deliver(node: nat, storageFault: bool)
    | CrashBeforeCommit(node: nat)
    | CrashAfterCommit(node: nat)
    | Restart(node: nat)
    | TakeSnapshot(node: nat, env: Envelope)
    | InstallSnapshot(node: nat, snap: Stored)

  ghost function Delivered(log: seq<LogEntry>, n: Node, storageFault: bool): Node
    requires n.Up? && n.delivered < |log|
  {
    var rep := Apply(n.rep, log[n.delivered], n.delivered + 1, storageFault);
    Up(rep, if rep.mem.failure.Some? then n.good else n.delivered + 1, n.delivered + 1)
  }

  /** The process is healthy, has been handed everything its disk represents,
      and reports its disk's position as its own. */
  predicate Settled(n: Node) {
    && n.Up? && n.rep.mem.failure.None?
    && Position(n.rep.disk) <= n.delivered && n.rep.mem.appliedIndex == Position(n.rep.disk)
  }

  ghost predicate NodeNext(log: seq<LogEntry>, a: Node, ev: Event, b: Node) {
    match ev
    case Deliver(_, fault) => a.Up? && a.delivered < |log| && b == Delivered(log, a, fault)
    case CrashBeforeCommit(_) => a.Up? && b == Down(a.rep.disk)
    case CrashAfterCommit(_) =>
      a.Up? && a.delivered < |log| && b == Down(Delivered(log, a, false).rep.disk)
    case Restart(_) => a.Down? && Open(a.disk).Some? && b == Up(Open(a.disk).value, 0, 0)
    case TakeSnapshot(_, env) => Settled(a) && Exports(a.rep, env) && b == a
    case InstallSnapshot(_, snap) =>
      && a.Up? && a.delivered <= snap.position
      && b == Up(Replica.Restore(a.rep, snap.env), snap.position, snap.position)
  }

  ghost predicate Next(log: seq<LogEntry>, c: Cluster, ev: Event, c': Cluster) {
    && ev.node < |c.nodes| == |c'.nodes|
    && NodeNext(log, c.nodes[ev.node], ev, c'.nodes[ev.node])
    && (forall i | 0 <= i < |c.nodes| && i != ev.node :: c'.nodes[i] == c.nodes[i])
    && (ev.InstallSnapshot? ==> ev.snap in c.snaps)
    && c'.snaps == if ev.TakeSnapshot? then c.snaps + {Stored(c.nodes[ev.node].delivered, ev.env)} else c.snaps
  }

  ghost predicate Initial(c: Cluster) {
    c.snaps == {} && forall n | n in c.nodes :: n == Down(FRESH_DISK)
  }

  /** A run visits run[0], run[1], ... by the given events. */
  ghost predicate Run(log: seq<LogEntry>, run: seq<Cluster>, events: seq<Event>) {
    && |run| == |events| + 1 && Initial(run[0])
    && forall i | 0 <= i < |events| :: Next(log, run[i], events[i], run[i + 1])
  }

  // ----- The invariant

  ghost predicate DiskOk(log: seq<LogEntry>, d: Durable) {
    && Position(d) <= |log| && !Fold(log, Position(d)).failed
    && d == DiskOf(Fold(log, Position(d)))
  }

  ghost predicate UpOk(log: seq<LogEntry>, n: Node)
    requires n.Up?
  {
    var p, mem := Position(n.rep.disk), n.rep.mem;
    && DiskOk(log, n.rep.disk)
    && n.good <= n.delivered <= |log| && mem.persistedIndex <= p
    && mem.graphRev == Fold(log, p).graphRev
    && !Fold(log, n.good).failed && OpsMatch(mem.applied, Fold(log, n.good).ops)
    && (p <= n.good ==> Fold(log, n.good).index == p)
    && (n.good < p ==> mem.persistedIndex == p && mem.failure.None?)
    && (mem.failure.None? ==> n.good == n.delivered)
    && mem.appliedTerm == TermAt(log, mem.appliedIndex)
  }

  ghost predicate NodeOk(log: seq<LogEntry>, n: Node) {
    match n case Down(d) => DiskOk(log, d) case Up(_, _, _) => UpOk(log, n)
  }

  /** The body is exactly the fold at the position it stands for. */
  ghost predicate Exact(log: seq<LogEntry>, position: nat, env: Envelope) {
    && position <= |log|
    && var m := Fold(log, position);
    && !m.failed
    && env.graphRev == m.graphRev && env.index == m.index && env.term == m.term
    && Lists(env.posts, m.tables.posts) && Lists(env.rules, m.tables.rules)
    && Distinct(env.deps) && Members(env.deps) == m.tables.edges
    && OpsMatch(env.ops, m.ops)
  }

  ghost predicate ClusterOk(log: seq<LogEntry>, c: Cluster) {
    (forall n | n in c.nodes :: NodeOk(log, n)) && (forall s | s in c.snaps :: Exact(log, s.position, s.env))
  }

  /** A disk that matches the fold at its own position matches it at every
      position with the same applied index. */
  lemma SameIndexSameDisk(log: seq<LogEntry>, p: nat, q: nat)
    requires p <= |log| && q <= |log| && Fold(log, p).index == Fold(log, q).index
    ensures DiskOf(Fold(log, p)) == DiskOf(Fold(log, q))
    ensures Fold(log, p).graphRev == Fold(log, q).graphRev && Fold(log, p).ops == Fold(log, q).ops
  {
    if p <= q { FoldOrder(log, p, q); } else { FoldOrder(log, q, p); }
  }

  /** The applied index is itself a position, healthy, with the same state. */
  lemma {:induction false} IndexIsPosition(log: seq<LogEntry>, n: nat)
    requires n <= |log|
    ensures
      var k := Fold(log, n).index;
      && k <= n && !Fold(log, k).failed && Fold(log, k).index == k
      && Fold(log, n).term == TermAt(log, k)
  {
    IndexBound(log, n);
    if n > 0 {
      EffectiveMeans(log, n);
      if !Effective(log, n) { IndexIsPosition(log, n - 1); }
    }
  }

  // ----- Each step keeps the invariant

  lemma FreshOk(log: seq<LogEntry>)
    ensures DiskOk(log, FRESH_DISK)
  {
  }

  lemma RestartOk(log: seq<LogEntry>, d: Durable)
    requires DiskOk(log, d)
    ensures Open(d).Some? && UpOk(log, Up(Open(d).value, 0, 0))
  {
    IndexIsPosition(log, Position(d));
    SameIndexSameDisk(log, Position(d), if d.meta.None? then 0 else Position(d));
  }

  /** Replay of an entry that the specification does not fail on: the disk is
      untouched and the remembered operations follow the specification. */
  lemma ReplaySimulates(s: State, m: Machine, e: LogEntry, index: nat, storageFault: bool)
    requires s.mem.failure.None? && !m.failed && OpsMatch(s.mem.applied, m.ops)
    requires index <= s.mem.persistedIndex && !Step(m, e, index).failed
    ensures
      var s', m' := Apply(s, e, index, storageFault), Step(m, e, index);
      && OpsMatch(s'.mem.applied, m'.ops)
      && s' == s.(mem := s.mem.(applied := s'.mem.applied, appliedIndex := s'.mem.appliedIndex,
                                appliedTerm := s'.mem.appliedTerm))
      && (|| (s'.mem.appliedIndex == index && s'.mem.appliedTerm == e.term)
          || (s'.mem.appliedIndex == s.mem.appliedIndex && s'.mem.appliedTerm == s.mem.appliedTerm))
  {
  }

  /** Applying an entry beyond the disk: a process whose disk and memory agree
      with the specification either follows its step, or poisons itself and
      leaves everything else alone. */
  lemma ApplySimulates(s: State, m: Machine, e: LogEntry, index: nat, storageFault: bool)
    requires s.mem.failure.None? && !m.failed && OpsMatch(s.mem.applied, m.ops)
    requires s.mem.persistedIndex < index && s.disk.tables == m.tables && s.mem.graphRev == m.graphRev
    requires m.index < index
    ensures
      var s', m' := Apply(s, e, index, storageFault), Step(m, e, index);
      if m'.failed || (storageFault && m'.index == index) then s' == Poison(s, index)
      else if m'.index == index then
        && OpsMatch(s'.mem.applied, m'.ops) && m'.term == e.term
        && s' == State(DiskOf(m'), Memory(m'.graphRev, s'.mem.applied, index, e.term, s.mem.persistedIndex, None))
      else s' == s && m' == m
  {
  }

  lemma FoldStep(log: seq<LogEntry>, c: nat)
    requires c < |log|
    ensures Fold(log, c + 1) == Step(Fold(log, c), log[c], c + 1)
  {
  }

  /** Replaying an entry the disk already represents. */
  lemma ReplayOk(log: seq<LogEntry>, n: Node, storageFault: bool)
    requires n.Up? && UpOk(log, n) && n.delivered < Position(n.rep.disk) && n.rep.mem.failure.None?
    ensures UpOk(log, Delivered(log, n, storageFault))
    ensures Delivered(log, n, storageFault).rep.mem.failure.None?
    ensures Delivered(log, n, storageFault).rep.disk == n.rep.disk
  {
    hide Step, Apply, Fold, OpsMatch;
    var p, c := Position(n.rep.disk), n.delivered;
    FoldStep(log, c);
    FoldOrder(log, c + 1, p);
    IndexIsPosition(log, p);
    ReplaySimulates(n.rep, Fold(log, c), log[c], c + 1, storageFault);
  }

  /** A healthy process that has caught up with its disk. */
  ghost predicate CaughtUp(log: seq<LogEntry>, n: Node) {
    && n.Up? && UpOk(log, n) && n.rep.mem.failure.None?
    && Position(n.rep.disk) <= n.delivered < |log|
  }

  lemma CommittedOk(log: seq<LogEntry>, n: Node, applied: map<Id, AppliedOp>)
    requires CaughtUp(log, n) && Effective(log, n.delivered + 1)
    requires Fold(log, n.delivered + 1).term == log[n.delivered].term && !Fold(log, n.delivered + 1).failed
    requires OpsMatch(applied, Fold(log, n.delivered + 1).ops)
    ensures
      var k := n.delivered + 1;
      UpOk(log, Up(State(DiskOf(Fold(log, k)),
                         Memory(Fold(log, k).graphRev, applied, k, log[k - 1].term, n.rep.mem.persistedIndex, None)),
                   k, k))
  {
  }

  lemma PoisonedOk(log: seq<LogEntry>, n: Node)
    requires CaughtUp(log, n)
    ensures UpOk(log, Up(Poison(n.rep, n.delivered + 1), n.good, n.delivered + 1))
  {
  }

  lemma UnchangedOk(log: seq<LogEntry>, n: Node)
    requires CaughtUp(log, n) && Fold(log, n.delivered + 1) == Fold(log, n.delivered)
    ensures UpOk(log, Up(n.rep, n.delivered + 1, n.delivered + 1))
  {
  }

  /** Such a process agrees with the specification on everything it applies with. */
  lemma CaughtUpMatches(log: seq<LogEntry>, n: Node)
    requires CaughtUp(log, n)
    ensures
      var m := Fold(log, n.delivered);
      && !m.failed && OpsMatch(n.rep.mem.applied, m.ops) && m.index <= n.delivered
      && n.rep.mem.persistedIndex <= n.delivered && n.rep.disk.tables == m.tables && n.rep.mem.graphRev == m.graphRev
  {
    hide OpsMatch;
    SameIndexSameDisk(log, Position(n.rep.disk), n.delivered);
    IndexIsPosition(log, Position(n.rep.disk));
    IndexBound(log, n.delivered);
  }

  /** Delivering an entry beyond the disk to a healthy process. */
  lemma FreshEntryOk(log: seq<LogEntry>, n: Node, storageFault: bool)
    requires CaughtUp(log, n)
    ensures UpOk(log, Delivered(log, n, storageFault))
  {
    hide Step, Apply, Fold, OpsMatch, UpOk, Position, DiskOf;
    var c := n.delivered;
    CaughtUpMatches(log, n);
    FoldStep(log, c);
    var m, m' := Fold(log, c), Fold(log, c + 1);
    ApplySimulates(n.rep, m, log[c], c + 1, storageFault);
    if m'.failed || (storageFault && m'.index == c + 1) {
      PoisonedOk(log, n);
    } else if m'.index == c + 1 {
      CommittedOk(log, n, Apply(n.rep, log[c], c + 1, storageFault).mem.applied);
    } else {
      UnchangedOk(log, n);
    }
  }

  lemma DeliverOk(log: seq<LogEntry>, n: Node, storageFault: bool)
    requires n.Up? && UpOk(log, n) && n.delivered < |log|
    ensures UpOk(log, Delivered(log, n, storageFault))
  {
    if n.rep.mem.failure.None? {
      if n.delivered < Position(n.rep.disk) {
        ReplayOk(log, n, storageFault);
      } else {
        FreshEntryOk(log, n, storageFault);
      }
    }
  }

  /** An exact snapshot installs. */
  lemma ExactInstalls(log: seq<LogEntry>, position: nat, env: Envelope)
    requires Exact(log, position, env)
    ensures Installable(env) && TablesOf(env) == Fold(log, position).tables
  {
    var m := Fold(log, position);
    FoldCoherent(log, position);
    var source := State(DiskOf(m), Memory(m.graphRev, env.ops, m.index, m.term, 0, None));
    ExportInstalls(source, env);
  }

  lemma InstallOk(log: seq<LogEntry>, n: Node, snap: Stored)
    requires n.Up? && UpOk(log, n) && n.delivered <= snap.position && Exact(log, snap.position, snap.env)
    ensures UpOk(log, Up(Replica.Restore(n.rep, snap.env), snap.position, snap.position))
  {
    var p, l, env := Position(n.rep.disk), snap.position, snap.env;
    IndexIsPosition(log, l);
    IndexIsPosition(log, p);
    FoldOrder(log, n.good, l);
    if env.index <= n.rep.mem.persistedIndex {
      if p <= l { FoldOrder(log, p, l); }
    } else {
      ExactInstalls(log, l, env);
      SameIndexSameDisk(log, env.index, l);
    }
  }

  lemma SnapshotOk(log: seq<LogEntry>, n: Node, env: Envelope)
    requires NodeOk(log, n) && Settled(n) && Exports(n.rep, env)
    ensures Exact(log, n.delivered, env)
  {
    IndexIsPosition(log, n.delivered);
    SameIndexSameDisk(log, Position(n.rep.disk), n.delivered);
  }

  lemma NodeNextOk(log: seq<LogEntry>, a: Node, ev: Event, b: Node)
    requires NodeOk(log, a) && NodeNext(log, a, ev, b)
    requires ev.InstallSnapshot? ==> Exact(log, ev.snap.position, ev.snap.env)
    ensures NodeOk(log, b)
  {
    match ev {
      case Deliver(_, fault) => DeliverOk(log, a, fault);
      case CrashAfterCommit(_) => DeliverOk(log, a, false);
      case Restart(_) => RestartOk(log, a.disk);
      case InstallSnapshot(_, snap) => InstallOk(log, a, snap);
      case _ =>
    }
  }

  lemma NextOk(log: seq<LogEntry>, c: Cluster, ev: Event, c': Cluster)
    requires ClusterOk(log, c) && Next(log, c, ev, c')
    ensures ClusterOk(log, c')
  {
    NodeNextOk(log, c.nodes[ev.node], ev, c'.nodes[ev.node]);
    if ev.TakeSnapshot? { SnapshotOk(log, c.nodes[ev.node], ev.env); }
  }

  lemma {:induction false} ReachableOk(log: seq<LogEntry>, run: seq<Cluster>, events: seq<Event>, k: nat)
    requires Run(log, run, events) && k < |run|
    ensures ClusterOk(log, run[k])
  {
    if k == 0 {
      FreshOk(log);
    } else {
      ReachableOk(log, run, events, k - 1);
      assert Next(log, run[k - 1], events[k - 1], run[k - 1 + 1]);
      NextOk(log, run[k - 1], events[k - 1], run[k]);
    }
  }
}
