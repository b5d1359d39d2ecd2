/** One replica on values: what is on disk, what is in memory, and the
    transitions of opening, applying a committed entry, exporting a snapshot and
    restoring one. The class in Fsm is proved against these. */
module Replica {
  import opened Outcomes
  import opened Graph
  import opened Definitions
  import opened CommittedLog

  /** The position row written in the same transaction as every mutation. */
  datatype Meta = Meta(index: nat, term: nat, graphRev: int)

  datatype Durable = Durable(tables: Tables, meta: Option<Meta>)

  /** failure holds the index of the first committed entry that could not be
      realized; it is sticky. persistedIndex is the position the disk had when
      this process opened it, or was last replaced by a snapshot. */
  datatype Memory = Memory(graphRev: int, applied: map<Id, AppliedOp>, appliedIndex: nat, appliedTerm: nat,
                           persistedIndex: nat, failure: Option<nat>)

  datatype State = State(disk: Durable, mem: Memory)

  /** A snapshot as written to the sink, before its checksum is added. */
  datatype Envelope = Envelope(graphRev: int, index: nat, term: nat, posts: seq<(Id, PostRow)>, deps: seq<Edge>,
                               rules: seq<(Id, RuleRow)>, ops: map<Id, AppliedOp>)

  /** What applying one entry answers. */
  datatype Reply = Silent | Fail(index: nat) | Conflict | Done(result: ApplyResult)

  const FRESH_DISK := Durable(EMPTY_TABLES, None)

  /** Opening a database: posts without a position row mean corruption. */
  function Open(d: Durable): Option<State> {
    match d.meta
    case Some(m) => Some(State(d, Memory(m.graphRev, map[], m.index, m.term, m.index, None)))
    case None =>
      if d.tables.posts == map[] then Some(State(d, Memory(0, map[], 0, 0, 0, None))) else None
  }

  function Poison(s: State, index: nat): State {
    if s.mem.failure.Some? then s else s.(mem := s.mem.(failure := Some(index)))
  }

  /** Replay of an entry the disk already represents: remember the operation,
      touch nothing else. The remembered result reports the operation's own
      precondition as its revision. */
  function Remember(s: State, op: Operation, index: nat, term: nat): State
    requires op.digest.Some?
  {
    s.(mem := s.mem.(applied := s.mem.applied[op.id := Recorded(op, index, term, op.revision)],
                     appliedIndex := index, appliedTerm := term))
  }

  /** Commit of a realized operation: tables and position in one transaction. */
  function Commit(s: State, op: Operation, index: nat, term: nat, z: Realization): State
    requires op.digest.Some? && z.Realized?
  {
    State(Durable(z.tables, Some(Meta(index, term, z.graphRev))),
          s.mem.(graphRev := z.graphRev, applied := s.mem.applied[op.id := Recorded(op, index, term, z.revision)],
                 appliedIndex := index, appliedTerm := term))
  }

  /** Applying the entry at `index`. storageFault says that the local database
      fails this entry's transaction before it commits. */
  ghost function Apply(s: State, e: LogEntry, index: nat, storageFault: bool): State {
    if s.mem.failure.Some? || e.body.Internal? then s
    else if e.body.Corrupt? || !Admissible(e.body.op) then Poison(s, index)
    else
      var op := e.body.op;
      if op.id in s.mem.applied then s
      else if index <= s.mem.persistedIndex then Remember(s, op, index, e.term)
      else
        var z := Realize(s.disk.tables, s.mem.graphRev, op);
        if storageFault || z.Unrealizable? then Poison(s, index) else Commit(s, op, index, e.term, z)
  }

  ghost function Answer(s: State, e: LogEntry, index: nat, storageFault: bool): Reply {
    if e.body.Internal? then Silent
    else if e.body.Corrupt? then Fail(index)
    else if s.mem.failure.Some? then Fail(s.mem.failure.value)
    else if !Admissible(e.body.op) then Fail(index)
    else
      var op := e.body.op;
      if op.id in s.mem.applied then
        if s.mem.applied[op.id].digest != op.digest.value then Conflict else Done(s.mem.applied[op.id].result)
      else
        var after := Apply(s, e, index, storageFault);
        if op.id in after.mem.applied then Done(after.mem.applied[op.id].result) else Fail(index)
  }

  // ----- Snapshots

  ghost predicate Distinct<T>(s: seq<T>) {
    forall i, j | 0 <= i < j < |s| :: s[i] != s[j]
  }

  ghost predicate DistinctKeys<T>(s: seq<(Id, T)>) {
    forall i, j | 0 <= i < j < |s| :: s[i].0 != s[j].0
  }

  function Rows<T>(s: seq<(Id, T)>): map<Id, T> {
    if s == [] then map[] else Rows(s[..|s| - 1])[s[|s| - 1].0 := s[|s| - 1].1]
  }

  function Members<T>(s: seq<T>): set<T> {
    set x | x in s
  }

  /** The rows list the table: every row once. */
  ghost predicate Lists<T(!new)>(s: seq<(Id, T)>, m: map<Id, T>) {
    DistinctKeys(s) && (forall x :: x in s <==> x.0 in m && m[x.0] == x.1)
  }

  /** What a snapshot of s contains. */
  ghost predicate Exports(s: State, env: Envelope) {
    && env.graphRev == s.mem.graphRev && env.index == s.mem.appliedIndex && env.term == s.mem.appliedTerm
    && env.ops == s.mem.applied
    && Lists(env.posts, s.disk.tables.posts) && Lists(env.rules, s.disk.tables.rules)
    && Distinct(env.deps) && Members(env.deps) == s.disk.tables.edges
  }

  /** The schema accepts every row of the envelope, inserted in order. */
  ghost predicate Installable(env: Envelope) {
    && DistinctKeys(env.posts) && Distinct(env.deps) && DistinctKeys(env.rules)
    && (forall d | d in env.deps :: d.0 in Rows(env.posts) && d.1 in Rows(env.posts) && d.0 != d.1)
    && (forall r | r in env.rules :: r.1.postId in Rows(env.posts) && r.1.operator in OPERATORS)
  }

  function TablesOf(env: Envelope): Tables {
    Tables(Rows(env.posts), Members(env.deps), Rows(env.rules))
  }

  /** Keys of `old` win; the others are added. */
  function Merge(known: map<Id, AppliedOp>, more: map<Id, AppliedOp>): map<Id, AppliedOp> {
    more + known
  }

  /** Restoring a verified snapshot. At or behind the materialization it only
      adds unknown operations; ahead of it, it replaces everything but the
      sticky failure. */
  ghost function Restore(s: State, env: Envelope): State {
    if env.index <= s.mem.persistedIndex then
      s.(mem := s.mem.(applied := Merge(s.mem.applied, env.ops)))
    else if !Installable(env) then s
    else State(Durable(TablesOf(env), Some(Meta(env.index, env.term, env.graphRev))),
               Memory(env.graphRev, env.ops, env.index, env.term, env.index, s.mem.failure))
  }

  lemma {:induction false} RowsContents<T>(s: seq<(Id, T)>)
    requires DistinctKeys(s)
    ensures Rows(s).Keys == set x | x in s :: x.0
    ensures forall x | x in s :: Rows(s)[x.0] == x.1
  {
    if s != [] {
      var front, last := s[..|s| - 1], s[|s| - 1];
      RowsContents(front);
      assert s == front + [last];
    }
  }

  /** Inserting one more row under a primary key. */
  lemma RowsPush<T>(s: seq<(Id, T)>, x: (Id, T))
    requires DistinctKeys(s)
    ensures Rows(s + [x]) == Rows(s)[x.0 := x.1]
    ensures DistinctKeys(s + [x]) <==> x.0 !in Rows(s)
  {
    RowsContents(s);
    assert (s + [x])[..|s|] == s;
    if x.0 in Rows(s) {
      var y :| y in s && y.0 == x.0;
      var i :| 0 <= i < |s| && s[i] == y;
      assert (s + [x])[i].0 == (s + [x])[|s|].0;
    } else {
      assert forall i | 0 <= i < |s| :: s[i] in s && (s + [x])[i] == s[i];
    }
  }

  /** Reading back an exported table gives the table. */
  lemma RowsOfListing<T(!new)>(s: seq<(Id, T)>, m: map<Id, T>)
    requires Lists(s, m)
    ensures Rows(s) == m
  {
    RowsContents(s);
    forall k | k in m ensures k in Rows(s) && Rows(s)[k] == m[k] {
      assert (k, m[k]) in s && (k, m[k]).0 == k;
    }
    forall k | k in Rows(s) ensures k in m {
      var x :| x in s && x.0 == k;
    }
  }

  /** An export of coherent tables installs cleanly and gives them back. */
  lemma ExportInstalls(s: State, env: Envelope)
    requires Exports(s, env) && Coherent(s.disk.tables)
    ensures Installable(env) && TablesOf(env) == s.disk.tables
  {
    RowsOfListing(env.posts, s.disk.tables.posts);
    RowsOfListing(env.rules, s.disk.tables.rules);
    assert forall d | d in env.deps :: d in Members(env.deps);
  }

  // ----- In other words

  /** Opening fails exactly when there are posts and no position; a process starts
      healthy at the position the disk records, and remembers nothing yet. */
  lemma OpenExactly(d: Durable)
    ensures Open(d).None? <==> d.meta.None? && d.tables.posts != map[]
    ensures Open(d).Some? ==>
              var s := Open(d).value;
              && s.disk == d && s.mem.applied == map[] && s.mem.failure.None?
              && s.mem.appliedIndex == s.mem.persistedIndex
              && (if d.meta.Some? then
                    && s.mem.appliedIndex == d.meta.value.index && s.mem.appliedTerm == d.meta.value.term
                    && s.mem.graphRev == d.meta.value.graphRev
                  else s.mem.appliedIndex == 0 && s.mem.appliedTerm == 0 && s.mem.graphRev == 0)
  {
  }

  /** What the answer to an entry tells. Nothing is answered to raft's own entries;
      a conflict is a known ID with another digest, and changes nothing; a result is
      the one remembered for that ID; a failure means that the process is poisoned. */
  lemma AnswerTells(s: State, e: LogEntry, index: nat, storageFault: bool)
    ensures
      var after := Apply(s, e, index, storageFault);
      match Answer(s, e, index, storageFault)
      case Silent => e.body.Internal? && after == s
      case Conflict =>
        && after == s && e.body.Command? && e.body.op.id in s.mem.applied
        && Some(s.mem.applied[e.body.op.id].digest) != e.body.op.digest
      case Done(result) =>
        && e.body.Command? && e.body.op.id in after.mem.applied && after.mem.failure.None?
        && result == after.mem.applied[e.body.op.id].result
        && (if e.body.op.id in s.mem.applied then
              after == s && Some(s.mem.applied[e.body.op.id].digest) == e.body.op.digest
            else
              && result.index == index && result.term == e.term && result.opId == e.body.op.id
              && result.objectId == e.body.op.objectId && result.kind == e.body.op.kind
              && after.mem.applied[e.body.op.id].digest == e.body.op.digest.value
              && after.mem.applied[e.body.op.id].payload == e.body.op.payload
              && after.mem.applied[e.body.op.id].revision == e.body.op.revision)
      case Fail(at) =>
        && after.mem.failure.Some? && after.disk == s.disk && after.mem == s.mem.(failure := after.mem.failure)
        && (s.mem.failure.Some? ==> after == s) && (s.mem.failure.None? ==> at == index)
  {
  }

  /** What a snapshot has to list to be installed: each key and edge once, edges
      between two different posts it lists, and rules of posts it lists. */
  ghost predicate Complete(env: Envelope) {
    && DistinctKeys(env.posts) && Distinct(env.deps) && DistinctKeys(env.rules)
    && (forall d | d in env.deps :: d.0 != d.1 && exists x, y :: x in env.posts && y in env.posts && d == (x.0, y.0))
    && (forall r | r in env.rules ::
          r.1.operator in {"gt", "gte", "lt", "lte"} && exists x :: x in env.posts && r.1.postId == x.0)
  }

  lemma InstallableExactly(env: Envelope)
    ensures Installable(env) <==> Complete(env)
  {
    if DistinctKeys(env.posts) {
      RowsContents(env.posts);
      forall k ensures k in Rows(env.posts) <==> exists x :: x in env.posts && x.0 == k {}
      forall d: Edge
        ensures d.0 in Rows(env.posts) && d.1 in Rows(env.posts) <==>
                exists x, y :: x in env.posts && y in env.posts && d == (x.0, y.0)
      {
        if d.0 in Rows(env.posts) && d.1 in Rows(env.posts) {
          var x :| x in env.posts && x.0 == d.0;
          var y :| y in env.posts && y.0 == d.1;
          assert d == (x.0, y.0);
        }
      }
    }
  }

  /** The installed tables hold exactly what is listed. */
  lemma InstalledContents(env: Envelope)
    requires Installable(env)
    ensures Lists(env.posts, TablesOf(env).posts) && Lists(env.rules, TablesOf(env).rules)
    ensures forall d :: d in TablesOf(env).edges <==> d in env.deps
  {
    RowsListed(env.posts);
    RowsListed(env.rules);
  }

  lemma RowsListed<T(!new)>(s: seq<(Id, T)>)
    requires DistinctKeys(s)
    ensures Lists(s, Rows(s))
  {
    RowsContents(s);
    forall x: (Id, T) | x.0 in Rows(s) && Rows(s)[x.0] == x.1 ensures x in s {
      var y :| y in s && y.0 == x.0;
      assert y == x;
    }
  }

  /** A snapshot ahead of the process replaces everything but the sticky failure if
      it is complete, and changes nothing otherwise. */
  lemma InstallsExactly(s: State, env: Envelope)
    requires env.index > s.mem.persistedIndex
    ensures
      var after := Restore(s, env);
      if Complete(env) then
        && Exports(after, env) && after.disk.meta == Some(Meta(env.index, env.term, env.graphRev))
        && after.mem.persistedIndex == env.index && after.mem.failure == s.mem.failure
      else after == s
  {
    hide Complete, Installable, TablesOf;
    InstallableExactly(env);
    if Installable(env) {
      InstalledContents(env);
      InstallableDistinct(env);
      assert Members(env.deps) == TablesOf(env).edges;
    }
  }

  lemma InstallableDistinct(env: Envelope)
    requires Installable(env)
    ensures Distinct(env.deps)
  {
  }
}
