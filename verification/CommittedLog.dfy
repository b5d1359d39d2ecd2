/** The specification of the replicated state machine: a pure fold over the
    committed log, and what holds at every position of every log. */
module CommittedLog {
  import opened Outcomes
  import opened Graph
  import opened Definitions

  /** A raft entry: its own bookkeeping (never delivered to the product), a
      payload that does not decode, or a semantic operation. */
  datatype Body = Internal | Corrupt | Command(op: Operation)

  datatype LogEntry = LogEntry(term: nat, body: Body)

  /** The state a replica should have after a prefix of the log. index and term
      belong to the last entry that changed the tables. */
  datatype Machine = Machine(tables: Tables, graphRev: int, index: nat, term: nat, ops: map<Id, AppliedOp>,
                             failed: bool)

  const INITIAL := Machine(EMPTY_TABLES, 0, 0, 0, map[], false)

  function Recorded(op: Operation, index: nat, term: nat, revision: int): AppliedOp
    requires op.digest.Some?
  {
    AppliedOp(op.digest.value, ApplyResult(index, term, op.id, op.objectId, op.kind, op.version, revision), op.payload,
              op.revision)
  }

  ghost function Step(m: Machine, e: LogEntry, position: nat): Machine {
    if m.failed || e.body.Internal? then m
    else if e.body.Corrupt? || !Admissible(e.body.op) then m.(failed := true)
    else if e.body.op.id in m.ops then m
    else
      var op := e.body.op;
      match Realize(m.tables, m.graphRev, op)
      case Unrealizable => m.(failed := true)
      case Realized(t, g, r) =>
        Machine(t, g, position, e.term, m.ops[op.id := Recorded(op, position, e.term, r)], false)
  }

  /** The state after the first n entries; entry n has raft index n. */
  ghost function Fold(log: seq<LogEntry>, n: nat): Machine
    requires n <= |log|
  {
    if n == 0 then INITIAL else Step(Fold(log, n - 1), log[n - 1], n)
  }

  ghost function RevisedAt(log: seq<LogEntry>, n: nat): Revised
    requires n <= |log|
  {
    Revised(Fold(log, n).tables, Fold(log, n).graphRev)
  }

  /** Entry n changed the replicated state. */
  ghost predicate Effective(log: seq<LogEntry>, n: nat) {
    0 < n <= |log| && Fold(log, n).index == n
  }

  /** Entries appended later never change what a prefix folds to. */
  lemma {:induction false} FoldPrefix(log: seq<LogEntry>, more: seq<LogEntry>, n: nat)
    requires n <= |log|
    ensures Fold(log + more, n) == Fold(log, n)
  {
    if n > 0 { FoldPrefix(log, more, n - 1); }
  }

  lemma {:induction false} IndexBound(log: seq<LogEntry>, n: nat)
    requires n <= |log|
    ensures Fold(log, n).index <= n
  {
    if n > 0 { IndexBound(log, n - 1); }
  }

  /** An entry is effective exactly when the log is healthy before it and it is
      a well-formed, first-seen, realizable operation. */
  lemma EffectiveMeans(log: seq<LogEntry>, n: nat)
    requires 0 < n <= |log|
    ensures
      var m, e := Fold(log, n - 1), log[n - 1];
      Effective(log, n) <==>
        && !m.failed && e.body.Command? && Admissible(e.body.op) && e.body.op.id !in m.ops
        && Realize(m.tables, m.graphRev, e.body.op).Realized?
  {
    IndexBound(log, n - 1);
  }

  /** What can be said of two positions of one log, the second not earlier:
      applied positions and remembered operations only grow, a failure is
      final, and the replicated state is the same exactly when the applied
      index is, and strictly later otherwise. */
  lemma {:induction false} FoldOrder(log: seq<LogEntry>, m: nat, n: nat)
    requires m <= n <= |log|
    ensures
      var a, b := Fold(log, m), Fold(log, n);
      && a.index <= b.index
      && (a.failed ==> b == a)
      && a.ops.Keys <= b.ops.Keys && (forall id | id in a.ops :: b.ops[id] == a.ops[id])
      && (a.index == b.index ==> RevisedAt(log, m) == RevisedAt(log, n) && a.term == b.term && a.ops == b.ops)
      && (a.index < b.index ==> Later(RevisedAt(log, m), RevisedAt(log, n)) && m < b.index)
    decreases n
  {
    if m < n {
      FoldOrder(log, m, n - 1);
      IndexBound(log, n - 1);
      EffectiveMeans(log, n);
      if Effective(log, n) {
        var mid := Fold(log, n - 1);
        RealizeLater(mid.tables, mid.graphRev, log[n - 1].body.op);
        if Fold(log, m).index < mid.index {
          LaterTransitive(RevisedAt(log, m), RevisedAt(log, n - 1), RevisedAt(log, n));
        }
      }
    } else {
      IndexBound(log, m);
    }
  }

  /** No two positions with different applied indexes carry the same tables and
      graph revision: the history never returns to an earlier state. */
  lemma NoReturn(log: seq<LogEntry>, m: nat, n: nat)
    requires m <= |log| && n <= |log|
    requires RevisedAt(log, m) == RevisedAt(log, n)
    ensures Fold(log, m).index == Fold(log, n).index
  {
    if m <= n { FoldOrder(log, m, n); } else { FoldOrder(log, n, m); }
  }

  /** The fence: past the first entry that cannot be realized nothing changes,
      and everything before it is the fold of the healthy prefix. */
  lemma {:induction false} Fenced(log: seq<LogEntry>, n: nat) returns (boundary: nat)
    requires n <= |log| && Fold(log, n).failed
    ensures boundary < n && !Fold(log, boundary).failed
    ensures forall k | boundary < k <= |log| :: Fold(log, k) == Fold(log, boundary).(failed := true)
  {
    if Fold(log, n - 1).failed {
      boundary := Fenced(log, n - 1);
    } else {
      boundary := n - 1;
      forall k | n <= k <= |log| ensures Fold(log, k) == Fold(log, n) { FoldOrder(log, n, k); }
    }
  }

  /** Every remembered operation is the record of one effective entry. */
  lemma {:induction false} OpsAreEffective(log: seq<LogEntry>, n: nat, id: Id)
    requires n <= |log| && id in Fold(log, n).ops
    ensures
      var k := Fold(log, n).ops[id].result.index;
      && 0 < k <= n && Effective(log, k) && log[k - 1].body.Command? && log[k - 1].body.op.id == id
      && Admissible(log[k - 1].body.op)
      && Fold(log, n).ops[id] == Recorded(log[k - 1].body.op, k, log[k - 1].term, Fold(log, n).ops[id].result.revision)
  {
    EffectiveMeans(log, n);
    if id in Fold(log, n - 1).ops {
      OpsAreEffective(log, n - 1, id);
    }
  }

  /** At most one mutation per operation ID, however often the log repeats it. */
  lemma AtMostOneEffect(log: seq<LogEntry>, i: nat, j: nat)
    requires Effective(log, i) && Effective(log, j) && i != j
    ensures log[i - 1].body.Command? && log[j - 1].body.Command?
    ensures log[i - 1].body.op.id != log[j - 1].body.op.id
  {
    var a, b := if i < j then i else j, if i < j then j else i;
    EffectiveMeans(log, a);
    EffectiveMeans(log, b);
    FoldOrder(log, a, b - 1);
    assert log[a - 1].body.op.id in Fold(log, a).ops;
  }

  /** In every reachable state the graph is closed, self-loop free and acyclic,
      and every rule belongs to an existing post. */
  lemma {:induction false} FoldCoherent(log: seq<LogEntry>, n: nat)
    requires n <= |log|
    ensures Coherent(Fold(log, n).tables)
  {
    if n == 0 {
      EmptyCoherent();
    } else {
      FoldCoherent(log, n - 1);
      var m := Fold(log, n - 1);
      if Fold(log, n) != m && !Fold(log, n).failed {
        RealizeKeepsCoherent(m.tables, m.graphRev, log[n - 1].body.op);
      }
    }
  }

  /** Two positions with the same graph revision have the same edges, and the
      later one has every post and rule of the earlier one. */
  lemma SameGraphRevision(log: seq<LogEntry>, m: nat, n: nat)
    requires m <= n <= |log| && Fold(log, m).graphRev == Fold(log, n).graphRev
    ensures Fold(log, m).tables.edges == Fold(log, n).tables.edges
    ensures Fold(log, m).tables.posts.Keys <= Fold(log, n).tables.posts.Keys
    ensures Fold(log, m).tables.rules.Keys <= Fold(log, n).tables.rules.Keys
  {
    FoldOrder(log, m, n);
  }

  // ----- No lost updates

  ghost predicate EditedAt(log: seq<LogEntry>, n: nat, o: Object) {
    Effective(log, n) && log[n - 1].body.Command? && Edits(log[n - 1].body.op, o)
  }

  /** How many effective entries after `from`, up to n, edited o. */
  ghost function EditCount(log: seq<LogEntry>, from: nat, n: nat, o: Object): nat
    requires n <= |log|
  {
    if n <= from then 0 else EditCount(log, from, n - 1, o) + if EditedAt(log, n, o) then 1 else 0
  }

  /** o exists at every position from its creation at `from` up to n. */
  ghost predicate LivesSince(log: seq<LogEntry>, from: nat, n: nat, o: Object) {
    && Effective(log, from) && from <= n <= |log|
    && VersionOf(Fold(log, from - 1).tables, o).None?
    && forall k | from <= k <= n :: VersionOf(Fold(log, k).tables, o).Some?
  }

  /** How one entry moves the version of one object. */
  lemma VersionStep(log: seq<LogEntry>, n: nat, o: Object)
    requires 0 < n <= |log|
    ensures
      var before, after := VersionOf(Fold(log, n - 1).tables, o), VersionOf(Fold(log, n).tables, o);
      && (EditedAt(log, n, o) ==> before == Some(log[n - 1].body.op.revision) && after == Some(before.value + 1))
      && (!EditedAt(log, n, o) && before.Some? ==> after == before || after.None?)
      && (before.None? && after.Some? ==>
            after == Some(1) && Effective(log, n) && log[n - 1].body.Command? && Creates(log[n - 1].body.op, o))
  {
    EffectiveMeans(log, n);
    IndexBound(log, n - 1);
    var m := Fold(log, n - 1);
    if Effective(log, n) { RealizeVersion(m.tables, m.graphRev, log[n - 1].body.op, o); }
  }

  lemma {:induction false} VersionCountsEdits(log: seq<LogEntry>, from: nat, n: nat, o: Object)
    requires LivesSince(log, from, n, o)
    ensures VersionOf(Fold(log, n).tables, o) == Some(1 + EditCount(log, from, n, o))
  {
    assert VersionOf(Fold(log, n).tables, o).Some?;
    if n == from {
      VersionStep(log, n, o);
    } else {
      VersionCountsEdits(log, from, n - 1, o);
      VersionStep(log, n, o);
    }
  }

  /** While an object lives, its stored version is one more than the number of
      edits since its creation, and the i-th edit carried revision i. */
  lemma NoLostUpdates(log: seq<LogEntry>, from: nat, n: nat, o: Object)
    requires LivesSince(log, from, n, o)
    ensures VersionOf(Fold(log, n).tables, o) == Some(1 + EditCount(log, from, n, o))
    ensures forall k | from < k <= n && EditedAt(log, k, o) ::
              log[k - 1].body.op.revision == EditCount(log, from, k, o)
  {
    VersionCountsEdits(log, from, n, o);
    forall k | from < k <= n && EditedAt(log, k, o)
      ensures log[k - 1].body.op.revision == EditCount(log, from, k, o)
    {
      VersionCountsEdits(log, from, k - 1, o);
      VersionStep(log, k, o);
    }
  }

  /** A rule stays on the post it was created for as long as it lives. */
  lemma {:induction false} RuleKeepsPost(log: seq<LogEntry>, from: nat, n: nat, id: Id)
    requires LivesSince(log, from, n, Rule(id))
    ensures id in Fold(log, from).tables.rules && id in Fold(log, n).tables.rules
    ensures Fold(log, n).tables.rules[id].postId == Fold(log, from).tables.rules[id].postId
  {
    assert VersionOf(Fold(log, n).tables, Rule(id)).Some?;
    if n > from {
      RuleKeepsPost(log, from, n - 1, id);
      EffectiveMeans(log, n);
      assert VersionOf(Fold(log, n - 1).tables, Rule(id)).Some?;
    }
  }

  /** An object that exists was created by one effective entry and has lived
      since, so NoLostUpdates applies to it. */
  lemma {:induction false} ExistingHasBirth(log: seq<LogEntry>, n: nat, o: Object) returns (from: nat)
    requires n <= |log| && VersionOf(Fold(log, n).tables, o).Some?
    ensures LivesSince(log, from, n, o)
    ensures log[from - 1].body.Command? && Creates(log[from - 1].body.op, o)
  {
    VersionStep(log, n, o);
    if VersionOf(Fold(log, n - 1).tables, o).None? {
      from := n;
    } else {
      from := ExistingHasBirth(log, n - 1, o);
    }
  }
}
