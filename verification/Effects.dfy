/** What each realized operation does to every row of the replicated tables, field
    by field, and what it leaves exactly as it was. */
module Effects {
  import opened Outcomes
  import opened Graph
  import opened Definitions
  import opened CommittedLog

  /** Rows of one table other than the one named are the same rows. */
  predicate OnlyRow<T(!new, ==)>(a: map<Id, T>, b: map<Id, T>, id: Id) {
    && b.Keys == a.Keys + {id}
    && forall x | x in a && x != id :: b[x] == a[x]
  }

  /** A creation adds the post with every field of its payload, at version 1. */
  lemma PostCreated(t: Tables, rev: int, op: Operation)
    requires op.kind.PostCreate? && Realize(t, rev, op).Realized?
    ensures op.payload.post.Some? && op.objectId !in t.posts
    ensures
      var z, p := Realize(t, rev, op), op.payload.post.value;
      && OnlyRow(t.posts, z.tables.posts, op.objectId)
      && z.tables.edges == t.edges && z.tables.rules == t.rules && z.graphRev == rev && z.revision == 1
      && var row := z.tables.posts[op.objectId];
      && row.name == p.name && row.kind == p.kind && row.address == p.address && row.owner == p.owner
      && row.labels == p.labels && row.maintenance == p.maintenance && row.archived == p.archived && row.version == 1
      && row.createdAt == p.createdAt && row.updatedAt == p.updatedAt
  {
  }

  /** An update rewrites every field but the kind and the time of creation, and
      raises the version by one. */
  lemma PostUpdated(t: Tables, rev: int, op: Operation)
    requires op.kind.PostUpdate? && Realize(t, rev, op).Realized?
    ensures op.payload.post.Some? && op.objectId in t.posts && t.posts[op.objectId].version == op.revision
    ensures
      var z, p := Realize(t, rev, op), op.payload.post.value;
      && OnlyRow(t.posts, z.tables.posts, op.objectId)
      && z.tables.edges == t.edges && z.tables.rules == t.rules && z.graphRev == rev && z.revision == op.revision + 1
      && var row, was := z.tables.posts[op.objectId], t.posts[op.objectId];
      && row.name == p.name && row.address == p.address && row.owner == p.owner && row.labels == p.labels
      && row.maintenance == p.maintenance && row.archived == p.archived && row.updatedAt == p.updatedAt
      && row.kind == was.kind && row.createdAt == was.createdAt && row.version == op.revision + 1
  {
  }

  /** A deletion takes the post, the edges that name it at either end and the rules
      on it. Every other post, edge and rule is the same one. */
  lemma PostDeleted(t: Tables, rev: int, op: Operation)
    requires op.kind.PostDelete? && Realize(t, rev, op).Realized?
    ensures op.objectId in t.posts && op.domainRevision == rev
    ensures
      var z := Realize(t, rev, op);
      && (forall x :: x in z.tables.posts <==> x in t.posts && x != op.objectId)
      && (forall x | x in z.tables.posts :: z.tables.posts[x] == t.posts[x])
      && (forall s, d :: (s, d) in z.tables.edges <==> (s, d) in t.edges && s != op.objectId && d != op.objectId)
      && (forall r :: r in z.tables.rules <==> r in t.rules && t.rules[r].postId != op.objectId)
      && (forall r | r in z.tables.rules :: z.tables.rules[r] == t.rules[r])
      && z.graphRev == rev + 1 && z.revision == 0
  {
  }

  /** A dependency adds one edge. */
  lemma EdgeAdded(t: Tables, rev: int, op: Operation)
    requires op.kind.DependencyAdd? && Realize(t, rev, op).Realized?
    ensures op.payload.dependsOn.Some? && op.objectId != "" && op.domainRevision == rev
    ensures
      var z, d := Realize(t, rev, op), op.payload.dependsOn.value;
      && op.objectId in t.posts && d in t.posts && op.objectId != d && (op.objectId, d) !in t.edges
      && !Reaches(t.edges, d, op.objectId)
      && (forall a, b :: (a, b) in z.tables.edges <==> (a, b) in t.edges || (a == op.objectId && b == d))
      && z.tables.posts == t.posts && z.tables.rules == t.rules && z.graphRev == rev + 1 && z.revision == 0
  {
  }

  /** A rule is created with every field of its payload, at version 1. */
  lemma RuleCreated(t: Tables, rev: int, op: Operation)
    requires op.kind.RuleCreate? && Realize(t, rev, op).Realized?
    ensures op.payload.rule.Some? && op.objectId !in t.rules
    ensures
      var z, p := Realize(t, rev, op), op.payload.rule.value;
      && p.postId in t.posts && (p.operator == "gt" || p.operator == "gte" || p.operator == "lt" || p.operator == "lte")
      && OnlyRow(t.rules, z.tables.rules, op.objectId)
      && z.tables.posts == t.posts && z.tables.edges == t.edges && z.graphRev == rev && z.revision == 1
      && var row := z.tables.rules[op.objectId];
      && row.postId == p.postId && row.signal == p.signal && row.operator == p.operator && row.threshold == p.threshold
      && row.durationSeconds == p.durationSeconds && row.recovery == p.recovery
      && row.missingPolicy == p.missingPolicy && row.severity == p.severity && row.enabled == p.enabled
      && row.version == 1
  {
  }

  /** A toggle changes the flag of one rule and raises its version by one. */
  lemma RuleToggled(t: Tables, rev: int, op: Operation)
    requires op.kind.RuleSetEnabled? && Realize(t, rev, op).Realized?
    ensures op.payload.rule.Some? && op.objectId in t.rules && t.rules[op.objectId].version == op.revision
    ensures
      var z := Realize(t, rev, op);
      && OnlyRow(t.rules, z.tables.rules, op.objectId)
      && z.tables.posts == t.posts && z.tables.edges == t.edges && z.graphRev == rev && z.revision == op.revision + 1
      && var row, was := z.tables.rules[op.objectId], t.rules[op.objectId];
      && row.enabled == op.payload.rule.value.enabled && row.version == op.revision + 1
      && row.postId == was.postId && row.signal == was.signal && row.operator == was.operator
      && row.threshold == was.threshold && row.durationSeconds == was.durationSeconds && row.recovery == was.recovery
      && row.missingPolicy == was.missingPolicy && row.severity == was.severity
  {
  }

  /** When a well-formed operation is realized: the six conditions, of which each is
      enough. */
  lemma RealizedExactly(t: Tables, rev: int, op: Operation)
    ensures Realize(t, rev, op).Realized? <==>
            || (op.kind.PostCreate? && op.payload.post.Some? && op.objectId !in t.posts)
            || (op.kind.PostUpdate? && op.payload.post.Some? && VersionOf(t, Post(op.objectId)) == Some(op.revision))
            || (op.kind.PostDelete? && op.domainRevision == rev && op.objectId in t.posts)
            || (op.kind.DependencyAdd? && op.domainRevision == rev && op.objectId != "" && op.payload.dependsOn.Some?
                && op.objectId != op.payload.dependsOn.value && op.objectId in t.posts
                && op.payload.dependsOn.value in t.posts && (op.objectId, op.payload.dependsOn.value) !in t.edges
                && !Reaches(t.edges, op.payload.dependsOn.value, op.objectId))
            || (op.kind.RuleCreate? && op.payload.rule.Some? && op.objectId !in t.rules
                && op.payload.rule.value.postId in t.posts
                && op.payload.rule.value.operator in {"gt", "gte", "lt", "lte"})
            || (op.kind.RuleSetEnabled? && op.payload.rule.Some?
                && VersionOf(t, Rule(op.objectId)) == Some(op.revision))
  {
  }

  // ----- Over the log

  /** What an entry leaves alone, at every position of every log. */
  ghost predicate Untouched(a: Tables, b: Tables, op: Operation) {
    && (forall x | x in a.posts && x != op.objectId :: x in b.posts && b.posts[x] == a.posts[x])
    && (forall s, d | (s, d) in a.edges && s != op.objectId && d != op.objectId :: (s, d) in b.edges)
    && (forall r | r in a.rules && r != op.objectId && a.rules[r].postId != op.objectId ::
          r in b.rules && b.rules[r] == a.rules[r])
    && (forall s, d | (s, d) in b.edges :: (s, d) in a.edges || s == op.objectId)
  }

  /** An entry touches only what its operation names: other posts, edges between
      other posts, and other rules of other posts stay as they are. An entry without
      an effect touches nothing. */
  lemma EntryTouchesOnlyNamed(log: seq<LogEntry>, n: nat)
    requires 0 < n <= |log|
    ensures !Effective(log, n) ==> Fold(log, n).tables == Fold(log, n - 1).tables
    ensures Effective(log, n) ==>
              log[n - 1].body.Command? && Untouched(Fold(log, n - 1).tables, Fold(log, n).tables, log[n - 1].body.op)
  {
    EffectiveMeans(log, n);
    IndexBound(log, n - 1);
    var m := Fold(log, n - 1);
    if Effective(log, n) { OperationTouchesOnlyNamed(m.tables, m.graphRev, log[n - 1].body.op); }
  }

  lemma OperationTouchesOnlyNamed(t: Tables, rev: int, op: Operation)
    requires Realize(t, rev, op).Realized?
    ensures Untouched(t, Realize(t, rev, op).tables, op)
  {
    match op.kind {
      case PostCreate => PostCreated(t, rev, op);
      case PostUpdate => PostUpdated(t, rev, op);
      case PostDelete => PostDeleted(t, rev, op);
      case DependencyAdd => EdgeAdded(t, rev, op);
      case RuleCreate => RuleCreated(t, rev, op);
      case RuleSetEnabled => RuleToggled(t, rev, op);
    }
  }

  // ----- What the log says of an edge

  ghost predicate EdgeAddedAt(log: seq<LogEntry>, k: nat, s: Id, d: Id) {
    && Effective(log, k) && log[k - 1].body.Command? && log[k - 1].body.op.kind.DependencyAdd?
    && log[k - 1].body.op.objectId == s && log[k - 1].body.op.payload.dependsOn == Some(d)
  }

  ghost predicate PostDeletedAt(log: seq<LogEntry>, k: nat, x: Id) {
    && Effective(log, k) && log[k - 1].body.Command? && log[k - 1].body.op.kind.PostDelete?
    && log[k - 1].body.op.objectId == x
  }

  /** The edge was added at k, and neither end has been deleted up to n. */
  ghost predicate EdgeSince(log: seq<LogEntry>, k: nat, n: nat, s: Id, d: Id) {
    && 0 < k <= n && EdgeAddedAt(log, k, s, d)
    && forall m | k < m <= n :: !PostDeletedAt(log, m, s) && !PostDeletedAt(log, m, d)
  }

  /** How one entry moves one edge. */
  lemma EdgeMoves(log: seq<LogEntry>, n: nat, s: Id, d: Id)
    requires 0 < n <= |log|
    ensures (s, d) in Fold(log, n).tables.edges <==>
            || EdgeAddedAt(log, n, s, d)
            || ((s, d) in Fold(log, n - 1).tables.edges && !PostDeletedAt(log, n, s) && !PostDeletedAt(log, n, d))
  {
    hide Realize;
    EffectiveMeans(log, n);
    IndexBound(log, n - 1);
    var m := Fold(log, n - 1);
    if Effective(log, n) {
      var op := log[n - 1].body.op;
      match op.kind {
        case PostCreate => PostCreated(m.tables, m.graphRev, op);
        case PostUpdate => PostUpdated(m.tables, m.graphRev, op);
        case PostDelete => PostDeleted(m.tables, m.graphRev, op);
        case DependencyAdd => EdgeAdded(m.tables, m.graphRev, op);
        case RuleCreate => RuleCreated(m.tables, m.graphRev, op);
        case RuleSetEnabled => RuleToggled(m.tables, m.graphRev, op);
        case Unknown(_) => RealizedExactly(m.tables, m.graphRev, op);
      }
    }
  }

  /** An edge is in the graph at a position of the log if and only if some effective
      entry added it and none has deleted either end since. */
  lemma {:induction false} EdgeExactly(log: seq<LogEntry>, n: nat, s: Id, d: Id)
    requires n <= |log|
    ensures (s, d) in Fold(log, n).tables.edges <==> exists k :: EdgeSince(log, k, n, s, d)
  {
    hide Fold;
    if n == 0 {
      NothingAtFirst(log);
    } else {
      EdgeExactly(log, n - 1, s, d);
      EdgeMoves(log, n, s, d);
      if k: nat :| EdgeSince(log, k, n, s, d) {
        if k < n { assert EdgeSince(log, k, n - 1, s, d); }
      }
      if EdgeAddedAt(log, n, s, d) {
        assert EdgeSince(log, n, n, s, d);
      } else if (s, d) in Fold(log, n).tables.edges {
        var k: nat :| EdgeSince(log, k, n - 1, s, d);
        assert EdgeSince(log, k, n, s, d);
      }
    }
  }

  lemma NothingAtFirst(log: seq<LogEntry>)
    ensures Fold(log, 0).tables.edges == {} && Fold(log, 0).tables.posts == map[] && Fold(log, 0).tables.rules == map[]
  {
  }
}
