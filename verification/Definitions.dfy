/** Replicated definitions (posts, dependency edges, rules), the six semantic
    operations on them, and what it means for a committed operation to be
    realizable. */
module Definitions {
  import opened Outcomes
  import opened Graph

  /** The highest operation version this build understands. Its value belongs to
      the consensus library, so nothing here depends on it. */
  const SUPPORTED_VERSION: int

  const OPERATORS: set<string> := {"gt", "gte", "lt", "lte"}

  datatype PostRow = PostRow(name: string, kind: string, address: string, owner: string, labels: string,
                             maintenance: bool, archived: bool, version: int, createdAt: string, updatedAt: string)

  datatype RuleRow = RuleRow(postId: Id, signal: string, operator: string, threshold: real, durationSeconds: int,
                             recovery: Option<real>, missingPolicy: string, severity: string, enabled: bool,
                             version: int)

  datatype Tables = Tables(posts: map<Id, PostRow>, edges: set<Edge>, rules: map<Id, RuleRow>)

  const EMPTY_TABLES := Tables(map[], {}, map[])

  datatype PostPayload = PostPayload(name: string, kind: string, address: string, owner: string, labels: string,
                                     maintenance: bool, archived: bool, createdAt: string, updatedAt: string)

  datatype RulePayload = RulePayload(postId: Id, signal: string, operator: string, threshold: real,
                                     durationSeconds: int, recovery: Option<real>, missingPolicy: string,
                                     severity: string, enabled: bool)

  /** A committed payload: its bytes, and what each of the three decoders makes
      of them (None where decoding fails). */
  datatype Payload = Payload(raw: string, post: Option<PostPayload>, dependsOn: Option<Id>, rule: Option<RulePayload>)

  datatype Kind = PostCreate | PostUpdate | PostDelete | DependencyAdd | RuleCreate | RuleSetEnabled
      | Unknown(name: string)

  /** A semantic operation; digest is what the canonical digest of the operation
      evaluates to, None when it cannot be computed. */
  datatype Operation = Operation(id: Id, version: int, kind: Kind, objectId: Id, revision: int, domainRevision: int,
                                 payload: Payload, digest: Option<string>)

  datatype ApplyResult = ApplyResult(index: nat, term: nat, opId: Id, objectId: Id, kind: Kind, version: int,
                                     revision: int)

  /** What the state machine remembers about an applied operation. */
  datatype AppliedOp = AppliedOp(digest: string, result: ApplyResult, payload: Payload, revision: int)

  /** The outcome of realizing an operation: new tables, new graph revision and
      the object revision reported to the caller. */
  datatype Realization = Realized(tables: Tables, graphRev: int, revision: int) | Unrealizable

  /** The checks made on every committed operation before anything else. */
  predicate Admissible(op: Operation) {
    op.version <= SUPPORTED_VERSION && !op.kind.Unknown? && op.digest.Some?
  }

  function NewPost(p: PostPayload): PostRow {
    PostRow(p.name, p.kind, p.address, p.owner, p.labels, p.maintenance, p.archived, 1, p.createdAt, p.updatedAt)
  }

  /** An update keeps the post's kind and creation time and bumps its version. */
  function EditedPost(row: PostRow, p: PostPayload): PostRow {
    row.(name := p.name, address := p.address, owner := p.owner, labels := p.labels, maintenance := p.maintenance,
         archived := p.archived, version := row.version + 1, updatedAt := p.updatedAt)
  }

  function NewRule(p: RulePayload): RuleRow {
    RuleRow(p.postId, p.signal, p.operator, p.threshold, p.durationSeconds, p.recovery, p.missingPolicy, p.severity,
            p.enabled, 1)
  }

  function WithoutPost(t: Tables, id: Id): Tables {
    Tables(t.posts - {id},
           set e | e in t.edges && e.0 != id && e.1 != id,
           map r | r in t.rules && t.rules[r].postId != id :: t.rules[r])
  }

  /** A dependency edge from s to d may be inserted. */
  ghost predicate EdgeAllowed(t: Tables, s: Id, d: Id) {
    && s != d && s in t.posts && d in t.posts
    && (s, d) !in t.edges
    && !Reaches(t.edges, d, s)
  }

  ghost function Realize(t: Tables, rev: int, op: Operation): Realization {
    match op.kind
    case PostCreate =>
      if op.payload.post.None? || op.objectId in t.posts then Unrealizable
      else Realized(t.(posts := t.posts[op.objectId := NewPost(op.payload.post.value)]), rev, 1)
    case PostUpdate =>
      if op.payload.post.None? || op.objectId !in t.posts || t.posts[op.objectId].version != op.revision then
        Unrealizable
      else Realized(t.(posts := t.posts[op.objectId := EditedPost(t.posts[op.objectId], op.payload.post.value)]), rev,
                    op.revision + 1)
    case PostDelete =>
      if op.domainRevision != rev || op.objectId !in t.posts then Unrealizable
      else Realized(WithoutPost(t, op.objectId), rev + 1, 0)
    case DependencyAdd =>
      if || op.domainRevision != rev || op.objectId == "" || op.payload.dependsOn.None?
         || !EdgeAllowed(t, op.objectId, op.payload.dependsOn.value) then Unrealizable
      else Realized(t.(edges := t.edges + {(op.objectId, op.payload.dependsOn.value)}), rev + 1, 0)
    case RuleCreate =>
      if || op.payload.rule.None? || op.objectId in t.rules
         || op.payload.rule.value.postId !in t.posts
         || op.payload.rule.value.operator !in OPERATORS then Unrealizable
      else Realized(t.(rules := t.rules[op.objectId := NewRule(op.payload.rule.value)]), rev, 1)
    case RuleSetEnabled =>
      if op.payload.rule.None? || op.objectId !in t.rules || t.rules[op.objectId].version != op.revision then
        Unrealizable
      else Realized(t.(rules := t.rules[op.objectId := t.rules[op.objectId].(enabled := op.payload.rule.value.enabled,
                                                                              version := op.revision + 1)]), rev,
                    op.revision + 1)
    case Unknown(_) => Unrealizable
  }

  /** What the schema and the graph rules promise about the three tables. */
  ghost predicate Coherent(t: Tables) {
    && (forall e | e in t.edges :: e.0 in t.posts && e.1 in t.posts && e.0 != e.1)
    && Acyclic(t.edges)
    && (forall r | r in t.rules :: t.rules[r].postId in t.posts && t.rules[r].operator in OPERATORS)
    && (forall p | p in t.posts :: t.posts[p].version >= 1)
    && (forall r | r in t.rules :: t.rules[r].version >= 1)
  }

  lemma EmptyCoherent()
    ensures Coherent(EMPTY_TABLES)
  {
    var none := EMPTY_TABLES.edges;
    forall w: seq<Id> ensures !Walk(none, w) {
      if |w| >= 2 { assert (w[0], w[0 + 1]) !in none; }
    }
  }

  /** Every realizable operation keeps the graph closed over existing posts,
      free of self loops and acyclic, and keeps rules attached to posts. */
  lemma RealizeKeepsCoherent(t: Tables, rev: int, op: Operation)
    requires Coherent(t) && Realize(t, rev, op).Realized?
    ensures Coherent(Realize(t, rev, op).tables)
  {
    match op.kind {
      case DependencyAdd => CycleCheckExact(t.edges, op.objectId, op.payload.dependsOn.value);
      case PostDelete => AcyclicSubset(t.edges, WithoutPost(t, op.objectId).edges);
      case _ =>
    }
  }

  // ----- Objects and their versions

  /** A versioned replicated object. */
  datatype Object = Post(id: Id) | Rule(id: Id)

  /** The stored version of an object, None while it does not exist. */
  function VersionOf(t: Tables, o: Object): Option<int> {
    match o
    case Post(id) => if id in t.posts then Some(t.posts[id].version) else None
    case Rule(id) => if id in t.rules then Some(t.rules[id].version) else None
  }

  /** op edits o in place: a post update or a rule toggle naming it. */
  predicate Edits(op: Operation, o: Object) {
    && op.objectId == o.id
    && (match o case Post(_) => op.kind.PostUpdate? case Rule(_) => op.kind.RuleSetEnabled?)
  }

  predicate Creates(op: Operation, o: Object) {
    && op.objectId == o.id
    && (match o case Post(_) => op.kind.PostCreate? case Rule(_) => op.kind.RuleCreate?)
  }

  /** The four things a realized operation can do to the version of any object:
      leave it, bump it (only the operation that names it, carrying exactly the
      stored version), create it at 1, or remove it (only a post deletion). */
  lemma RealizeVersion(t: Tables, rev: int, op: Operation, o: Object)
    requires Realize(t, rev, op).Realized?
    ensures
      var before, after := VersionOf(t, o), VersionOf(Realize(t, rev, op).tables, o);
      if Edits(op, o) then before == Some(op.revision) && after == Some(op.revision + 1)
      else if Creates(op, o) then before.None? && after == Some(1)
      else if op.kind.PostDelete? then after == before || after.None?
      else after == before
  {
  }

  // ----- Growth: no two different realizations lead back to the same state

  /** A replicated definition state together with its dependency-graph revision. */
  datatype Revised = Revised(tables: Tables, graphRev: int)

  /** Same graph, and every row still there at the same version or a later one. */
  ghost predicate Grows(a: Tables, b: Tables) {
    && a.edges == b.edges
    && a.posts.Keys <= b.posts.Keys && a.rules.Keys <= b.rules.Keys
    && (forall p | p in a.posts :: a.posts[p].version <= b.posts[p].version)
    && (forall r | r in a.rules :: a.rules[r].version <= b.rules[r].version)
  }

  /** Some object appeared, or some object's version went up. */
  ghost predicate Advances(a: Tables, b: Tables) {
    exists o: Object :: VersionOf(b, o).Some? &&
      (VersionOf(a, o).None? || VersionOf(a, o).value < VersionOf(b, o).value)
  }

  /** b lies strictly after a in the history of a replicated state. */
  ghost predicate Later(a: Revised, b: Revised) {
    a.graphRev < b.graphRev || (a.graphRev == b.graphRev && Grows(a.tables, b.tables) && Advances(a.tables, b.tables))
  }

  lemma RealizeLater(t: Tables, rev: int, op: Operation)
    requires Realize(t, rev, op).Realized?
    ensures Later(Revised(t, rev), Revised(Realize(t, rev, op).tables, Realize(t, rev, op).graphRev))
  {
    var z := Realize(t, rev, op);
    var o := if op.kind.PostCreate? || op.kind.PostUpdate? then Post(op.objectId) else Rule(op.objectId);
    if !op.kind.PostDelete? && !op.kind.DependencyAdd? {
      RealizeVersion(t, rev, op, o);
      assert VersionOf(z.tables, o).Some?
          && (VersionOf(t, o).None? || VersionOf(t, o).value < VersionOf(z.tables, o).value);
    }
  }

  lemma LaterTransitive(a: Revised, b: Revised, c: Revised)
    requires Later(a, b) && Later(b, c)
    ensures Later(a, c)
  {
    if a.graphRev == c.graphRev {
      var o :| VersionOf(b.tables, o).Some? &&
        (VersionOf(a.tables, o).None? || VersionOf(a.tables, o).value < VersionOf(b.tables, o).value);
      assert VersionOf(c.tables, o).Some? &&
        (VersionOf(a.tables, o).None? || VersionOf(a.tables, o).value < VersionOf(c.tables, o).value);
    }
  }
}
