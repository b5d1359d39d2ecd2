/** The authoritative write choke point: admission of graph operations against
    a graph revision, and recognition of retried requests. */
module Admission {
  import opened Outcomes
  import opened Graph
  import opened Definitions
  import opened CommittedLog
  import opened Replica
  import opened Recovery
  import opened Fsm
  import opened Effects

  /** What a caller asks for, before it is encoded. */
  datatype Intent = PostIntent(post: PostPayload) | RuleIntent(rule: RulePayload) | EdgeIntent(dependsOn: Id)
      | NoPayload

  const ZERO_POST := PostPayload("", "", "", "", "", false, false, "", "")
  const ZERO_RULE := RulePayload("", "", "", 0.0, 0, None, "", "", false)

  /** The JSON text of an intent, and what each decoder reads from it: the three
      payload shapes share no field name, so a foreign one decodes to zeros. */
  function Encode(i: Intent, json: string): Payload {
    Payload(json,
            Some(if i.PostIntent? then i.post else ZERO_POST),
            Some(if i.EdgeIntent? then i.dependsOn else ""),
            Some(if i.RuleIntent? then i.rule else ZERO_RULE))
  }

  function Build(id: Id, kind: Kind, objectId: Id, revision: int, domainRevision: int, payload: Payload,
                 digest: Option<string>): Operation
  {
    Operation(id, SUPPORTED_VERSION, kind, objectId, revision, domainRevision, payload, digest)
  }

  /** The intent that goes with each kind of operation. Toggles carry only the
      enabled flag. */
  predicate Fits(kind: Kind, i: Intent) {
    match kind
    case PostCreate => i.PostIntent?
    case PostUpdate => i.PostIntent?
    case PostDelete => i.NoPayload?
    case DependencyAdd => i.EdgeIntent?
    case RuleCreate => i.RuleIntent?
    case RuleSetEnabled => i.RuleIntent? && i.rule == ZERO_RULE.(enabled := i.rule.enabled)
    case Unknown(_) => false
  }

  /** An intent without the timestamps the server generates on every attempt. */
  function Untimed(i: Intent): Intent {
    match i
    case PostIntent(p) => PostIntent(p.(createdAt := "", updatedAt := ""))
    case _ => i
  }

  function SemanticallyEquivalent(kind: Kind, prior: AppliedOp, objectId: Id, revision: int, payload: Payload): bool {
    && prior.result.objectId == objectId && prior.revision == revision
    && match kind
       case PostCreate => SamePost(prior.payload.post, payload.post)
       case PostUpdate => SamePost(prior.payload.post, payload.post)
       case RuleCreate => prior.payload.rule.Some? && prior.payload.rule == payload.rule
       case RuleSetEnabled =>
         && prior.payload.rule.Some? && payload.rule.Some?
         && prior.payload.rule.value.enabled == payload.rule.value.enabled
       case DependencyAdd => prior.payload.dependsOn.Some? && prior.payload.dependsOn == payload.dependsOn
       case PostDelete => true
       case Unknown(_) => false
  }

  function SamePost(p: Option<PostPayload>, q: Option<PostPayload>): bool {
    && p.Some? && q.Some?
    && p.value.name == q.value.name && p.value.kind == q.value.kind && p.value.address == q.value.address
    && p.value.owner == q.value.owner && p.value.labels == q.value.labels
    && p.value.maintenance == q.value.maintenance && p.value.archived == q.value.archived
  }

  datatype Decision =
    | Unhealthy
    | Answered(result: ApplyResult)
    | RefusedDifferent
    | Rejected
    | Proposed(op: Operation)

  /** What the choke point does with a request that needs no validation. */
  function Decide(s: State, id: Id, kind: Kind, objectId: Id, revision: int, domainRevision: int, payload: Payload,
                  digest: Option<string>): Decision
  {
    if s.mem.failure.Some? then Unhealthy
    else if id in s.mem.applied && s.mem.applied[id].payload.raw != "" then
      if SemanticallyEquivalent(kind, s.mem.applied[id], objectId, revision, payload) then
        Answered(s.mem.applied[id].result)
      else RefusedDifferent
    else Proposed(Build(id, kind, objectId, revision, domainRevision, payload, digest))
  }

  /** What it does with an edge or a deletion: the same under the graph lock, with
      the current graph revision as label, but edges alone are validated first. */
  ghost function DecideGraph(s: State, id: Id, kind: Kind, objectId: Id, revision: int, payload: Payload,
                             digest: Option<string>): Decision
    requires kind.DependencyAdd? ==> payload.dependsOn.Some?
  {
    var plain := Decide(s, id, kind, objectId, revision, s.mem.graphRev, payload, digest);
    if plain.Proposed? && kind.DependencyAdd?
       && (objectId == "" || payload.dependsOn.value == ""
           || !EdgeAllowed(s.disk.tables, objectId, payload.dependsOn.value))
    then Rejected else plain
  }

  class Adapter {
    const fsm: FSM

    constructor (fsm: FSM)
      ensures this.fsm == fsm
    {
      this.fsm := fsm;
    }

    method ProposeOp(id: Id, kind: Kind, objectId: Id, revision: int, domainRevision: int, payload: Payload,
                     digest: Option<string>)
      returns (d: Decision)
      ensures d == Decide(fsm.Value(), id, kind, objectId, revision, domainRevision, payload, digest)
    {
      if fsm.applyFailure.Some? { return Unhealthy; }
      if id in fsm.applied && fsm.applied[id].payload.raw != "" {
        if !SemanticallyEquivalent(kind, fsm.applied[id], objectId, revision, payload) { return RefusedDifferent; }
        return Answered(fsm.applied[id].result);
      }
      return Proposed(Build(id, kind, objectId, revision, domainRevision, payload, digest));
    }

    /** Static checks of a new edge against the leader's own tables. */
    method ValidateDependencyAdd(source: Id, depends: Id) returns (ok: bool)
      ensures ok <==> source != "" && depends != "" && EdgeAllowed(fsm.db.tables, source, depends)
    {
      if source == "" || depends == "" || source == depends { return false; }
      var endpoints := CountEndpoints(fsm.db.tables.posts, source, depends);
      if endpoints != 2 { return false; }
      if (source, depends) in fsm.db.tables.edges { return false; }
      var cycle := CountReach(fsm.db.tables.edges, depends, source);
      return cycle == 0;
    }

    /** Admission of an edge or of a deletion under the graph lock: capture the
        revision, validate (edges only), and label the operation with it. */
    method GraphPropose(id: Id, kind: Kind, objectId: Id, revision: int, payload: Payload, digest: Option<string>)
      returns (d: Decision)
      requires kind.DependencyAdd? || kind.PostDelete?
      requires kind.DependencyAdd? ==> payload.dependsOn.Some?
      ensures d == DecideGraph(fsm.Value(), id, kind, objectId, revision, payload, digest)
    {
      if fsm.applyFailure.Some? { return Unhealthy; }
      if id in fsm.applied && fsm.applied[id].payload.raw != "" {
        if !SemanticallyEquivalent(kind, fsm.applied[id], objectId, revision, payload) { return RefusedDifferent; }
        return Answered(fsm.applied[id].result);
      }
      var g := fsm.graphRev;
      if kind.DependencyAdd? {
        var ok := ValidateDependencyAdd(objectId, payload.dependsOn.value);
        if !ok { return Rejected; }
      }
      return Proposed(Build(id, kind, objectId, revision, g, payload, digest));
    }
  }

  // ----- Admission soundness

  /** Entry n is op, and nothing before it makes it a no-op. */
  ghost predicate CommittedFresh(log: seq<LogEntry>, n: nat, op: Operation) {
    && 0 < n <= |log| && log[n - 1].body == Command(op) && Admissible(op)
    && !Fold(log, n - 1).failed && op.id !in Fold(log, n - 1).ops
  }

  /** Admission soundness. The revision is captured at position i, the edge is
      validated against the tables at j, and the revision is seen unchanged at k.
      Committed at any later entry n, the edge takes effect exactly when the
      graph revision is still the one it was labelled with; otherwise the tables
      are left alone and every replica stops at it. */
  lemma AdmissionSound(log: seq<LogEntry>, i: nat, j: nat, k: nat, n: nat, op: Operation)
    requires i <= j <= k < n && CommittedFresh(log, n, op)
    requires op.kind.DependencyAdd? && op.objectId != "" && op.payload.dependsOn.Some?
    requires op.domainRevision == Fold(log, i).graphRev == Fold(log, k).graphRev
    requires EdgeAllowed(Fold(log, j).tables, op.objectId, op.payload.dependsOn.value)
    ensures Effective(log, n) <==> Fold(log, n - 1).graphRev == op.domainRevision
    ensures Effective(log, n) ==>
              Fold(log, n).tables.edges == Fold(log, j).tables.edges + {(op.objectId, op.payload.dependsOn.value)}
    ensures !Effective(log, n) ==> Fold(log, n) == Fold(log, n - 1).(failed := true)
  {
    hide Step, Fold, EdgeAllowed;
    FoldOrder(log, i, j);
    FoldOrder(log, j, k);
    FoldOrder(log, k, n - 1);
    IndexBound(log, n - 1);
    FoldStep(log, n - 1);
    EdgeStep(Fold(log, n - 1), op, log[n - 1].term, n);
    if Fold(log, n - 1).graphRev == op.domainRevision {
      SameGraphRevision(log, j, n - 1);
      StaysAllowed(Fold(log, j).tables, Fold(log, n - 1).tables, op.objectId, op.payload.dependsOn.value);
    }
  }

  /** An edge stays allowed while the graph is the same and posts are only added. */
  lemma StaysAllowed(t: Tables, later: Tables, s: Id, d: Id)
    requires EdgeAllowed(t, s, d) && t.edges == later.edges && t.posts.Keys <= later.posts.Keys
    ensures EdgeAllowed(later, s, d)
  {
  }

  /** What a fresh edge does when it is reached. */
  lemma EdgeStep(m: Machine, op: Operation, term: nat, n: nat)
    requires !m.failed && Admissible(op) && op.id !in m.ops && m.index < n
    requires op.kind.DependencyAdd? && op.objectId != "" && op.payload.dependsOn.Some?
    ensures
      var after, edge := Step(m, LogEntry(term, Command(op)), n), (op.objectId, op.payload.dependsOn.value);
      if m.graphRev == op.domainRevision && EdgeAllowed(m.tables, edge.0, edge.1) then
        after.index == n && after.tables.edges == m.tables.edges + {edge}
      else after == m.(failed := true)
  {
  }

  predicate GraphCommand(e: LogEntry) {
    e.body.Command? && (e.body.op.kind.PostDelete? || e.body.op.kind.DependencyAdd?)
  }

  lemma {:induction false} NoGraphCommandSameRevision(log: seq<LogEntry>, k: nat, n: nat)
    requires k <= n <= |log| && forall m | k <= m < n :: !GraphCommand(log[m])
    ensures Fold(log, k).graphRev == Fold(log, n).graphRev
    decreases n
  {
    if k < n { NoGraphCommandSameRevision(log, k, n - 1); }
  }

  /** Serializing graph operations is enough: if only other kinds are committed
      between admission at k and the edge itself, the edge takes effect. */
  lemma GraphLockSuffices(log: seq<LogEntry>, k: nat, n: nat, op: Operation)
    requires k < n && CommittedFresh(log, n, op)
    requires op.kind.DependencyAdd? && op.objectId != "" && op.payload.dependsOn.Some?
    requires op.domainRevision == Fold(log, k).graphRev
    requires EdgeAllowed(Fold(log, k).tables, op.objectId, op.payload.dependsOn.value)
    requires forall m | k <= m < n - 1 :: !GraphCommand(log[m])
    ensures Effective(log, n)
  {
    NoGraphCommandSameRevision(log, k, n - 1);
    AdmissionSound(log, k, k, k, n, op);
  }

  /** Deletions are labelled but not validated: committed while the graph lock is
      held, one stops every replica exactly when its post does not exist when the
      entry is reached, which cannot happen if it existed at admission. */
  lemma DeleteAdmission(log: seq<LogEntry>, k: nat, n: nat, op: Operation)
    requires k < n && CommittedFresh(log, n, op)
    requires op.kind.PostDelete? && op.domainRevision == Fold(log, k).graphRev
    requires forall m | k <= m < n - 1 :: !GraphCommand(log[m])
    ensures Fold(log, n).failed <==> op.objectId !in Fold(log, n - 1).tables.posts
    ensures op.objectId in Fold(log, k).tables.posts ==> Effective(log, n)
  {
    NoGraphCommandSameRevision(log, k, n - 1);
    SameGraphRevision(log, k, n - 1);
    EffectiveMeans(log, n);
  }

  // ----- The operations that are proposed without validation

  /** The payload decodes to what the operation needs. */
  predicate Decodes(op: Operation) {
    && (op.kind.PostCreate? || op.kind.PostUpdate? ==> op.payload.post.Some?)
    && (op.kind.RuleCreate? || op.kind.RuleSetEnabled? ==> op.payload.rule.Some?)
  }

  /** An update or a toggle takes effect exactly when the stored version is the one
      it carries; otherwise no table changes and every replica stops at it. */
  lemma EditExactly(log: seq<LogEntry>, n: nat, op: Operation, o: Object)
    requires CommittedFresh(log, n, op) && Edits(op, o) && Decodes(op)
    ensures Effective(log, n) <==> VersionOf(Fold(log, n - 1).tables, o) == Some(op.revision)
    ensures !Effective(log, n) ==> Fold(log, n) == Fold(log, n - 1).(failed := true)
  {
    EffectiveMeans(log, n);
  }

  /** What a rule needs of the tables it is created in. */
  predicate RuleFits(t: Tables, op: Operation) {
    op.kind.RuleCreate? && op.payload.rule.Some? ==>
      op.payload.rule.value.postId in t.posts && op.payload.rule.value.operator in OPERATORS
  }

  /** A creation takes effect exactly when the object does not exist yet, and, for
      a rule, its post does and its operator is known. */
  lemma CreationExactly(log: seq<LogEntry>, n: nat, op: Operation, o: Object)
    requires CommittedFresh(log, n, op) && Creates(op, o) && Decodes(op)
    ensures Effective(log, n) <==>
            VersionOf(Fold(log, n - 1).tables, o).None? && RuleFits(Fold(log, n - 1).tables, op)
    ensures !Effective(log, n) ==> Fold(log, n) == Fold(log, n - 1).(failed := true)
  {
    EffectiveMeans(log, n);
  }

  /** Entry m deletes the post o, or the post of the rule o. */
  ghost predicate Removes(log: seq<LogEntry>, m: nat, o: Object)
    requires 0 < m <= |log|
  {
    && log[m - 1].body.Command? && log[m - 1].body.op.kind.PostDelete?
    && match o
       case Post(id) => log[m - 1].body.op.objectId == id
       case Rule(id) =>
         && id in Fold(log, m - 1).tables.rules
         && Fold(log, m - 1).tables.rules[id].postId == log[m - 1].body.op.objectId
  }

  /** An object keeps its version through an entry that is not an effective edit or
      removal of it. */
  lemma VersionKept(log: seq<LogEntry>, m: nat, o: Object)
    requires 0 < m <= |log| && VersionOf(Fold(log, m - 1).tables, o).Some?
    requires Effective(log, m) ==> !EditedAt(log, m, o) && !Removes(log, m, o)
    ensures VersionOf(Fold(log, m).tables, o) == VersionOf(Fold(log, m - 1).tables, o)
  {
    hide Realize;
    EffectiveMeans(log, m);
    IndexBound(log, m - 1);
    var before := Fold(log, m - 1);
    if Effective(log, m) { KeptByOperation(before.tables, before.graphRev, log[m - 1].body.op, o); }
  }

  lemma KeptByOperation(t: Tables, rev: int, op: Operation, o: Object)
    requires Realize(t, rev, op).Realized? && VersionOf(t, o).Some? && !Edits(op, o)
    requires op.kind.PostDelete? ==>
               match o
               case Post(id) => op.objectId != id
               case Rule(id) => t.rules[id].postId != op.objectId
    ensures VersionOf(Realize(t, rev, op).tables, o) == VersionOf(t, o)
  {
    RealizeVersion(t, rev, op, o);
  }

  lemma {:induction false} VersionKeptTo(log: seq<LogEntry>, k: nat, n: nat, o: Object)
    requires k <= n <= |log| && VersionOf(Fold(log, k).tables, o).Some?
    requires forall m | k < m <= n && Effective(log, m) :: !EditedAt(log, m, o) && !Removes(log, m, o)
    ensures VersionOf(Fold(log, n).tables, o) == VersionOf(Fold(log, k).tables, o)
    decreases n
  {
    if k < n {
      VersionKeptTo(log, k, n - 1, o);
      VersionKept(log, n, o);
    }
  }

  /** So an edit that carries the version stored at k takes effect if no effective
      entry in between edits the object or removes it. */
  lemma EditAdmission(log: seq<LogEntry>, k: nat, n: nat, op: Operation, o: Object)
    requires k < n && CommittedFresh(log, n, op) && Edits(op, o) && Decodes(op)
    requires VersionOf(Fold(log, k).tables, o) == Some(op.revision)
    requires forall m | k < m < n && Effective(log, m) :: !EditedAt(log, m, o) && !Removes(log, m, o)
    ensures Effective(log, n)
  {
    VersionKeptTo(log, k, n - 1, o);
    EditExactly(log, n, op, o);
  }

  ghost predicate CreatedAt(log: seq<LogEntry>, m: nat, o: Object) {
    Effective(log, m) && log[m - 1].body.Command? && Creates(log[m - 1].body.op, o)
  }

  lemma {:induction false} AbsentTo(log: seq<LogEntry>, k: nat, n: nat, o: Object)
    requires k <= n <= |log| && VersionOf(Fold(log, k).tables, o).None?
    requires forall m | k < m <= n :: !CreatedAt(log, m, o)
    ensures VersionOf(Fold(log, n).tables, o).None?
    decreases n
  {
    if k < n {
      AbsentTo(log, k, n - 1, o);
      VersionStep(log, n, o);
      assert !CreatedAt(log, n, o);
    }
  }

  /** The post that a rule creation names. */
  function PostNamed(op: Operation): Object {
    Post(if op.payload.rule.Some? then op.payload.rule.value.postId else "")
  }

  /** A creation of what did not exist at k takes effect if no effective entry in
      between creates it or, for a rule, deletes its post. */
  lemma CreationAdmission(log: seq<LogEntry>, k: nat, n: nat, op: Operation, o: Object)
    requires k < n && CommittedFresh(log, n, op) && Creates(op, o) && Decodes(op)
    requires VersionOf(Fold(log, k).tables, o).None? && RuleFits(Fold(log, k).tables, op)
    requires forall m | k < m < n :: !CreatedAt(log, m, o)
    requires op.kind.RuleCreate? ==> forall m | k < m < n && Effective(log, m) :: !Removes(log, m, PostNamed(op))
    ensures Effective(log, n)
  {
    AbsentTo(log, k, n - 1, o);
    if op.kind.RuleCreate? { PostStaysTo(log, k, n - 1, PostNamed(op)); }
    CreationExactly(log, n, op, o);
  }

  lemma {:induction false} PostStaysTo(log: seq<LogEntry>, k: nat, n: nat, o: Object)
    requires k <= n <= |log| && o.Post? && o.id in Fold(log, k).tables.posts
    requires forall m | k < m <= n && Effective(log, m) :: !Removes(log, m, o)
    ensures o.id in Fold(log, n).tables.posts
    decreases n
  {
    if k < n {
      PostStaysTo(log, k, n - 1, o);
      EffectiveMeans(log, n);
      IndexBound(log, n - 1);
    }
  }

  /** Whatever a healthy process that has applied the whole log proposes and cannot
      be realized on its tables stops that process once it is committed next, and
      the specification with it. */
  lemma UnrealizableStops(log: seq<LogEntry>, n: Node, op: Operation, term: nat)
    requires n.Up? && UpOk(log, n) && n.rep.mem.failure.None? && n.delivered == |log|
    requires Position(n.rep.disk) <= n.delivered && Admissible(op) && op.id !in n.rep.mem.applied
    requires Realize(n.rep.disk.tables, n.rep.mem.graphRev, op).Unrealizable?
    ensures
      var longer := log + [LogEntry(term, Command(op))];
      && Fold(longer, |longer|).failed
      && Delivered(longer, n, false).rep.mem.failure == Some(|longer|)
      && Delivered(longer, n, false).rep.disk == n.rep.disk
  {
    hide Step, Fold, Apply, Realize;
    var longer := log + [LogEntry(term, Command(op))];
    assert longer[|log|] == LogEntry(term, Command(op));
    FoldPrefix(log, [LogEntry(term, Command(op))], |log|);
    FoldStep(longer, |log|);
    SameIndexSameDisk(log, Position(n.rep.disk), |log|);
    IndexIsPosition(log, Position(n.rep.disk));
    Refused(Fold(log, |log|), n.rep, op, term, |longer|);
  }

  lemma Refused(m: Machine, s: State, op: Operation, term: nat, index: nat)
    requires !m.failed && Admissible(op) && op.id !in m.ops && s.mem.failure.None? && op.id !in s.mem.applied
    requires Realize(m.tables, m.graphRev, op).Unrealizable?
    requires Realize(s.disk.tables, s.mem.graphRev, op).Unrealizable? && s.mem.persistedIndex < index
    ensures Step(m, LogEntry(term, Command(op)), index).failed
    ensures Apply(s, LogEntry(term, Command(op)), index, false) == Poison(s, index)
  {
  }

  /** So the deletion of a post that does not exist gets through: any such process
      proposes it, and then stops at it. */
  lemma MissingPostStops(log: seq<LogEntry>, n: Node, id: Id, post: Id, payload: Payload, digest: string, term: nat)
    requires n.Up? && UpOk(log, n) && n.rep.mem.failure.None? && n.delivered == |log|
    requires Position(n.rep.disk) <= n.delivered
    requires post !in n.rep.disk.tables.posts && id !in n.rep.mem.applied
    ensures
      var d := DecideGraph(n.rep, id, PostDelete, post, 0, payload, Some(digest));
      && d.Proposed?
      && var longer := log + [LogEntry(term, Command(d.op))];
      && Fold(longer, |longer|).failed
      && Delivered(longer, n, false).rep.mem.failure == Some(|longer|)
      && Delivered(longer, n, false).rep.disk == n.rep.disk
  {
    hide Fold, Delivered;
    UnrealizableStops(log, n, DecideGraph(n.rep, id, PostDelete, post, 0, payload, Some(digest)).op, term);
  }

  /** And so does an update or a toggle that carries any other version than the
      stored one, or names nothing stored. */
  lemma StaleEditStops(log: seq<LogEntry>, n: Node, id: Id, kind: Kind, o: Object, revision: int, payload: Payload,
                       digest: string, term: nat)
    requires n.Up? && UpOk(log, n) && n.rep.mem.failure.None? && n.delivered == |log|
    requires Position(n.rep.disk) <= n.delivered && id !in n.rep.mem.applied
    requires kind == (if o.Post? then PostUpdate else RuleSetEnabled)
    requires VersionOf(n.rep.disk.tables, o) != Some(revision)
    ensures
      var d := Decide(n.rep, id, kind, o.id, revision, 0, payload, Some(digest));
      && d.Proposed?
      && var longer := log + [LogEntry(term, Command(d.op))];
      && Fold(longer, |longer|).failed
      && Delivered(longer, n, false).rep.mem.failure == Some(|longer|)
      && Delivered(longer, n, false).rep.disk == n.rep.disk
  {
    hide Fold, Delivered;
    UnrealizableStops(log, n, Decide(n.rep, id, kind, o.id, revision, 0, payload, Some(digest)).op, term);
  }

  /** Two updates of one post, both proposed by the same healthy process on the
      same version; the second one committed stops it. */
  lemma SecondUpdateStops(post: PostPayload, json: string)
    ensures
      var create := Build("new", PostCreate, "a", 0, 0, Encode(PostIntent(post), json), Some("0"));
      var s1 := Apply(Open(FRESH_DISK).value, LogEntry(1, Command(create)), 1, false);
      var d1 := Decide(s1, "first", PostUpdate, "a", 1, 0, Encode(PostIntent(post), json), Some("1"));
      var d2 := Decide(s1, "second", PostUpdate, "a", 1, 0, Encode(PostIntent(post), json), Some("2"));
      && d1.Proposed? && d2.Proposed?
      && var s2 := Apply(s1, LogEntry(1, Command(d1.op)), 2, false);
      && s2.mem.failure.None? && s2.disk.tables.posts["a"].version == 2
      && Apply(s2, LogEntry(1, Command(d2.op)), 3, false).mem.failure == Some(3)
  {
  }

  /** The shortest such run: a new replica, and a deletion of a post never created. */
  lemma FirstDeletionStops(payload: Payload, digest: string)
    ensures
      var blank := Up(Open(FRESH_DISK).value, 0, 0);
      var d := DecideGraph(blank.rep, "req", PostDelete, "ghost", 0, payload, Some(digest));
      && d.Proposed?
      && Delivered([LogEntry(1, Command(d.op))], blank, false).rep.mem.failure == Some(1)
  {
  }

  // ----- What is proposed takes effect

  /** A process that is healthy and has applied the whole log. */
  ghost predicate UpToDate(log: seq<LogEntry>, n: Node) {
    && n.Up? && UpOk(log, n) && n.rep.mem.failure.None? && n.delivered == |log| && Position(n.rep.disk) <= n.delivered
  }

  function Appended(log: seq<LogEntry>, term: nat, op: Operation): seq<LogEntry> {
    log + [LogEntry(term, Command(op))]
  }

  /** Its tables, graph revision and operation IDs are those of the log. */
  lemma UpToDateMatches(log: seq<LogEntry>, n: Node)
    requires UpToDate(log, n)
    ensures
      var m := Fold(log, |log|);
      && !m.failed && m.index <= |log| && n.rep.disk.tables == m.tables && n.rep.mem.graphRev == m.graphRev
      && n.rep.mem.applied.Keys == m.ops.Keys && n.rep.mem.persistedIndex <= |log|
  {
    hide Fold;
    SameIndexSameDisk(log, Position(n.rep.disk), |log|);
    IndexIsPosition(log, Position(n.rep.disk));
    IndexBound(log, |log|);
  }

  /** A fresh operation committed next takes effect exactly when it can be realized
      on the tables of an up-to-date process; its effect is then on both. */
  lemma NextTakesEffect(log: seq<LogEntry>, n: Node, op: Operation, term: nat)
    requires UpToDate(log, n) && Admissible(op) && op.id !in n.rep.mem.applied
    ensures
      var longer, z := Appended(log, term, op), Realize(n.rep.disk.tables, n.rep.mem.graphRev, op);
      && (Effective(longer, |longer|) <==> z.Realized?)
      && (z.Realized? ==>
            && Fold(longer, |longer|).tables == z.tables && Fold(longer, |longer|).graphRev == z.graphRev
            && Delivered(longer, n, false).rep.disk == Durable(z.tables, Some(Meta(|longer|, term, z.graphRev))))
  {
    hide Fold, Realize;
    var longer := Appended(log, term, op);
    assert longer[|log|] == LogEntry(term, Command(op));
    FoldPrefix(log, [LogEntry(term, Command(op))], |log|);
    FoldStep(longer, |log|);
    UpToDateMatches(log, n);
  }

  /** The graph operation that an up-to-date process proposes under a fresh ID
      carries what was asked for, labelled with the revision the graph has. */
  lemma GraphProposalCarries(s: State, id: Id, kind: Kind, objectId: Id, revision: int, payload: Payload,
                             digest: string)
    requires s.mem.failure.None? && id !in s.mem.applied && (kind.DependencyAdd? || kind.PostDelete?)
    requires kind.DependencyAdd? ==> payload.dependsOn.Some?
    ensures
      var d := DecideGraph(s, id, kind, objectId, revision, payload, Some(digest));
      && (d.Rejected? <==>
            kind.DependencyAdd?
            && !(&& objectId != "" && payload.dependsOn.value != "" && objectId != payload.dependsOn.value
                 && objectId in s.disk.tables.posts && payload.dependsOn.value in s.disk.tables.posts
                 && (objectId, payload.dependsOn.value) !in s.disk.tables.edges
                 && !Reaches(s.disk.tables.edges, payload.dependsOn.value, objectId)))
      && (!d.Rejected? ==>
            && d.Proposed? && d.op.id == id && d.op.kind == kind && d.op.objectId == objectId
            && d.op.revision == revision && d.op.domainRevision == s.mem.graphRev && d.op.payload == payload
            && d.op.digest == Some(digest) && d.op.version == SUPPORTED_VERSION)
  {
  }

  /** An edge is rejected exactly when it is not allowed on the process's own tables;
      proposed and committed next, it takes effect, and adds exactly itself. */
  lemma EdgeProposalTakesEffect(log: seq<LogEntry>, n: Node, id: Id, source: Id, depends: Id, revision: int,
                                payload: Payload, digest: string, term: nat)
    requires UpToDate(log, n) && id !in n.rep.mem.applied && payload.dependsOn == Some(depends) && source != ""
    requires depends != ""
    ensures
      var d := DecideGraph(n.rep, id, DependencyAdd, source, revision, payload, Some(digest));
      var t := n.rep.disk.tables;
      && (d.Rejected? <==> source == depends || source !in t.posts || depends !in t.posts
                           || (source, depends) in t.edges || Reaches(t.edges, depends, source))
      && (d.Rejected? || d.Proposed?)
      && (d.Proposed? ==>
            var longer := Appended(log, term, d.op);
            && Effective(longer, |longer|)
            && Fold(longer, |longer|).tables.edges == t.edges + {(source, depends)}
            && Delivered(longer, n, false).rep.disk.tables.edges == t.edges + {(source, depends)})
  {
    hide Reaches, Fold, Delivered;
    GraphProposalCarries(n.rep, id, DependencyAdd, source, revision, payload, digest);
    var d := DecideGraph(n.rep, id, DependencyAdd, source, revision, payload, Some(digest));
    if d.Proposed? {
      NextTakesEffect(log, n, d.op, term);
      RealizedExactly(n.rep.disk.tables, n.rep.mem.graphRev, d.op);
      EdgeAdded(n.rep.disk.tables, n.rep.mem.graphRev, d.op);
    }
  }

  /** A deletion is always proposed; committed next, it takes effect exactly when its
      post exists, and the post and what names it are gone. */
  lemma DeletionProposalTakesEffect(log: seq<LogEntry>, n: Node, id: Id, post: Id, payload: Payload, digest: string,
                                    term: nat)
    requires UpToDate(log, n) && id !in n.rep.mem.applied
    ensures
      var d := DecideGraph(n.rep, id, PostDelete, post, 0, payload, Some(digest));
      && d.Proposed?
      && var longer, t := Appended(log, term, d.op), n.rep.disk.tables;
      && (Effective(longer, |longer|) <==> post in t.posts)
      && (post in t.posts ==>
            var after := Fold(longer, |longer|).tables;
            && post !in after.posts && (forall x | x in t.posts && x != post :: x in after.posts)
            && (forall a, b :: (a, b) in after.edges <==> (a, b) in t.edges && a != post && b != post))
  {
    hide Reaches, Fold, Delivered;
    GraphProposalCarries(n.rep, id, PostDelete, post, 0, payload, digest);
    var d := DecideGraph(n.rep, id, PostDelete, post, 0, payload, Some(digest));
    NextTakesEffect(log, n, d.op, term);
    RealizedExactly(n.rep.disk.tables, n.rep.mem.graphRev, d.op);
    if post in n.rep.disk.tables.posts { PostDeleted(n.rep.disk.tables, n.rep.mem.graphRev, d.op); }
  }

  /** An operation that is proposed as it comes carries what was asked for. */
  lemma ProposalCarries(s: State, id: Id, kind: Kind, objectId: Id, revision: int, domainRevision: int,
                        payload: Payload, digest: string)
    requires s.mem.failure.None? && id !in s.mem.applied
    ensures
      var d := Decide(s, id, kind, objectId, revision, domainRevision, payload, Some(digest));
      && d.Proposed? && d.op.id == id && d.op.kind == kind && d.op.objectId == objectId && d.op.revision == revision
      && d.op.domainRevision == domainRevision && d.op.payload == payload && d.op.digest == Some(digest)
      && d.op.version == SUPPORTED_VERSION
  {
  }

  /** An update that carries the stored version is proposed, and committed next it
      puts the payload's fields into the row. */
  lemma UpdateProposalTakesEffect(log: seq<LogEntry>, n: Node, id: Id, post: Id, p: PostPayload, json: string,
                                  digest: string, term: nat)
    requires UpToDate(log, n) && id !in n.rep.mem.applied && post in n.rep.disk.tables.posts
    ensures
      var was := n.rep.disk.tables.posts[post];
      var d := Decide(n.rep, id, PostUpdate, post, was.version, 0, Encode(PostIntent(p), json), Some(digest));
      && d.Proposed?
      && var longer := Appended(log, term, d.op);
      && Effective(longer, |longer|) && post in Fold(longer, |longer|).tables.posts
      && var row := Fold(longer, |longer|).tables.posts[post];
      && row.name == p.name && row.address == p.address && row.owner == p.owner && row.labels == p.labels
      && row.maintenance == p.maintenance && row.archived == p.archived && row.version == was.version + 1
  {
    hide Fold, Delivered, Reaches;
    var was, payload := n.rep.disk.tables.posts[post], Encode(PostIntent(p), json);
    ProposalCarries(n.rep, id, PostUpdate, post, was.version, 0, payload, digest);
    var op := Decide(n.rep, id, PostUpdate, post, was.version, 0, payload, Some(digest)).op;
    NextTakesEffect(log, n, op, term);
    RealizedExactly(n.rep.disk.tables, n.rep.mem.graphRev, op);
    PostUpdated(n.rep.disk.tables, n.rep.mem.graphRev, op);
  }

  /** What the choke point answers before anything is proposed. */
  lemma DecisionExactly(s: State, id: Id, kind: Kind, objectId: Id, revision: int, domainRevision: int,
                        payload: Payload, digest: Option<string>)
    ensures
      var d := Decide(s, id, kind, objectId, revision, domainRevision, payload, digest);
      var known := id in s.mem.applied && s.mem.applied[id].payload.raw != "";
      && (d.Unhealthy? <==> s.mem.failure.Some?)
      && (d.Proposed? <==> s.mem.failure.None? && !known)
      && (d.Answered? || d.RefusedDifferent? <==> s.mem.failure.None? && known)
      && (d.Answered? ==> d.result == s.mem.applied[id].result && d.result.objectId == objectId
                          && s.mem.applied[id].revision == revision)
  {
  }

  // ----- Retries

  /** A retry of the same kind is recognized exactly when it names the same
      object at the same revision and asks for the same thing, server-generated
      timestamps aside. */
  lemma RetryRecognized(kind: Kind, op: Operation, first: Intent, again: Intent, json0: string, json1: string,
                        index: nat, term: nat, reported: int, objectId: Id, revision: int)
    requires Fits(kind, first) && Fits(kind, again)
    requires op.kind == kind && op.payload == Encode(first, json0) && op.digest.Some?
    ensures
      SemanticallyEquivalent(kind, Recorded(op, index, term, reported), objectId, revision, Encode(again, json1)) <==>
      objectId == op.objectId && revision == op.revision && Untimed(first) == Untimed(again)
  {
    match kind {
      case RuleSetEnabled => assert again.rule.enabled == first.rule.enabled ==> again == first;
      case _ =>
    }
  }

  /** On any healthy process that has been handed the entry, in any run and after
      any restarts or snapshots, such a retry is answered with the position of
      the original commit; nothing is proposed. */
  lemma RetryAnswered(log: seq<LogEntry>, n: Node, k: nat, kind: Kind, first: Intent, again: Intent,
                      json0: string, json1: string, domainRevision: int, digest: Option<string>)
    requires n.Up? && UpOk(log, n) && n.rep.mem.failure.None? && k <= n.good && Effective(log, k)
    requires log[k - 1].body.Command?
    requires
      var op := log[k - 1].body.op;
      op.kind == kind && op.payload == Encode(first, json0) && json0 != ""
    requires Fits(kind, first) && Fits(kind, again) && Untimed(first) == Untimed(again)
    ensures
      var op := log[k - 1].body.op;
      var d := Decide(n.rep, op.id, kind, op.objectId, op.revision, domainRevision, Encode(again, json1), digest);
      d.Answered? && d.result.index == k && d.result.opId == op.id && d.result.objectId == op.objectId
  {
    var op := log[k - 1].body.op;
    EffectiveMeans(log, k);
    FoldOrder(log, k, n.good);
    var spec := Fold(log, n.good).ops[op.id];
    assert spec == Recorded(op, k, log[k - 1].term, spec.result.revision);
    var held := n.rep.mem.applied[op.id];
    assert Erased(held) == Erased(spec);
    assert held == Recorded(op, k, log[k - 1].term, held.result.revision);
    RetryRecognized(kind, op, first, again, json0, json1, k, log[k - 1].term, held.result.revision, op.objectId,
                    op.revision);
  }

  /** What an operation of a kind decodes from the payload of an intent, timestamps
      aside: zeros from a payload of another shape, and the flag alone for a
      toggle. */
  function Seen(kind: Kind, i: Intent): Intent {
    match kind
    case PostCreate => Untimed(PostIntent(if i.PostIntent? then i.post else ZERO_POST))
    case PostUpdate => Untimed(PostIntent(if i.PostIntent? then i.post else ZERO_POST))
    case RuleCreate => RuleIntent(if i.RuleIntent? then i.rule else ZERO_RULE)
    case RuleSetEnabled => RuleIntent(ZERO_RULE.(enabled := i.RuleIntent? && i.rule.enabled))
    case DependencyAdd => EdgeIntent(if i.EdgeIntent? then i.dependsOn else "")
    case PostDelete => NoPayload
    case Unknown(_) => NoPayload
  }

  /** The kind of the earlier operation is never compared. For every pair of kinds,
      a request that reuses an ID is recognized exactly when it names the same
      object at the same revision and what its kind decodes from the earlier
      intent is what it asks for. */
  lemma RetryOfAnyKind(kind: Kind, op: Operation, first: Intent, again: Intent, json0: string, json1: string,
                       index: nat, term: nat, reported: int, objectId: Id, revision: int)
    requires Fits(op.kind, first) && Fits(kind, again)
    requires op.payload == Encode(first, json0) && op.digest.Some?
    ensures
      SemanticallyEquivalent(kind, Recorded(op, index, term, reported), objectId, revision, Encode(again, json1)) <==>
      objectId == op.objectId && revision == op.revision && Seen(kind, first) == Untimed(again)
  {
  }

  /** A request asks for something: a named post, a rule of some post, or an edge
      to some post. */
  predicate Substantial(kind: Kind, i: Intent) {
    && (i.PostIntent? ==> i.post.name != "")
    && (kind.RuleCreate? && i.RuleIntent? ==> i.rule.postId != "")
    && (i.EdgeIntent? ==> i.dependsOn != "")
  }

  /** When a request is answered with an operation of another kind: a deletion with
      anything, a creation and an update of a post with each other if they ask for
      the same, a toggle with a rule creation of the same flag, and a toggle to
      disabled with anything that is not about a rule. */
  predicate Confused(earlier: Kind, first: Intent, kind: Kind, again: Intent) {
    || kind.PostDelete?
    || ((kind.PostCreate? || kind.PostUpdate?) && (earlier.PostCreate? || earlier.PostUpdate?)
        && Untimed(first) == Untimed(again))
    || (kind.RuleSetEnabled? && again.RuleIntent? && again.rule.enabled == (first.RuleIntent? && first.rule.enabled))
  }

  lemma AnsweredAcrossKinds(s: State, id: Id, op: Operation, kind: Kind, first: Intent, again: Intent, json0: string,
                            json1: string, index: nat, term: nat, reported: int, objectId: Id, revision: int,
                            domainRevision: int, digest: Option<string>)
    requires s.mem.failure.None? && op.digest.Some? && json0 != "" && op.payload == Encode(first, json0)
    requires id in s.mem.applied && s.mem.applied[id] == Recorded(op, index, term, reported)
    requires Fits(op.kind, first) && Fits(kind, again) && kind != op.kind && Substantial(kind, again)
    ensures
      var d := Decide(s, id, kind, objectId, revision, domainRevision, Encode(again, json1), digest);
      if objectId == op.objectId && revision == op.revision && Confused(op.kind, first, kind, again) then
        d == Answered(Recorded(op, index, term, reported).result)
      else d == RefusedDifferent
  {
    RetryOfAnyKind(kind, op, first, again, json0, json1, index, term, reported, objectId, revision);
  }

  /** In particular a deletion that reuses the ID of any earlier operation on the
      same object and revision is answered as if it had been done. */
  lemma DeleteRetryIgnoresKind(op: Operation, index: nat, term: nat, reported: int, objectId: Id, revision: int,
                               payload: Payload)
    requires op.digest.Some?
    ensures SemanticallyEquivalent(PostDelete, Recorded(op, index, term, reported), objectId, revision, payload) <==>
            objectId == op.objectId && revision == op.revision
  {
  }

  /** A creation followed by a deletion that reuses its ID: the deletion is
      answered with the creation's result and the post stays. */
  lemma ReusedIdKeepsPost(json: string, digest: Option<string>)
    requires json != ""
    ensures
      var op := Build("req", PostCreate, "a", 0, 0, Encode(PostIntent(ZERO_POST), json), Some(""));
      var s := Apply(Open(FRESH_DISK).value, LogEntry(1, Command(op)), 1, false);
      var d := Decide(s, "req", PostDelete, "a", 0, 0, Encode(NoPayload, "null"), digest);
      "a" in s.disk.tables.posts && d.Answered? && d.result.kind == PostCreate
  {
    var op := Build("req", PostCreate, "a", 0, 0, Encode(PostIntent(ZERO_POST), json), Some(""));
    var s := Apply(Open(FRESH_DISK).value, LogEntry(1, Command(op)), 1, false);
    assert s.mem.applied["req"] == Recorded(op, 1, 1, 1);
  }

  function RuleOn(post: Id): RulePayload { ZERO_RULE.(postId := post, operator := "gt", enabled := true) }

  /** A new replica that has created post "a" and rule "a" on it. */
  ghost function WithRule(json: string): State {
    var create := Build("1", PostCreate, "a", 0, 0, Encode(PostIntent(ZERO_POST), json), Some("1"));
    var rule := Build("2", RuleCreate, "a", 0, 0, Encode(RuleIntent(RuleOn("a")), json), Some("2"));
    var s := Apply(Open(FRESH_DISK).value, LogEntry(1, Command(create)), 1, false);
    Apply(s, LogEntry(1, Command(rule)), 2, false)
  }

  lemma WithRuleTables(json: string)
    ensures
      var s := WithRule(json);
      && s.mem.failure.None? && s.mem.persistedIndex == 0 && "req" !in s.mem.applied
      && s.disk.tables == Tables(map["a" := NewPost(ZERO_POST)], {}, map["a" := NewRule(RuleOn("a"))])
  {
    hide Reaches;
    var create := Build("1", PostCreate, "a", 0, 0, Encode(PostIntent(ZERO_POST), json), Some("1"));
    var s1 := Apply(Open(FRESH_DISK).value, LogEntry(1, Command(create)), 1, false);
    assert s1.disk.tables.posts == map["a" := NewPost(ZERO_POST)];
  }

  /** The post and the rule share an ID and a version. A toggle of the rule that
      reuses the ID of an update of the post is answered with that update, and the
      rule stays enabled. */
  lemma ReusedIdKeepsRule(json: string, digest: Option<string>)
    requires json != ""
    ensures
      var update := Build("req", PostUpdate, "a", 1, 0, Encode(PostIntent(ZERO_POST), json), Some("3"));
      var s := Apply(WithRule(json), LogEntry(1, Command(update)), 3, false);
      var d := Decide(s, "req", RuleSetEnabled, "a", 1, 0, Encode(RuleIntent(ZERO_RULE), json), digest);
      && s.mem.failure.None? && "a" in s.disk.tables.rules
      && s.disk.tables.rules["a"].enabled && s.disk.tables.rules["a"].version == 1
      && d.Answered? && d.result.kind == PostUpdate
  {
    hide WithRule, Reaches;
    WithRuleTables(json);
  }

  /** The revision a rebuilt record reports is the operation's own precondition.
      It equals the one first reported exactly for creations submitted at
      revision 1 and graph operations submitted at revision 0, never for edits. */
  lemma RebuiltRevisionAgrees(t: Tables, rev: int, op: Operation)
    requires Realize(t, rev, op).Realized?
    ensures
      op.revision == Realize(t, rev, op).revision <==>
      || ((op.kind.PostCreate? || op.kind.RuleCreate?) && op.revision == 1)
      || ((op.kind.PostDelete? || op.kind.DependencyAdd?) && op.revision == 0)
  {
  }

  /** A creation submitted at revision 0 reports revision 1; after a restart and
      replay its record reports 0. */
  lemma RebuiltRevisionDiffers(payload: Payload, post: PostPayload)
    requires payload.post == Some(post)
    ensures
      var op := Build("req", PostCreate, "a", 0, 0, payload, Some("digest"));
      var e := LogEntry(1, Command(op));
      var first := Apply(Open(FRESH_DISK).value, e, 1, false);
      var again := Apply(Open(first.disk).value, e, 1, false);
      && first.mem.applied.Keys == again.mem.applied.Keys == {"req"}
      && first.mem.applied["req"].result.revision == 1 && again.mem.applied["req"].result.revision == 0
  {
  }
}
