/** The standalone path: the same definitions changed by local transactions, and
    its agreement with the replicated operations. */
module Standalone {
  import opened Outcomes
  import opened Graph
  import opened Definitions

  const POST_KINDS: set<string> := {"host", "http_endpoint", "tcp_service", "tls_certificate", "network_device", "ups",
                                    "environmental_sensor", "storage_appliance"}
  const MISSING_POLICIES: set<string> := {"unknown", "healthy", "firing"}
  const SECOND := 1_000_000_000

  /** A post as a caller submits it; json is the encoding of its labels. */
  datatype PostRequest = PostRequest(name: string, kind: string, address: string, owner: string,
                                     labels: map<string, string>, json: string, maintenance: bool, archived: bool)

  /** A rule as a caller submits it; the duration is in nanoseconds. */
  datatype RuleRequest = RuleRequest(postId: Id, signal: string, operator: string, threshold: real, duration: int,
                                     recovery: Option<real>, missingPolicy: string, severity: string, enabled: bool)

  datatype Request =
    | CreatePost(id: Id, post: PostRequest, now: string)
    | UpdatePost(id: Id, expected: int, post: PostRequest, now: string)
    | DeletePost(id: Id)
    | AddDependency(id: Id, depends: Id)
    | CreateRule(id: Id, rule: RuleRequest)
    | SetEnabled(id: Id, enabled: bool)

  predicate LowerAlnum(c: char) { ('a' <= c <= 'z') || ('0' <= c <= '9') }

  predicate ValidId(id: Id) {
    && 1 <= |id| <= 63 && LowerAlnum(id[0])
    && forall i | 0 <= i < |id| :: LowerAlnum(id[i]) || id[i] == '-'
  }

  predicate ValidPost(id: Id, p: PostRequest) {
    && ValidId(id) && 1 <= |p.name| <= 120 && |p.address| <= 255 && p.kind in POST_KINDS && |p.labels| <= 32
    && forall k | k in p.labels :: |k| <= 63 && |p.labels[k]| <= 255
  }

  predicate ValidRule(id: Id, r: RuleRequest) {
    && id != "" && r.postId != "" && r.signal != ""
    && r.operator in OPERATORS && r.missingPolicy in MISSING_POLICIES && r.duration >= 0
  }

  /** Checks made before either path is taken. */
  predicate Valid(q: Request) {
    match q
    case CreatePost(id, p, _) => ValidPost(id, p)
    case UpdatePost(id, _, p, _) => ValidPost(id, p)
    case DeletePost(_) => true
    case AddDependency(id, depends) => id != depends
    case CreateRule(id, r) => ValidRule(id, r)
    case SetEnabled(_, _) => true
  }

  function RuleOf(r: RuleRequest): RulePayload {
    RulePayload(r.postId, r.signal, r.operator, r.threshold, r.duration / SECOND, r.recovery, r.missingPolicy,
                r.severity, r.enabled)
  }

  /** The effect of an accepted standalone request on the three tables. */
  ghost function Local(t: Tables, q: Request): Option<Tables> {
    if !Valid(q) then None
    else match q
      case CreatePost(id, p, now) =>
        if id in t.posts then None
        else Some(t.(posts := t.posts[id := PostRow(p.name, p.kind, p.address, p.owner, p.json, p.maintenance, false, 1,
                                                    now, now)]))
      case UpdatePost(id, expected, p, now) =>
        if id !in t.posts || t.posts[id].version != expected then None
        else Some(t.(posts := t.posts[id := PostRow(p.name, t.posts[id].kind, p.address, p.owner, p.json, p.maintenance,
                                                    p.archived, expected + 1, t.posts[id].createdAt, now)]))
      case DeletePost(id) => if id !in t.posts then None else Some(WithoutPost(t, id))
      case AddDependency(id, depends) =>
        if EdgeAllowed(t, id, depends) then Some(t.(edges := t.edges + {(id, depends)})) else None
      case CreateRule(id, r) =>
        if id in t.rules || r.postId !in t.posts then None
        else Some(t.(rules := t.rules[id := NewRule(RuleOf(r))]))
      case SetEnabled(id, enabled) =>
        if id !in t.rules then None
        else Some(t.(rules := t.rules[id := t.rules[id].(enabled := enabled, version := t.rules[id].version + 1)]))
  }

  class Store {
    var tables: Tables

    constructor ()
      ensures tables == EMPTY_TABLES
    {
      tables := EMPTY_TABLES;
    }

    twostate predicate Did(q: Request, ok: bool)
      reads this
    {
      var after := old(Local(tables, q));
      ok == after.Some? && tables == if ok then after.value else old(tables)
    }

    method Create(id: Id, p: PostRequest, now: string) returns (ok: bool)
      modifies this
      ensures Did(CreatePost(id, p, now), ok)
    {
      if !ValidPost(id, p) || id in tables.posts { return false; }
      tables := tables.(posts := tables.posts[id := PostRow(p.name, p.kind, p.address, p.owner, p.json, p.maintenance,
                                                            false, 1, now, now)]);
      return true;
    }

    method Update(id: Id, expected: int, p: PostRequest, now: string) returns (ok: bool)
      modifies this
      ensures Did(UpdatePost(id, expected, p, now), ok)
    {
      if !ValidPost(id, p) { return false; }
      var posts, affected := tables.posts, 0;
      if id in posts && posts[id].version == expected {
        var row := posts[id];
        posts := posts[id := row.(name := p.name, address := p.address, owner := p.owner, labels := p.json,
                                  maintenance := p.maintenance, archived := p.archived, version := row.version + 1,
                                  updatedAt := now)];
        affected := 1;
      }
      if affected != 1 { return false; }
      tables := tables.(posts := posts);
      return true;
    }

    method Delete(id: Id) returns (ok: bool)
      modifies this
      ensures Did(DeletePost(id), ok)
    {
      if id !in tables.posts { return false; }
      var t := tables;
      t := t.(rules := map r | r in t.rules && t.rules[r].postId != id :: t.rules[r]);
      t := t.(edges := set e | e in t.edges && e.0 != id && e.1 != id);
      t := t.(posts := t.posts - {id});
      tables := t;
      return true;
    }

    /** The cycle query runs first; the insert itself then enforces the keys. */
    method AddEdge(id: Id, depends: Id) returns (ok: bool)
      modifies this
      ensures Did(AddDependency(id, depends), ok)
    {
      if id == depends { return false; }
      var cycle := CountReach(tables.edges, depends, id);
      if cycle > 0 { return false; }
      if id !in tables.posts || depends !in tables.posts || (id, depends) in tables.edges { return false; }
      tables := tables.(edges := tables.edges + {(id, depends)});
      return true;
    }

    method AddRule(id: Id, r: RuleRequest) returns (ok: bool)
      modifies this
      ensures Did(CreateRule(id, r), ok)
    {
      if !ValidRule(id, r) || id in tables.rules || r.postId !in tables.posts { return false; }
      tables := tables.(rules := tables.rules[id := NewRule(RuleOf(r))]);
      return true;
    }

    method Toggle(id: Id, enabled: bool) returns (ok: bool)
      modifies this
      ensures Did(SetEnabled(id, enabled), ok)
    {
      if id !in tables.rules { return false; }
      var row := tables.rules[id];
      tables := tables.(rules := tables.rules[id := row.(enabled := enabled, version := row.version + 1)]);
      return true;
    }
  }

  // ----- In other words

  /** What is refused before any table is looked at. */
  lemma RefusesInvalid(t: Tables, q: Request)
    requires
      match q
      case CreatePost(id, p, _) => BadPost(id, p)
      case UpdatePost(id, _, p, _) => BadPost(id, p)
      case AddDependency(id, depends) => id == depends
      case CreateRule(id, r) =>
        || id == "" || r.postId == "" || r.signal == "" || r.duration < 0
        || (r.operator != "gt" && r.operator != "gte" && r.operator != "lt" && r.operator != "lte")
        || (r.missingPolicy != "unknown" && r.missingPolicy != "healthy" && r.missingPolicy != "firing")
      case _ => false
    ensures Local(t, q).None?
  {
  }

  /** What makes a post unacceptable: an ID that is empty, over 63 characters or of
      other characters, no name or one over 120, an address over 255, an unknown
      kind, more than 32 labels, or a label over 63 or a value over 255. */
  predicate BadPost(id: Id, p: PostRequest) {
    || id == "" || |id| > 63 || (id != "" && id[0] == '-')
    || (exists i | 0 <= i < |id| :: !('a' <= id[i] <= 'z' || '0' <= id[i] <= '9' || id[i] == '-'))
    || p.name == "" || |p.name| > 120 || |p.address| > 255 || |p.labels| > 32
    || p.kind !in {"host", "http_endpoint", "tcp_service", "tls_certificate", "network_device", "ups",
                   "environmental_sensor", "storage_appliance"}
    || (exists k | k in p.labels :: |k| > 63 || |p.labels[k]| > 255)
  }

  lemma BadPostExactly(id: Id, p: PostRequest)
    ensures BadPost(id, p) <==> !ValidPost(id, p)
  {
  }

  /** A created post has the fields of the request, except that it is not archived. */
  lemma CreatedLocally(t: Tables, id: Id, p: PostRequest, now: string)
    requires Local(t, CreatePost(id, p, now)).Some?
    ensures
      var after := Local(t, CreatePost(id, p, now)).value;
      && id !in t.posts && after.posts.Keys == t.posts.Keys + {id} && after.edges == t.edges && after.rules == t.rules
      && (forall x | x in t.posts :: after.posts[x] == t.posts[x])
      && after.posts[id] == PostRow(p.name, p.kind, p.address, p.owner, p.json, p.maintenance, false, 1, now, now)
  {
    hide ValidPost;
  }

  /** A created rule has the fields of the request, its duration in whole seconds. */
  lemma RuleCreatedLocally(t: Tables, id: Id, r: RuleRequest)
    requires Local(t, CreateRule(id, r)).Some?
    ensures
      var after := Local(t, CreateRule(id, r)).value;
      && id !in t.rules && after.rules.Keys == t.rules.Keys + {id} && after.edges == t.edges && after.posts == t.posts
      && (forall x | x in t.rules :: after.rules[x] == t.rules[x])
      && after.rules[id] == RuleRow(r.postId, r.signal, r.operator, r.threshold, r.duration / 1_000_000_000, r.recovery,
                                    r.missingPolicy, r.severity, r.enabled, 1)
  {
    hide ValidRule;
  }

  // ----- Agreement with the replicated operations

  function PostPayloadOf(p: PostRequest, now: string): PostPayload {
    PostPayload(p.name, p.kind, p.address, p.owner, p.json, p.maintenance, p.archived, now, now)
  }

  /** The operation the replicated path submits for a request: toggles carry the
      version they read (0 when the rule is missing), graph operations the
      current graph revision. */
  function Submitted(t: Tables, rev: int, q: Request, opId: Id, digest: string): Operation {
    var none := Payload("json", None, None, None);
    match q
    case CreatePost(id, p, now) =>
      Operation(opId, SUPPORTED_VERSION, PostCreate, id, 0, 0, none.(post := Some(PostPayloadOf(p, now))), Some(digest))
    case UpdatePost(id, expected, p, now) =>
      Operation(opId, SUPPORTED_VERSION, PostUpdate, id, expected, 0, none.(post := Some(PostPayloadOf(p, now))),
          Some(digest))
    case DeletePost(id) => Operation(opId, SUPPORTED_VERSION, PostDelete, id, 0, rev, none, Some(digest))
    case AddDependency(id, depends) =>
      Operation(opId, SUPPORTED_VERSION, DependencyAdd, id, 0, rev, none.(dependsOn := Some(depends)), Some(digest))
    case CreateRule(id, r) =>
      Operation(opId, SUPPORTED_VERSION, RuleCreate, id, 0, 0, none.(rule := Some(RuleOf(r))), Some(digest))
    case SetEnabled(id, enabled) =>
      Operation(opId, SUPPORTED_VERSION, RuleSetEnabled, id, if id in t.rules then t.rules[id].version else 0, 0,
                none.(rule := Some(RulePayload("", "", "", 0.0, 0, None, "", "", enabled))), Some(digest))
  }

  /** The one request on which the two paths differ: standalone creation drops
      the archived flag. */
  predicate DropsArchived(q: Request) { q.CreatePost? && q.post.archived }

  /** Both paths accept, or neither does; accepted, they leave the same tables
      exactly when the request is not the creation of an archived post. */
  ghost predicate Agree(t: Tables, rev: int, q: Request, opId: Id, digest: string) {
    var z, local := Realize(t, rev, Submitted(t, rev, q, opId, digest)), Local(t, q);
    && (local.Some? <==> z.Realized?)
    && (local.Some? ==> (local.value == z.tables <==> !DropsArchived(q)))
    && (local.Some? ==> "" !in local.value.posts)
  }

  lemma CreationsAgree(t: Tables, rev: int, q: Request, opId: Id, digest: string)
    requires Valid(q) && "" !in t.posts && q.CreatePost?
    ensures Agree(t, rev, q, opId, digest)
  {
    if q.id !in t.posts {
      var z, local := Realize(t, rev, Submitted(t, rev, q, opId, digest)), Local(t, q);
      assert z.tables.posts[q.id].archived == q.post.archived && !local.value.posts[q.id].archived;
    }
  }

  lemma PostEditsAgree(t: Tables, rev: int, q: Request, opId: Id, digest: string)
    requires Valid(q) && "" !in t.posts && (q.UpdatePost? || q.DeletePost?)
    ensures Agree(t, rev, q, opId, digest)
  {
  }

  lemma EdgesAgree(t: Tables, rev: int, q: Request, opId: Id, digest: string)
    requires Valid(q) && "" !in t.posts && q.AddDependency?
    ensures Agree(t, rev, q, opId, digest)
  {
  }

  lemma RulesAgree(t: Tables, rev: int, q: Request, opId: Id, digest: string)
    requires Valid(q) && "" !in t.posts && (q.CreateRule? || q.SetEnabled?)
    ensures Agree(t, rev, q, opId, digest)
  {
  }

  /** For a valid request and the operation submitted for it at once, the two
      paths agree, archived creations being the one exception. */
  lemma PathsAgree(t: Tables, rev: int, q: Request, opId: Id, digest: string)
    requires Valid(q) && "" !in t.posts
    ensures
      var z, local := Realize(t, rev, Submitted(t, rev, q, opId, digest)), Local(t, q);
      && (local.Some? <==> z.Realized?)
      && (local.Some? ==> (local.value == z.tables <==> !DropsArchived(q)))
      && (local.Some? ==> "" !in local.value.posts)
  {
    assert Agree(t, rev, q, opId, digest) by {
      match q {
        case CreatePost(_, _, _) => CreationsAgree(t, rev, q, opId, digest);
        case UpdatePost(_, _, _, _) => PostEditsAgree(t, rev, q, opId, digest);
        case DeletePost(_) => PostEditsAgree(t, rev, q, opId, digest);
        case AddDependency(_, _) => EdgesAgree(t, rev, q, opId, digest);
        case _ => RulesAgree(t, rev, q, opId, digest);
      }
    }
  }

  /** The exception: an archived post comes out active on the standalone path and
      archived on the other. */
  lemma ArchivedCreationDiffers(p: PostRequest, now: string)
    requires ValidPost("a", p) && p.archived
    ensures
      var q := CreatePost("a", p, now);
      var z, local := Realize(EMPTY_TABLES, 0, Submitted(EMPTY_TABLES, 0, q, "req", "digest")), Local(EMPTY_TABLES, q);
      z.Realized? && local.Some? && z.tables.posts["a"].archived && !local.value.posts["a"].archived
  {
  }

  ghost function LocalAll(t: Tables, qs: seq<Request>): Option<Tables>
    decreases |qs|
  {
    if qs == [] then Some(t)
    else match Local(t, qs[0]) case None => None case Some(next) => LocalAll(next, qs[1..])
  }

  /** The replicated path, each request submitted once the previous one is in. */
  ghost function ReplicatedAll(t: Tables, rev: int, qs: seq<Request>): Realization
    decreases |qs|
  {
    if qs == [] then Realized(t, rev, 0)
    else match Realize(t, rev, Submitted(t, rev, qs[0], "", ""))
      case Unrealizable => Unrealizable
      case Realized(next, newRev, _) => ReplicatedAll(next, newRev, qs[1..])
  }

  /** Mode equivalence: any sequence of valid requests that creates no archived
      post is accepted by both paths or by neither, with the same tables. */
  lemma {:induction false} ModesAgree(t: Tables, rev: int, qs: seq<Request>)
    requires "" !in t.posts && forall q | q in qs :: Valid(q) && !DropsArchived(q)
    ensures LocalAll(t, qs).Some? <==> ReplicatedAll(t, rev, qs).Realized?
    ensures LocalAll(t, qs).Some? ==> LocalAll(t, qs).value == ReplicatedAll(t, rev, qs).tables
    decreases |qs|
  {
    if qs != [] {
      PathsAgree(t, rev, qs[0], "", "");
      var z := Realize(t, rev, Submitted(t, rev, qs[0], "", ""));
      if z.Realized? { ModesAgree(z.tables, z.graphRev, qs[1..]); }
    }
  }
}
