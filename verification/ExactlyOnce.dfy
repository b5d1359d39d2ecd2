/** A client that sends uniquely named batches one at a time, retrying each until
    it is acknowledged, over a network that loses requests and replies and delivers
    copies late. */
module ExactlyOnce {
  import opened Outcomes
  import opened Telemetry
  import opened TelemetryRuns

  datatype ClientBatch = ClientBatch(id: string, obs: seq<Observation>)

  /** The server's database, how many batches the client saw acknowledged, the
      observations accepted for it so far, and whether retention has removed any
      rows meanwhile. */
  datatype Net = Net(db: Db, acked: nat, accepted: seq<Observation>, pruned: bool)

  /** The client sends its current batch, a copy of an earlier request arrives
      late, or something else happens. */
  datatype Move =
    | Send(secret: Secret, now: int, allowed: bool, requestLost: bool, replyLost: bool)
    | Late(j: nat, secret: Secret, now: int, allowed: bool)
    | Elsewhere(ev: Event)

  /** The observations stored for one collector, in order. */
  function Stream(rows: seq<Row>, c: Id): seq<Observation> {
    if rows == [] then []
    else (if rows[0].obs.collector == c then [rows[0].obs] else []) + Stream(rows[1..], c)
  }

  function Concatenated(batches: seq<ClientBatch>, k: nat): seq<Observation>
    requires k <= |batches|
  {
    if k == 0 then [] else Concatenated(batches, k - 1) + batches[k - 1].obs
  }

  /** What the client undertakes: named batches, all names different, each one
      addressed to its own collector. */
  ghost predicate Plan(c: Id, batches: seq<ClientBatch>) {
    && (forall i | 0 <= i < |batches| ::
          batches[i].id != "" && batches[i].obs != [] && batches[i].obs[0].collector == c)
    && (forall i, j | 0 <= i < j < |batches| :: batches[i].id != batches[j].id)
  }

  /** Events that do not store anything for c, pair c again or reissue its
      credential. Attempts that are refused, retention, rotation, revocation and
      everything on other keys stay. */
  predicate Apart(db: Db, c: Id, ev: Event) {
    match ev
    case Batch(secret, batch, id, now, allowed) =>
      BatchOutcome(db, secret, batch, id, now, allowed).Accepted? ==> batch[0].collector != c
    case Single(secret, o, now, allowed) => SingleAccepted(db, secret, o, now, allowed) ==> o.collector != c
    case Source(source, readings, _) => SourceAccepted(db, source, readings) ==> source.id != c
    case TokenConsumed(token, key, _, now) => CanConsume(db, token, key, now) ==> key != c
    case Polled(request, secret, issued, now) =>
      PollOutcome(db, request, secret, issued, now).PollEnrolled? ==> db.requests[request].installation != c
    case _ => true
  }

  function Step(batches: seq<ClientBatch>, s: Net, m: Move): Net {
    match m
    case Elsewhere(ev) => s.(db := After(s.db, ev), pruned := s.pruned || ev.Retention?)
    case Late(j, secret, now, allowed) =>
      if j >= s.acked || j >= |batches| then s
      else
        var b := batches[j];
        s.(db := AfterBatch(s.db, secret, b.obs, b.id, now, allowed),
           accepted := if BatchOutcome(s.db, secret, b.obs, b.id, now, allowed).Accepted? then s.accepted + b.obs
                       else s.accepted)
    case Send(secret, now, allowed, requestLost, replyLost) =>
      if requestLost || s.acked >= |batches| then s
      else
        var b := batches[s.acked];
        var reply := BatchOutcome(s.db, secret, b.obs, b.id, now, allowed);
        Net(AfterBatch(s.db, secret, b.obs, b.id, now, allowed),
            if !replyLost && !reply.Rejected? then s.acked + 1 else s.acked,
            if reply.Accepted? then s.accepted + b.obs else s.accepted, s.pruned)
  }

  function Play(batches: seq<ClientBatch>, s: Net, moves: seq<Move>): Net
    decreases |moves|
  {
    if moves == [] then s else Play(batches, Step(batches, s, moves[0]), moves[1..])
  }

  ghost predicate AllApart(c: Id, batches: seq<ClientBatch>, s: Net, moves: seq<Move>)
    decreases |moves|
  {
    moves != [] ==>
      && (moves[0].Elsewhere? ==> Apart(s.db, c, moves[0].ev))
      && AllApart(c, batches, Step(batches, s, moves[0]), moves[1..])
  }

  /** How many batches the server holds: the acknowledged ones, and the current
      one when its name is the last the server saw. */
  function Held(c: Id, batches: seq<ClientBatch>, s: Net): nat
    requires c in s.db.keys
  {
    if s.acked < |batches| && s.db.keys[c].lastBatch == batches[s.acked].id then s.acked + 1 else s.acked
  }

  /** a is what b leaves when some of its elements are removed. */
  predicate Thinned(a: seq<Observation>, b: seq<Observation>)
    decreases |b|
  {
    if b == [] then a == []
    else (a != [] && a[0] == b[0] && Thinned(a[1..], b[1..])) || Thinned(a, b[1..])
  }

  /** Stored is what was accepted: all of it until retention runs, and afterwards
      some of it, in order. */
  ghost predicate StoredFrom(c: Id, s: Net) {
    && (!s.pruned ==> Stream(s.db.rows, c) == s.accepted)
    && Thinned(Stream(s.db.rows, c), s.accepted)
  }

  /** The key is past the first sequence number of the batch. */
  predicate Passed(k: KeyRow, b: ClientBatch) { b.obs != [] ==> b.obs[0].sequence <= k.last }

  ghost predicate InStep(c: Id, batches: seq<ClientBatch>, base: seq<Observation>, s: Net) {
    && c in s.db.keys && s.acked <= |batches|
    && (forall j | s.acked < j < |batches| :: s.db.keys[c].lastBatch != batches[j].id)
    && s.accepted == base + Concatenated(batches, Held(c, batches, s))
    && StoredFrom(c, s) && (forall j | 0 <= j < Held(c, batches, s) :: Passed(s.db.keys[c], batches[j]))
  }

  lemma StreamEmpty(c: Id)
    ensures Stream([], c) == []
  {
  }

  lemma StreamHead(row: Row, rest: seq<Row>, c: Id)
    ensures Stream([row] + rest, c) == (if row.obs.collector == c then [row.obs] else []) + Stream(rest, c)
  {
    assert ([row] + rest)[1..] == rest;
  }

  lemma {:induction false} StreamAppend(rows: seq<Row>, more: seq<Row>, c: Id)
    ensures Stream(rows + more, c) == Stream(rows, c) + Stream(more, c)
  {
    hide Stream;
    if rows == [] {
      StreamEmpty(c);
      assert rows + more == more;
    } else {
      StreamHead(rows[0], rows[1..] + more, c);
      StreamHead(rows[0], rows[1..], c);
      StreamAppend(rows[1..], more, c);
      assert rows + more == [rows[0]] + (rows[1..] + more) && rows == [rows[0]] + rows[1..];
    }
  }

  lemma {:induction false} StreamStamped(batch: seq<Observation>, now: int, c: Id)
    ensures (forall o | o in batch :: o.collector == c) ==> Stream(Stamped(batch, now), c) == batch
    ensures (forall o | o in batch :: o.collector != c) ==> Stream(Stamped(batch, now), c) == []
  {
    if batch != [] {
      assert Stamped(batch, now)[1..] == Stamped(batch[1..], now);
      StreamStamped(batch[1..], now, c);
    }
  }

  lemma {:induction false} StreamWithout(rows: seq<Row>, other: Id, c: Id)
    requires other != c
    ensures Stream(WithoutCollector(rows, other), c) == Stream(rows, c)
  {
    if rows != [] {
      StreamWithout(rows[1..], other, c);
      if rows[0].obs.collector != other {
        assert ([rows[0]] + WithoutCollector(rows[1..], other))[1..] == WithoutCollector(rows[1..], other);
      }
    }
  }

  lemma {:induction false} ThinnedSelf(a: seq<Observation>)
    ensures Thinned(a, a)
  {
    if a != [] { ThinnedSelf(a[1..]); }
  }

  lemma {:induction false} ThinnedAppend(a: seq<Observation>, b: seq<Observation>, more: seq<Observation>)
    requires Thinned(a, b)
    ensures Thinned(a + more, b + more)
    decreases |b|
  {
    if b == [] {
      assert a + more == more && b + more == more;
      ThinnedSelf(more);
    } else {
      assert (b + more)[1..] == b[1..] + more;
      if a != [] && a[0] == b[0] && Thinned(a[1..], b[1..]) {
        assert (a + more)[1..] == a[1..] + more;
        ThinnedAppend(a[1..], b[1..], more);
      } else {
        ThinnedAppend(a, b[1..], more);
      }
    }
  }

  lemma {:induction false} ThinnedTwice(a: seq<Observation>, b: seq<Observation>, d: seq<Observation>)
    requires Thinned(a, b) && Thinned(b, d)
    ensures Thinned(a, d)
    decreases |d|
  {
    if d != [] {
      if b != [] && b[0] == d[0] && Thinned(b[1..], d[1..]) {
        if a != [] && a[0] == b[0] && Thinned(a[1..], b[1..]) {
          ThinnedTwice(a[1..], b[1..], d[1..]);
        } else {
          ThinnedTwice(a, b[1..], d[1..]);
        }
      } else {
        ThinnedTwice(a, b, d[1..]);
      }
    }
  }

  /** Retention thins every collector's stream. */
  lemma {:induction false} PrunedThins(rows: seq<Row>, before: int, limit: nat, c: Id)
    ensures Thinned(Stream(Pruned(rows, before, limit), c), Stream(rows, c))
  {
    if rows == [] || limit == 0 {
      ThinnedSelf(Stream(rows, c));
    } else {
      var rest := rows[1..];
      assert rows == [rows[0]] + rest;
      StreamHead(rows[0], rest, c);
      if rows[0].obs.observedAt < before {
        PrunedThins(rest, before, limit - 1, c);
        ThinnedHead(Stream(Pruned(rest, before, limit - 1), c), Stream(rest, c), rows[0].obs);
      } else {
        PrunedThins(rest, before, limit, c);
        assert Pruned(rows, before, limit) == [rows[0]] + Pruned(rest, before, limit);
        StreamHead(rows[0], Pruned(rest, before, limit), c);
        ThinnedHead(Stream(Pruned(rest, before, limit), c), Stream(rest, c), rows[0].obs);
      }
    }
  }

  lemma ThinnedHead(a: seq<Observation>, b: seq<Observation>, o: Observation)
    requires Thinned(a, b)
    ensures Thinned(a, [o] + b) && Thinned([o] + a, [o] + b) && Thinned(a, [] + b) && Thinned([] + a, [] + b)
  {
    var longer, both := [o] + b, [o] + a;
    assert longer[1..] == b && both[1..] == a && [] + b == b && [] + a == a;
    assert Thinned(a, longer[1..]) && Thinned(both[1..], longer[1..]);
  }

  /** The collector's stream, position and last batch are as they were. */
  predicate KeptFor(db: Db, after: Db, c: Id)
    requires c in db.keys
  {
    && c in after.keys && after.keys[c].last == db.keys[c].last && after.keys[c].lastBatch == db.keys[c].lastBatch
    && Stream(after.rows, c) == Stream(db.rows, c)
  }

  /** What a batch does to the stream of its collector, and of any other. */
  lemma BatchAppends(db: Db, c: Id, secret: Secret, batch: seq<Observation>, id: string, now: int, allowed: bool)
    requires c in db.keys && BatchOutcome(db, secret, batch, id, now, allowed).Accepted?
    ensures
      var after := AfterBatch(db, secret, batch, id, now, allowed);
      if batch[0].collector == c then
        && c in after.keys && after.keys[c].lastBatch == id && Stream(after.rows, c) == Stream(db.rows, c) + batch
        && db.keys[c].last < batch[0].sequence <= after.keys[c].last
      else KeptFor(db, after, c)
  {
    StreamAppend(db.rows, Stamped(batch, now), c);
    StreamStamped(batch, now, c);
  }

  lemma SingleElsewhere(db: Db, c: Id, secret: Secret, o: Observation, now: int, allowed: bool)
    requires c in db.keys && (SingleAccepted(db, secret, o, now, allowed) ==> o.collector != c)
    ensures KeptFor(db, AfterSingle(db, secret, o, now, allowed), c)
  {
    if SingleAccepted(db, secret, o, now, allowed) { StreamAppend(db.rows, [Row(o, now)], c); }
  }

  lemma SourceElsewhere(db: Db, c: Id, source: SourceId, readings: seq<Observation>, now: int)
    requires c in db.keys && (SourceAccepted(db, source, readings) ==> source.id != c)
    ensures KeptFor(db, AfterSource(db, source, readings, now), c)
  {
    if SourceAccepted(db, source, readings) {
      var batch := Numbered(readings, source.id, db.sources[source], db.keys[source.id].last);
      StreamAppend(db.rows, Stamped(batch, now), c);
      StreamStamped(batch, now, c);
    }
  }

  lemma TokenElsewhere(db: Db, c: Id, token: Secret, key: Id, issued: Secret, now: int)
    requires c in db.keys && (CanConsume(db, token, key, now) ==> key != c)
    ensures KeptFor(db, AfterConsume(db, token, key, issued, now), c)
  {
    if CanConsume(db, token, key, now) { StreamWithout(db.rows, key, c); }
  }

  lemma PollElsewhere(db: Db, c: Id, request: Id, secret: Secret, issued: Secret, now: int)
    requires c in db.keys
    requires PollOutcome(db, request, secret, issued, now).PollEnrolled? ==> db.requests[request].installation != c
    ensures KeptFor(db, AfterPoll(db, request, secret, issued, now), c)
  {
    if PollOutcome(db, request, secret, issued, now).PollEnrolled? {
      StreamWithout(db.rows, db.requests[request].installation, c);
    }
  }

  lemma QuietElsewhere(db: Db, c: Id, ev: Event)
    requires c in db.keys && !TouchesRows(ev)
    ensures KeptFor(db, After(db, ev), c)
  {
    hide Stream, After;
    OtherEvents(db, ev);
  }

  /** Nothing that happens elsewhere touches the collector's stream, position or
      last batch. */
  lemma ApartKeeps(db: Db, c: Id, ev: Event)
    requires c in db.keys && Apart(db, c, ev) && !ev.Retention?
    ensures KeptFor(db, After(db, ev), c)
  {
    hide KeptFor, AfterSingle, AfterSource, AfterConsume, AfterPoll, AfterEnroll, AfterRotate, AfterRevoke, AfterUnpair,
         AfterSave, AfterRequest, AfterToken, AfterDecide, Pruned, BatchOutcome, SingleAccepted, SourceAccepted,
         CanConsume, PollOutcome;
    if !TouchesRows(ev) { QuietElsewhere(db, c, ev); }
    match ev {
      case Batch(secret, batch, id, now, allowed) => BatchElsewhere(db, c, secret, batch, id, now, allowed);
      case Single(secret, o, now, allowed) => SingleElsewhere(db, c, secret, o, now, allowed);
      case Source(source, readings, now) => SourceElsewhere(db, c, source, readings, now);
      case TokenConsumed(token, key, issued, now) => TokenElsewhere(db, c, token, key, issued, now);
      case Polled(request, secret, issued, now) => PollElsewhere(db, c, request, secret, issued, now);
      case _ =>
    }
  }

  lemma BatchElsewhere(db: Db, c: Id, secret: Secret, batch: seq<Observation>, id: string, now: int, allowed: bool)
    requires c in db.keys
    requires BatchOutcome(db, secret, batch, id, now, allowed).Accepted? ==> batch[0].collector != c
    ensures KeptFor(db, AfterBatch(db, secret, batch, id, now, allowed), c)
  {
    if BatchOutcome(db, secret, batch, id, now, allowed).Accepted? {
      BatchAppends(db, c, secret, batch, id, now, allowed);
    }
  }

  lemma ConcatenatedStep(batches: seq<ClientBatch>, k: nat)
    requires k < |batches|
    ensures Concatenated(batches, k + 1) == Concatenated(batches, k) + batches[k].obs
  {
  }

  lemma HeldNow(c: Id, batches: seq<ClientBatch>, s: Net)
    requires s.acked < |batches| && c in s.db.keys && s.db.keys[c].lastBatch != batches[s.acked].id
    ensures Held(c, batches, s) == s.acked
  {
  }

  /** The server held the acknowledged batches, and now holds one more. */
  lemma HeldNext(c: Id, batches: seq<ClientBatch>, s: Net, after: Db, acked: nat)
    requires Plan(c, batches) && s.acked < |batches| && c in s.db.keys && c in after.keys
    requires s.db.keys[c].lastBatch != batches[s.acked].id && after.keys[c].lastBatch == batches[s.acked].id
    requires acked == s.acked || acked == s.acked + 1
    requires s.db.keys[c].last < batches[s.acked].obs[0].sequence <= after.keys[c].last
    requires forall j | 0 <= j < s.acked :: Passed(s.db.keys[c], batches[j])
    ensures forall accepted, pruned :: Held(c, batches, Net(after, acked, accepted, pruned)) == s.acked + 1
    ensures forall j | 0 <= j < s.acked + 1 :: Passed(after.keys[c], batches[j])
  {
    assert s.acked + 1 < |batches| ==> batches[s.acked + 1].id != batches[s.acked].id;
  }

  /** The server took the current batch: it was not held before, and is now. */
  lemma AcceptedInStep(c: Id, batches: seq<ClientBatch>, base: seq<Observation>, s: Net, after: Db, acked: nat)
    requires Plan(c, batches) && InStep(c, batches, base, s) && s.acked < |batches|
    requires s.db.keys[c].lastBatch != batches[s.acked].id
    requires c in after.keys && after.keys[c].lastBatch == batches[s.acked].id
    requires Stream(after.rows, c) == Stream(s.db.rows, c) + batches[s.acked].obs
    requires s.db.keys[c].last < batches[s.acked].obs[0].sequence <= after.keys[c].last
    requires acked == s.acked || acked == s.acked + 1
    ensures InStep(c, batches, base, Net(after, acked, s.accepted + batches[s.acked].obs, s.pruned))
  {
    hide Stream, Concatenated, Thinned, Held, Passed;
    var b := batches[s.acked];
    HeldNow(c, batches, s);
    HeldNext(c, batches, s, after, acked);
    var next := Net(after, acked, s.accepted + b.obs, s.pruned);
    ThinnedAppend(Stream(s.db.rows, c), s.accepted, b.obs);
    assert StoredFrom(c, next);
    ConcatenatedStep(batches, s.acked);
    assert (base + Concatenated(batches, s.acked)) + b.obs == base + (Concatenated(batches, s.acked) + b.obs);
    assert forall j | s.acked < j < |batches| :: batches[j].id != b.id;
  }

  /** The server recognized the current batch. */
  lemma DuplicateInStep(c: Id, batches: seq<ClientBatch>, base: seq<Observation>, s: Net)
    requires Plan(c, batches) && InStep(c, batches, base, s) && s.acked < |batches|
    requires s.db.keys[c].lastBatch == batches[s.acked].id
    ensures InStep(c, batches, base, s.(acked := s.acked + 1))
  {
    assert Held(c, batches, s.(acked := s.acked + 1)) == s.acked + 1;
  }

  lemma SendKeeps(c: Id, batches: seq<ClientBatch>, base: seq<Observation>, s: Net, m: Move)
    requires Plan(c, batches) && InStep(c, batches, base, s) && m.Send?
    ensures InStep(c, batches, base, Step(batches, s, m))
  {
    if !m.requestLost && s.acked < |batches| {
      var b := batches[s.acked];
      var reply := BatchOutcome(s.db, m.secret, b.obs, b.id, m.now, m.allowed);
      var next := Step(batches, s, m);
      if reply.Accepted? {
        BatchAppends(s.db, c, m.secret, b.obs, b.id, m.now, m.allowed);
        AcceptedInStep(c, batches, base, s, next.db, next.acked);
      } else if reply.Duplicate? {
        DuplicateInStep(c, batches, base, s);
      }
    }
  }

  /** A late copy of an acknowledged batch changes nothing: the server is past its
      first sequence number, so it is recognized or refused. */
  lemma LateIgnored(c: Id, batches: seq<ClientBatch>, base: seq<Observation>, s: Net, m: Move)
    requires Plan(c, batches) && InStep(c, batches, base, s) && m.Late?
    ensures Step(batches, s, m) == s
  {
    if m.j < s.acked {
      var b := batches[m.j];
      assert Passed(s.db.keys[c], b) && b.obs[0].collector == c;
    }
  }

  /** Nothing else disturbs it; retention only removes stored rows. */
  lemma ElsewhereKeeps(c: Id, batches: seq<ClientBatch>, base: seq<Observation>, s: Net, ev: Event)
    requires Plan(c, batches) && InStep(c, batches, base, s) && Apart(s.db, c, ev)
    ensures InStep(c, batches, base, Step(batches, s, Elsewhere(ev)))
  {
    hide Stream, Concatenated, Thinned, Pruned;
    if ev.Retention? {
      PrunedThins(s.db.rows, ev.before, ev.limit, c);
      ThinnedTwice(Stream(Pruned(s.db.rows, ev.before, ev.limit), c), Stream(s.db.rows, c), s.accepted);
    } else {
      ApartKeeps(s.db, c, ev);
    }
  }

  /** Exactly once. Whatever requests, replies and acceptances are lost, and however
      often and late copies of earlier requests arrive, what the server has accepted
      for the client is its earlier stream followed by the first k batches, each
      once and in order, where k is the number acknowledged or one more. That is
      also what it stores, less what retention removed. */
  lemma {:induction false} BatchesExactlyOnce(c: Id, batches: seq<ClientBatch>, base: seq<Observation>, s: Net,
                                              moves: seq<Move>)
    requires Plan(c, batches) && InStep(c, batches, base, s) && AllApart(c, batches, s, moves)
    ensures
      var e := Play(batches, s, moves);
      && InStep(c, batches, base, e)
      && (Held(c, batches, e) == e.acked || Held(c, batches, e) == e.acked + 1)
      && e.accepted == base + Concatenated(batches, Held(c, batches, e))
      && (!e.pruned ==> Stream(e.db.rows, c) == e.accepted)
      && Thinned(Stream(e.db.rows, c), e.accepted)
    decreases |moves|
  {
    if moves != [] {
      if moves[0].Send? {
        SendKeeps(c, batches, base, s, moves[0]);
      } else if moves[0].Late? {
        LateIgnored(c, batches, base, s, moves[0]);
      } else {
        ElsewhereKeeps(c, batches, base, s, moves[0].ev);
      }
      BatchesExactlyOnce(c, batches, base, Step(batches, s, moves[0]), moves[1..]);
    }
  }

  /** A client starts in step when none of its names is the server's last one. */
  lemma StartsInStep(c: Id, batches: seq<ClientBatch>, db: Db)
    requires c in db.keys && forall i | 0 <= i < |batches| :: batches[i].id != db.keys[c].lastBatch
    ensures InStep(c, batches, Stream(db.rows, c), Net(db, 0, Stream(db.rows, c), false))
  {
    ThinnedSelf(Stream(db.rows, c));
  }

  /** Pairing again keeps the last batch ID. The first batch sent under the new
      credential is acknowledged without being stored exactly when it reuses
      that ID, and the collector's stored stream is then empty. */
  lemma RepairedFirstBatch(db: Db, token: Secret, c: Id, issued: Secret, now: int, batch: seq<Observation>, id: string,
                           later: int, allowed: bool)
    requires CanConsume(db, token, c, now) && c in db.keys
    requires 1 <= |batch| <= 128 && batch[0].collector == c && batch[0].post == db.keys[c].post
    ensures
      var paired := AfterConsume(db, token, c, issued, now);
      && (BatchOutcome(paired, issued, batch, id, later, allowed).Duplicate? <==>
            id != "" && id == db.keys[c].lastBatch)
      && Stream(paired.rows, c) == []
  {
    StreamOfRemoved(db.rows, c);
  }

  /** The same of pairing by polling an approved request. */
  lemma PolledFirstBatch(db: Db, request: Id, secret: Secret, issued: Secret, now: int, batch: seq<Observation>,
                         id: string, later: int, allowed: bool)
    requires PollOutcome(db, request, secret, issued, now).PollEnrolled? && db.requests[request].state.Approved?
    requires
      var r := db.requests[request];
      r.installation in db.keys && 1 <= |batch| <= 128 && batch[0].collector == r.installation
          && batch[0].post == r.post
    ensures
      var c, paired := db.requests[request].installation, AfterPoll(db, request, secret, issued, now);
      && (BatchOutcome(paired, issued, batch, id, later, allowed).Duplicate? <==>
            id != "" && id == db.keys[c].lastBatch)
      && Stream(paired.rows, c) == []
  {
    StreamOfRemoved(db.rows, db.requests[request].installation);
  }

  /** A collector that is paired again and names its first batch as its last one
      before: the batch is acknowledged and lost, and the pending credential from
      before still opens the key. */
  lemma RepairedBatchLost(o: Observation)
    requires o.collector == "c" && o.post == "p"
    ensures
      var db := Db(map["c" := KeyRow("p", 5, "old", Some(Pending("next", 100)), false, "b1", None)], [],
                   map["t" := Token("p", 100, false)], map[], map[], map[]);
      var paired := AfterConsume(db, "t", "c", "new", 1);
      && CanConsume(db, "t", "c", 1) && BatchOutcome(paired, "new", [o], "b1", 2, true) == Duplicate
      && AfterBatch(paired, "new", [o], "b1", 2, true) == paired && paired.rows == []
      && Opens(paired.keys["c"], "next", 2)
  {
  }

  lemma {:induction false} StreamOfRemoved(rows: seq<Row>, c: Id)
    ensures Stream(WithoutCollector(rows, c), c) == []
  {
    if rows != [] {
      StreamOfRemoved(rows[1..], c);
      if rows[0].obs.collector != c {
        assert ([rows[0]] + WithoutCollector(rows[1..], c))[1..] == WithoutCollector(rows[1..], c);
      }
    }
  }
}
