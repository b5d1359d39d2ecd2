/** Who can obtain, replace or end a credential: what each operation asks for and
    does, and where every credential of a run comes from. */
module Pairing {
  import opened Outcomes
  import opened Telemetry
  import opened TelemetryRuns

  const LIFETIME := 10 * 60 * 1_000_000_000

  // ----- One operation

  lemma {:induction false} WithoutMembers(rows: seq<Row>, c: Id)
    ensures forall row :: row in WithoutCollector(rows, c) <==> row in rows && row.obs.collector != c
  {
    if rows != [] {
      WithoutMembers(rows[1..], c);
      assert rows == [rows[0]] + rows[1..];
    }
  }

  /** A key row as it is after pairing: the new credential opens it, its sequence
      space is empty, and it is neither revoked nor seen. */
  predicate JustPaired(db: Db, after: Db, c: Id, post: Id, issued: Secret) {
    && c in after.keys && after.keys.Keys == db.keys.Keys + {c}
    && (forall x | x in db.keys && x != c :: after.keys[x] == db.keys[x])
    && after.keys[c].post == post && after.keys[c].secret == issued && after.keys[c].last == 0
    && !after.keys[c].revoked && after.keys[c].seenAt.None?
  }

  /** A poll with any other secret than the one the request was made with, or past
      the request's time, or before a decision, or after a refusal, changes nothing
      and is given no credential. */
  lemma StrangerRefused(db: Db, request: Id, secret: Secret, issued: Secret, now: int)
    requires
      || request !in db.requests || db.requests[request].secret != secret || now >= db.requests[request].expires
      || db.requests[request].state.Awaiting? || db.requests[request].state.Refused?
    ensures AfterPoll(db, request, secret, issued, now) == db
    ensures !PollOutcome(db, request, secret, issued, now).PollEnrolled?
  {
  }

  /** A poll in time with the right secret pairs an approved request, under the post
      that was approved, and marks it consumed. */
  lemma ApprovedPollPairs(db: Db, request: Id, secret: Secret, issued: Secret, now: int)
    requires request in db.requests && db.requests[request].secret == secret && now < db.requests[request].expires
    requires db.requests[request].state.Approved?
    ensures PollOutcome(db, request, secret, issued, now) == PollEnrolled(issued)
    ensures
      var r, after := db.requests[request], AfterPoll(db, request, secret, issued, now);
      && JustPaired(db, after, r.installation, r.post, issued)
      && after.requests == db.requests[request := r.(state := Consumed)]
      && r.installation in after.connections && after.connections[r.installation] == Connection(r.post, false)
      && (forall row :: row in after.rows <==> row in db.rows && row.obs.collector != r.installation)
      && after.tokens == db.tokens && after.sources == db.sources
  {
    WithoutMembers(db.rows, db.requests[request].installation);
  }

  /** A consumed request is handed another credential exactly while its key has seen
      no ingest; only the credential changes then. */
  lemma ConsumedPollReissues(db: Db, request: Id, secret: Secret, issued: Secret, now: int)
    requires request in db.requests && db.requests[request].secret == secret && now < db.requests[request].expires
    requires db.requests[request].state.Consumed?
    ensures
      var c, after := db.requests[request].installation, AfterPoll(db, request, secret, issued, now);
      if c in db.keys && db.keys[c].last == 0 && db.keys[c].seenAt.None? then
        && PollOutcome(db, request, secret, issued, now) == PollEnrolled(issued)
        && after == db.(keys := db.keys[c := db.keys[c].(secret := issued)])
      else PollOutcome(db, request, secret, issued, now) == PollRefused && after == db
  {
  }

  /** A request is recorded when it is complete, new, and fewer than a hundred wait. */
  lemma RequestRecorded(db: Db, request: Id, secret: Secret, installation: Id, host: string, platform: string, now: int)
    ensures
      var after := AfterRequest(db, request, secret, installation, host, platform, now);
      if && installation != "" && |secret| >= 32 && host != "" && platform != "" && request !in db.requests
         && |set r | r in db.requests && db.requests[r].state.Awaiting? && db.requests[r].expires > now| < 100
      then after == db.(requests := db.requests[request := Request(secret, installation, Awaiting, "", now + LIFETIME)])
      else after == db
  {
  }

  /** A decision changes the state of a waiting request in time, and nothing else. */
  lemma DecisionRecorded(db: Db, request: Id, post: Id, approve: bool, postOpen: bool, now: int)
    ensures
      var after := AfterDecide(db, request, post, approve, postOpen, now);
      if && request in db.requests && db.requests[request].state.Awaiting? && now < db.requests[request].expires
         && (approve ==> postOpen)
      then
        && after == db.(requests := after.requests) && after.requests.Keys == db.requests.Keys
        && (forall q | q in db.requests && q != request :: after.requests[q] == db.requests[q])
        && after.requests[request].state == (if approve then Approved else Refused)
        && (approve ==> after.requests[request].post == post)
        && after.requests[request].secret == db.requests[request].secret
        && after.requests[request].installation == db.requests[request].installation
        && after.requests[request].expires == db.requests[request].expires
      else after == db
  {
  }

  /** A token is issued for an open post and between one and thirty minutes. */
  lemma TokenRecorded(db: Db, token: Secret, post: Id, lifetime: int, postOpen: bool, now: int)
    ensures
      var minute := 60 * 1_000_000_000;
      AfterToken(db, token, post, lifetime, postOpen, now) ==
      if minute <= lifetime && lifetime <= 30 * minute && postOpen && token !in db.tokens then
        db.(tokens := db.tokens[token := Token(post, now + lifetime, false)])
      else db
  {
  }

  /** A token pairs a key of its own post, or a new one, once and in time; otherwise
      nothing changes. */
  lemma TokenPairs(db: Db, token: Secret, c: Id, issued: Secret, now: int)
    ensures
      var after := AfterConsume(db, token, c, issued, now);
      if && token != "" && c != "" && token in db.tokens && !db.tokens[token].used && now < db.tokens[token].expires
         && (c in db.keys ==> db.keys[c].post == db.tokens[token].post)
      then
        && JustPaired(db, after, c, db.tokens[token].post, issued)
        && after.tokens == db.tokens[token := db.tokens[token].(used := true)]
        && (forall row :: row in after.rows <==> row in db.rows && row.obs.collector != c)
        && after.requests == db.requests && after.connections == db.connections && after.sources == db.sources
      else after == db
  {
    WithoutMembers(db.rows, c);
  }

  /** Enrollment creates a key that nobody had, open to the issued credential. */
  lemma EnrollmentCreates(db: Db, c: Id, post: Id, issued: Secret, s: Secret, now: int)
    ensures
      var after := AfterEnroll(db, c, post, issued);
      if c in db.keys then after == db
      else
        && after == db.(keys := after.keys) && JustPaired(db, after, c, post, issued)
        && (Opens(after.keys[c], s, now) <==> s == issued)
  {
  }

  /** Rotation asks for the active credential of a key that is not revoked, and only
      records a pending one for ten minutes. */
  lemma RotationRecords(db: Db, c: Id, current: Secret, issued: Secret, now: int)
    ensures
      var after := AfterRotate(db, c, current, issued, now);
      if c != "" && current != "" && c in db.keys && db.keys[c].secret == current && !db.keys[c].revoked then
        after == db.(keys := db.keys[c := db.keys[c].(pending := Some(Pending(issued, now + LIFETIME)))])
      else after == db
  {
  }

  /** Unpairing asks for the same, and revoking for a connection that is not revoked
      yet; both revoke key and connection and touch nothing else. */
  lemma CutsExactly(db: Db, c: Id, current: Secret)
    ensures
      var cut := db.(keys := if c in db.keys then db.keys[c := db.keys[c].(revoked := true)] else db.keys,
                     connections := if c !in db.connections then db.connections
                                    else db.connections[c := Connection(db.connections[c].post, true)]);
      && AfterUnpair(db, c, current) ==
         (if c != "" && current != "" && c in db.keys && db.keys[c].secret == current && !db.keys[c].revoked then cut
          else db)
      && AfterRevoke(db, c) == (if c in db.connections && !db.connections[c].revoked then cut else db)
  {
  }

  /** A credential opens a key that is not revoked if it is the active one, or the
      pending one before it expires; confirming makes the pending one active. */
  lemma OpensExactly(k: KeyRow, s: Secret, now: int)
    ensures Opens(k, s, now) <==>
            && !k.revoked
            && (k.secret == s || (k.pending.Some? && k.pending.value.secret == s && now < k.pending.value.expires))
    ensures k.pending.Some? && k.pending.value.secret == s && now < k.pending.value.expires ==>
              Confirmed(k, s, now) == k.(secret := s, pending := None)
    ensures !(k.pending.Some? && k.pending.value.secret == s && now < k.pending.value.expires) ==>
              Confirmed(k, s, now) == k
  {
  }

  // ----- Runs

  /** The database after the first n events. */
  function At(db: Db, events: seq<Event>, n: nat): Db
    requires n <= |events|
  {
    if n == 0 then db else After(At(db, events, n - 1), events[n - 1])
  }

  lemma {:induction false} AfterAllPush(db: Db, events: seq<Event>, ev: Event)
    ensures AfterAll(db, events + [ev]) == After(AfterAll(db, events), ev)
    decreases |events|
  {
    if events == [] {
      assert events + [ev] == [ev] && [ev][1..] == [];
    } else {
      assert (events + [ev])[1..] == events[1..] + [ev];
      AfterAllPush(After(db, events[0]), events[1..], ev);
    }
  }

  /** The states that the run passes through, the last one included. */
  lemma {:induction false} AtPasses(db: Db, events: seq<Event>, n: nat)
    requires n <= |events|
    ensures At(db, events, n) == AfterAll(db, events[..n])
  {
    if n > 0 {
      AtPasses(db, events, n - 1);
      assert events[..n] == events[..n - 1] + [events[n - 1]];
      AfterAllPush(db, events[..n - 1], events[n - 1]);
    }
  }

  /** Event k records the request q with this secret for this installation. */
  predicate Asked(db: Db, events: seq<Event>, k: nat, q: Id, secret: Secret, installation: Id)
    requires k < |events|
  {
    && events[k].PairingRequested? && events[k].request == q && events[k].secret == secret
    && events[k].installation == installation && q !in At(db, events, k).requests
  }

  /** Event k approves the request q for this post. */
  predicate ApprovedFor(events: seq<Event>, k: nat, q: Id, post: Id)
    requires k < |events|
  {
    events[k].Decided? && events[k].request == q && events[k].approve && events[k].postOpen && events[k].post == post
  }

  /** Event k is a poll that changes the request q: it pairs the request's key. */
  predicate Pairs(db: Db, events: seq<Event>, k: nat, q: Id)
    requires k < |events|
  {
    && events[k].Polled? && events[k].request == q && q in At(db, events, k).requests
    && At(db, events, k).requests[q].state.Approved? && At(db, events, k + 1) != At(db, events, k)
  }

  /** Where the state of a request comes from: it was asked for at i, and if it was
      approved, that happened later, at j, before the ten minutes were over. */
  ghost predicate Origin(db: Db, events: seq<Event>, n: nat, q: Id, i: nat, j: nat)
    requires n <= |events| && q in At(db, events, n).requests
  {
    var r := At(db, events, n).requests[q];
    && i < n && Asked(db, events, i, q, r.secret, r.installation) && r.expires == events[i].now + LIFETIME
    && (r.state.Approved? || r.state.Consumed? ==>
          i < j < n && ApprovedFor(events, j, q, r.post) && events[j].now < r.expires)
  }

  lemma {:induction false} RequestOrigin(db: Db, events: seq<Event>, n: nat, q: Id) returns (i: nat, j: nat)
    requires n <= |events| && q !in db.requests && q in At(db, events, n).requests
    ensures Origin(db, events, n, q, i, j)
  {
    var before, ev := At(db, events, n - 1), events[n - 1];
    if q !in before.requests {
      NewRequest(before, ev, q);
      i, j := n - 1, 0;
    } else {
      i, j := RequestOrigin(db, events, n - 1, q);
      RequestMoves(before, ev, q);
      if before.requests[q].state.Awaiting? && After(before, ev).requests[q].state.Approved? { j := n - 1; }
    }
  }

  /** Only a pairing request makes a new request. */
  lemma NewRequest(db: Db, ev: Event, q: Id)
    requires q !in db.requests && q in After(db, ev).requests
    ensures ev.PairingRequested? && ev.request == q
    ensures After(db, ev).requests[q] == Request(ev.secret, ev.installation, Awaiting, "", ev.now + LIFETIME)
  {
    if !ev.PairingRequested? && !ev.Decided? && !ev.Polled? { RequestsKept(db, ev); }
  }

  /** Events other than these leave all requests alone. */
  lemma RequestsKept(db: Db, ev: Event)
    requires !ev.PairingRequested? && !ev.Decided? && !ev.Polled?
    ensures After(db, ev).requests == db.requests
  {
  }

  /** How an event moves a request: secret, installation and time stay; it can be
      approved while it waits, by a decision in time; an approved one can only be
      consumed, and a consumed or refused one stays so. */
  lemma RequestMoves(db: Db, ev: Event, q: Id)
    requires q in db.requests
    ensures q in After(db, ev).requests
    ensures
      var a, b := db.requests[q], After(db, ev).requests[q];
      && b.secret == a.secret && b.installation == a.installation && b.expires == a.expires
      && (match a.state
          case Awaiting =>
            || b == a || b.state.Refused?
            || (b.state.Approved? && ev.Decided? && ev.request == q && ev.approve && ev.postOpen && ev.post == b.post
                && ev.now < a.expires)
          case Approved =>
            || b == a
            || (b == a.(state := Consumed) && ev.Polled? && ev.request == q && ev.secret == a.secret
                && ev.now < a.expires)
          case Refused => b == a
          case Consumed => b == a)
  {
    hide AfterBatch, AfterSingle, AfterSource, AfterConsume, AfterEnroll, AfterRotate, AfterRevoke, AfterUnpair,
         AfterSave, AfterToken, Pruned, WithoutCollector, Repaired, Unused;
    if !ev.PairingRequested? && !ev.Decided? && !ev.Polled? { RequestsKept(db, ev); }
  }

  /** Provenance: in every run a poll pairs a key only for a request that was asked
      for in the run with that very secret and for that installation, and approved
      afterwards, all within the ten minutes of the request; the key comes under the
      post that was approved. */
  lemma PairingHasOrigin(db: Db, events: seq<Event>, k: nat, q: Id) returns (i: nat, j: nat)
    requires k < |events| && q !in db.requests && Pairs(db, events, k, q)
    ensures i < j < k
    ensures
      var r := At(db, events, k).requests[q];
      && Asked(db, events, i, q, events[k].secret, r.installation) && ApprovedFor(events, j, q, r.post)
      && events[j].now < events[i].now + LIFETIME && events[k].now < events[i].now + LIFETIME
      && JustPaired(At(db, events, k), At(db, events, k + 1), r.installation, r.post, events[k].issued)
  {
    i, j := RequestOrigin(db, events, k, q);
    var s, ev := At(db, events, k), events[k];
    if s.requests[q].secret != ev.secret || ev.now >= s.requests[q].expires {
      StrangerRefused(s, q, ev.secret, ev.issued, ev.now);
    }
    ApprovedPollPairs(s, q, ev.secret, ev.issued, ev.now);
  }

  /** A request that has been consumed stays so. */
  lemma {:induction false} ConsumedStays(db: Db, events: seq<Event>, k: nat, n: nat, q: Id)
    requires k <= n <= |events| && q in At(db, events, k).requests && At(db, events, k).requests[q].state.Consumed?
    ensures q in At(db, events, n).requests && At(db, events, n).requests[q].state.Consumed?
    decreases n
  {
    if k < n {
      ConsumedStays(db, events, k, n - 1, q);
      RequestMoves(At(db, events, n - 1), events[n - 1], q);
    }
  }

  /** An approval pairs at most once in a run. */
  lemma PairsOnce(db: Db, events: seq<Event>, k: nat, m: nat, q: Id)
    requires k < m < |events| && Pairs(db, events, k, q)
    ensures !Pairs(db, events, m, q)
  {
    var s, ev := At(db, events, k), events[k];
    if s.requests[q].secret != ev.secret || ev.now >= s.requests[q].expires {
      StrangerRefused(s, q, ev.secret, ev.issued, ev.now);
    }
    ApprovedPollPairs(s, q, ev.secret, ev.issued, ev.now);
    ConsumedStays(db, events, k + 1, m, q);
  }

  /** Event k issues the token for this post and lifetime. */
  predicate Issued(db: Db, events: seq<Event>, k: nat, token: Secret, t: Token)
    requires k < |events|
  {
    && events[k].TokenIssued? && events[k].token == token && events[k].post == t.post
    && t.expires == events[k].now + events[k].lifetime && token !in At(db, events, k).tokens
  }

  /** Event k consumes the token. */
  predicate Spends(db: Db, events: seq<Event>, k: nat, token: Secret)
    requires k < |events|
  {
    events[k].TokenConsumed? && events[k].token == token && At(db, events, k + 1) != At(db, events, k)
  }

  lemma TokenMoves(db: Db, ev: Event, token: Secret)
    ensures
      var a, b := db.tokens, After(db, ev).tokens;
      if token in a then token in b && (b[token] == a[token] || b[token] == a[token].(used := true)) &&
                         (a[token].used ==> b[token] == a[token])
      else
        token in b ==>
          ev.TokenIssued? && ev.token == token && b[token] == Token(ev.post, ev.now + ev.lifetime, false)
  {
    if !ev.TokenIssued? && !ev.TokenConsumed? { TokensKept(db, ev); }
  }

  lemma TokensKept(db: Db, ev: Event)
    requires !ev.TokenIssued? && !ev.TokenConsumed?
    ensures After(db, ev).tokens == db.tokens
  {
  }

  lemma {:induction false} TokenOrigin(db: Db, events: seq<Event>, n: nat, token: Secret) returns (i: nat)
    requires n <= |events| && token !in db.tokens && token in At(db, events, n).tokens
    ensures i < n && Issued(db, events, i, token, At(db, events, n).tokens[token])
  {
    TokenMoves(At(db, events, n - 1), events[n - 1], token);
    if token in At(db, events, n - 1).tokens { i := TokenOrigin(db, events, n - 1, token); } else { i := n - 1; }
  }

  /** Provenance of the other kind: a token pairs a key only after it was issued in
      the run, within its lifetime, and under the post it was issued for. */
  lemma SpendingHasOrigin(db: Db, events: seq<Event>, k: nat, token: Secret) returns (i: nat)
    requires k < |events| && token !in db.tokens && Spends(db, events, k, token)
    ensures i < k && token in At(db, events, k).tokens
    ensures
      var t := At(db, events, k).tokens[token];
      && Issued(db, events, i, token, t) && events[k].now < events[i].now + events[i].lifetime
      && JustPaired(At(db, events, k), At(db, events, k + 1), events[k].key, t.post, events[k].issued)
  {
    TokenPairs(At(db, events, k), token, events[k].key, events[k].issued, events[k].now);
    i := TokenOrigin(db, events, k, token);
  }

  lemma {:induction false} SpentStays(db: Db, events: seq<Event>, k: nat, n: nat, token: Secret)
    requires k <= n <= |events| && token in At(db, events, k).tokens && At(db, events, k).tokens[token].used
    ensures token in At(db, events, n).tokens && At(db, events, n).tokens[token].used
    decreases n
  {
    if k < n {
      SpentStays(db, events, k, n - 1, token);
      TokenMoves(At(db, events, n - 1), events[n - 1], token);
    }
  }

  /** And at most once. */
  lemma SpentOnce(db: Db, events: seq<Event>, k: nat, m: nat, token: Secret)
    requires k < m < |events| && Spends(db, events, k, token)
    ensures !Spends(db, events, m, token)
  {
    TokenPairs(At(db, events, k), token, events[k].key, events[k].issued, events[k].now);
    SpentStays(db, events, k + 1, m, token);
    if events[m].TokenConsumed? {
      TokenPairs(At(db, events, m), token, events[m].key, events[m].issued, events[m].now);
    }
  }

  // ----- Reissue

  /** The event stores or counts telemetry under the key of c. */
  predicate Uses(db: Db, c: Id, ev: Event) {
    && (ev.Batch? || ev.Single? || ev.Source?) && c in db.keys && c in After(db, ev).keys
    && After(db, ev).keys[c] != db.keys[c]
  }

  /** The key of c has been used since it was paired. */
  predicate HasBeenUsed(db: Db, c: Id) { c in db.keys && (db.keys[c].seenAt.Some? || db.keys[c].last > 0) }

  lemma UseShows(db: Db, c: Id, ev: Event)
    requires Sequenced(db) && Uses(db, c, ev)
    ensures HasBeenUsed(After(db, ev), c)
  {
  }

  /** A token, or the poll of an approved request, pairs c again. */
  predicate PairsAgain(db: Db, c: Id, ev: Event) {
    || (ev.TokenConsumed? && ev.key == c && After(db, ev) != db)
    || (ev.Polled? && ev.request in db.requests && db.requests[ev.request].installation == c
        && db.requests[ev.request].state.Approved? && After(db, ev) != db)
  }

  lemma UsedStays(db: Db, c: Id, ev: Event)
    requires Sequenced(db) && HasBeenUsed(db, c) && !PairsAgain(db, c, ev)
    ensures HasBeenUsed(After(db, ev), c)
  {
    hide Stamped, Numbered, WithoutCollector, Contiguous, Conflicts, WellFormed, Pruned, CanRequest, CanIssueToken,
         CanDecide;
    if ev.Batch? || ev.Single? || ev.Source? {
      UsedThroughIngest(db, c, ev);
    } else if ev.TokenConsumed? || ev.Polled? {
      UsedThroughPairing(db, c, ev);
    }
  }

  lemma UsedThroughIngest(db: Db, c: Id, ev: Event)
    requires Sequenced(db) && HasBeenUsed(db, c) && (ev.Batch? || ev.Single? || ev.Source?)
    ensures HasBeenUsed(After(db, ev), c)
  {
    hide Stamped, Numbered, Conflicts, WellFormed, Opens;
  }

  lemma UsedThroughPairing(db: Db, c: Id, ev: Event)
    requires HasBeenUsed(db, c) && !PairsAgain(db, c, ev) && (ev.TokenConsumed? || ev.Polled?)
    ensures HasBeenUsed(After(db, ev), c)
  {
    hide WithoutCollector;
  }

  /** The only other credential a poll hands out replaces one that no ingest ever
      used: once telemetry was accepted under a key, no poll of a consumed request
      gets anything, until the key is paired again. */
  lemma {:induction false} UsedKeyNotReissued(db: Db, events: seq<Event>, k: nat, m: nat, c: Id)
    requires k < m <= |events| && Sequenced(db) && Uses(At(db, events, k), c, events[k])
    requires forall l | k < l < m :: !PairsAgain(At(db, events, l), c, events[l])
    ensures HasBeenUsed(At(db, events, m), c)
    decreases m
  {
    hide Sequenced, HasBeenUsed, Uses, After, PairsAgain;
    RunSequencedTo(db, events, m - 1);
    if m == k + 1 {
      UseShows(At(db, events, k), c, events[k]);
    } else {
      UsedKeyNotReissued(db, events, k, m - 1, c);
      UsedStays(At(db, events, m - 1), c, events[m - 1]);
    }
  }

  lemma {:induction false} RunSequencedTo(db: Db, events: seq<Event>, n: nat)
    requires n <= |events| && Sequenced(db)
    ensures Sequenced(At(db, events, n))
  {
    if n > 0 {
      RunSequencedTo(db, events, n - 1);
      AfterSequenced(At(db, events, n - 1), events[n - 1]);
    }
  }

  lemma ReissueOnlyUnused(db: Db, events: seq<Event>, k: nat, m: nat, c: Id)
    requires k < m < |events| && Sequenced(db) && Uses(At(db, events, k), c, events[k])
    requires forall l | k < l < m :: !PairsAgain(At(db, events, l), c, events[l])
    requires events[m].Polled? && events[m].request in At(db, events, m).requests
    requires
      var r := At(db, events, m).requests[events[m].request];
      r.installation == c && r.state.Consumed?
    ensures At(db, events, m + 1) == At(db, events, m)
    ensures
      var ev := events[m];
      !PollOutcome(At(db, events, m), ev.request, ev.secret, ev.issued, ev.now).PollEnrolled?
  {
    hide Sequenced, Uses, PairsAgain, AfterPoll, PollOutcome;
    UsedKeyNotReissued(db, events, k, m, c);
    UsedPollRefused(At(db, events, m), events[m].request, events[m].secret, events[m].issued, events[m].now);
  }

  lemma UsedPollRefused(db: Db, request: Id, secret: Secret, issued: Secret, now: int)
    requires request in db.requests && db.requests[request].state.Consumed?
    requires HasBeenUsed(db, db.requests[request].installation)
    ensures AfterPoll(db, request, secret, issued, now) == db
    ensures !PollOutcome(db, request, secret, issued, now).PollEnrolled?
  {
    if db.requests[request].secret != secret || now >= db.requests[request].expires {
      StrangerRefused(db, request, secret, issued, now);
    } else {
      ConsumedPollReissues(db, request, secret, issued, now);
    }
  }
}
