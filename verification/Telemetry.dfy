/** Collector keys, their observations, and every operation that touches them:
    ingest, central checks and device polls, retention, enrollment, credential
    rotation and revocation, and the two ways of pairing again. */
module Telemetry {
  import opened Outcomes

  type Id = string
  type Secret = string

  const SECOND := 1_000_000_000
  const MINUTE := 60 * SECOND
  const HOUR := 60 * MINUTE
  const QUALITIES: set<string> := {"good", "uncertain", "bad", "missing", "stale"}
  const PENDING_REPLACEMENT_LIFETIME := 10 * MINUTE
  const PAIRING_LIFETIME := 10 * MINUTE

  datatype Number = Finite(value: real) | NotFinite

  datatype Observation = Observation(version: int, post: Id, collector: Id, observedAt: int, sequence: int,
                                     signal: string, value: Option<Number>, unit: string, quality: string,
                                     labels: map<string, string>)

  /** A stored observation. Instants are nanoseconds. */
  datatype Row = Row(obs: Observation, ingestedAt: int)

  datatype Pending = Pending(secret: Secret, expires: int)

  /** One collector_keys row. Secrets stand for their hashes. */
  datatype KeyRow = KeyRow(post: Id, last: int, secret: Secret, pending: Option<Pending>, revoked: bool,
                           lastBatch: string, seenAt: Option<int>)

  datatype Token = Token(post: Id, expires: int, used: bool)

  datatype RequestState = Awaiting | Approved | Refused | Consumed

  datatype Request = Request(secret: Secret, installation: Id, state: RequestState, post: Id, expires: int)

  datatype Connection = Connection(post: Id, revoked: bool)

  /** A central check or a polled device. Checks and devices are numbered apart,
      but each one's ID is also the ID of its key. */
  datatype SourceId = Check(id: Id) | Device(id: Id)

  /** sources holds the post each check and each device reports for. */
  datatype Db = Db(keys: map<Id, KeyRow>, rows: seq<Row>, tokens: map<Secret, Token>, requests: map<Id, Request>,
                   connections: map<Id, Connection>, sources: map<SourceId, Id>)

  datatype BatchReply = Rejected | Duplicate | Accepted

  // ----- Credentials

  function IsActive(k: KeyRow, presented: Secret): bool { k.secret == presented }

  function IsPending(k: KeyRow, presented: Secret, now: int): bool {
    k.pending.Some? && now < k.pending.value.expires && k.pending.value.secret == presented
  }

  /** A presented credential opens the key. */
  function Opens(k: KeyRow, presented: Secret, now: int): bool {
    !k.revoked && (IsActive(k, presented) || IsPending(k, presented, now))
  }

  function Promoted(k: KeyRow): KeyRow {
    if k.pending.None? then k else k.(secret := k.pending.value.secret, pending := None)
  }

  function Confirmed(k: KeyRow, presented: Secret, now: int): KeyRow {
    if IsPending(k, presented, now) then Promoted(k) else k
  }

  // ----- Inserting observations

  /** UNIQUE(collector_id, sequence, signal). */
  predicate Conflicts(rows: seq<Row>, o: Observation) {
    exists i | 0 <= i < |rows| ::
      rows[i].obs.collector == o.collector && rows[i].obs.sequence == o.sequence && rows[i].obs.signal == o.signal
  }

  predicate WellFormed(o: Observation, now: int) {
    && o.version == 1 && 1 <= |o.signal| <= 128 && |o.labels| <= 32 && o.quality in QUALITIES
    && o.value != Some(NotFinite)
    && now - 24 * HOUR <= o.observedAt <= now + 5 * MINUTE
  }

  function Stamped(batch: seq<Observation>, now: int): (rows: seq<Row>)
    ensures |rows| == |batch| && forall i | 0 <= i < |batch| :: rows[i] == Row(batch[i], now)
  {
    seq(|batch|, i requires 0 <= i < |batch| => Row(batch[i], now))
  }

  /** Every observation is well formed, addressed to the key, contiguous with
      what the key has seen, and free of conflicts. */
  predicate Contiguous(k: KeyRow, rows: seq<Row>, batch: seq<Observation>, now: int) {
    forall i | 0 <= i < |batch| ::
      && WellFormed(batch[i], now) && batch[i].post == k.post && batch[i].collector == batch[0].collector
      && batch[i].sequence == k.last + i + 1 && !Conflicts(rows, batch[i])
  }

  /** The batch reaches the rate limiter. */
  predicate ReachesLimiter(db: Db, secret: Secret, batch: seq<Observation>, id: string, now: int) {
    && 1 <= |batch| <= 128 && batch[0].collector in db.keys
    && var k := db.keys[batch[0].collector];
       k.post == batch[0].post && Opens(k, secret, now) && !(id != "" && k.lastBatch == id)
  }

  function BatchOutcome(db: Db, secret: Secret, batch: seq<Observation>, id: string, now: int,
                        allowed: bool): BatchReply
  {
    if |batch| < 1 || |batch| > 128 || batch[0].collector !in db.keys then Rejected
    else
      var k := db.keys[batch[0].collector];
      if k.post != batch[0].post || !Opens(k, secret, now) then Rejected
      else if id != "" && k.lastBatch == id then Duplicate
      else if allowed && Contiguous(k, db.rows, batch, now) then Accepted
      else Rejected
  }

  function AfterBatch(db: Db, secret: Secret, batch: seq<Observation>, id: string, now: int, allowed: bool): Db {
    if !BatchOutcome(db, secret, batch, id, now, allowed).Accepted? then db
    else
      var c := batch[0].collector;
      var k := Confirmed(db.keys[c], secret, now);
      db.(keys := db.keys[c := k.(last := batch[|batch| - 1].sequence, lastBatch := id, seenAt := Some(now))],
          rows := db.rows + Stamped(batch, now))
  }

  predicate SingleReachesLimiter(db: Db, secret: Secret, o: Observation, now: int) {
    && WellFormed(o, now) && o.sequence >= 1 && o.collector in db.keys
    && db.keys[o.collector].post == o.post && Opens(db.keys[o.collector], secret, now)
  }

  predicate SingleAccepted(db: Db, secret: Secret, o: Observation, now: int, allowed: bool) {
    && WellFormed(o, now) && o.sequence >= 1 && o.collector in db.keys
    && var k := db.keys[o.collector];
       k.post == o.post && Opens(k, secret, now) && allowed && o.sequence > k.last && !Conflicts(db.rows, o)
  }

  function AfterSingle(db: Db, secret: Secret, o: Observation, now: int, allowed: bool): Db {
    if !SingleAccepted(db, secret, o, now, allowed) then db
    else
      var k := Confirmed(db.keys[o.collector], secret, now);
      db.(keys := db.keys[o.collector := k.(last := o.sequence)], rows := db.rows + [Row(o, now)])
  }

  function FiledUnder(o: Observation, source: Id, post: Id, sequence: int): Observation {
    o.(collector := source, post := post, sequence := sequence)
  }

  /** Readings of a central check or a device poll, filed under the post of the
      source and the next sequence numbers of its key. */
  function Numbered(readings: seq<Observation>, source: Id, post: Id, last: int): (batch: seq<Observation>)
    ensures |batch| == |readings|
    ensures forall i | 0 <= i < |readings| :: batch[i] == FiledUnder(readings[i], source, post, last + i + 1)
  {
    seq(|readings|, i requires 0 <= i < |readings| => FiledUnder(readings[i], source, post, last + i + 1))
  }

  predicate SourceAccepted(db: Db, source: SourceId, readings: seq<Observation>) {
    && source in db.sources && source.id in db.keys
    && forall o | o in Numbered(readings, source.id, db.sources[source], db.keys[source.id].last) ::
         !Conflicts(db.rows, o)
  }

  function AfterSource(db: Db, source: SourceId, readings: seq<Observation>, now: int): Db {
    if !SourceAccepted(db, source, readings) then db
    else
      var k := db.keys[source.id];
      db.(keys := db.keys[source.id := k.(last := k.last + |readings|, seenAt := Some(now))],
          rows := db.rows + Stamped(Numbered(readings, source.id, db.sources[source], k.last), now))
  }

  /** A source is saved once; valid says that its other fields are in order and
      its post exists. */
  predicate CanSave(db: Db, source: SourceId, valid: bool) { source.id != "" && valid && source !in db.sources }

  /** Saving a source creates its key, unless that ID already names one. */
  function AfterSave(db: Db, source: SourceId, post: Id, valid: bool, marker: Secret): Db {
    if !CanSave(db, source, valid) then db
    else db.(sources := db.sources[source := post],
             keys := if source.id in db.keys then db.keys
                     else db.keys[source.id := KeyRow(post, 0, marker, None, false, "", None)])
  }

  /** An imported check replaces the one of that ID, and leaves keys alone. */
  function AfterImport(db: Db, id: Id, post: Id, valid: bool): Db {
    if !valid then db else db.(sources := db.sources[Check(id) := post])
  }

  function AfterDrop(db: Db, source: SourceId): Db { db.(sources := db.sources - {source}) }

  /** Retention deletes the first `limit` rows observed before an instant. */
  function Pruned(rows: seq<Row>, before: int, limit: nat): seq<Row> {
    if rows == [] || limit == 0 then rows
    else if rows[0].obs.observedAt < before then Pruned(rows[1..], before, limit - 1)
    else [rows[0]] + Pruned(rows[1..], before, limit)
  }

  /** The rows that have not expired, in order. */
  function Kept(rows: seq<Row>, before: int): seq<Row> {
    if rows == [] then []
    else (if rows[0].obs.observedAt < before then [] else [rows[0]]) + Kept(rows[1..], before)
  }

  function Least(a: int, b: int): int { if a <= b then a else b }

  lemma {:induction false} KeptBound(rows: seq<Row>, before: int)
    ensures |Kept(rows, before)| <= |rows|
  {
    if rows != [] { KeptBound(rows[1..], before); }
  }

  /** How many rows retention removes: the batch, or all that have expired. */
  lemma {:induction false} PrunedCount(rows: seq<Row>, before: int, limit: nat)
    ensures |rows| - |Pruned(rows, before, limit)| == Least(limit, |rows| - |Kept(rows, before)|)
  {
    KeptBound(rows, before);
    if rows != [] && limit > 0 {
      if rows[0].obs.observedAt < before {
        PrunedCount(rows[1..], before, limit - 1);
      } else {
        PrunedCount(rows[1..], before, limit);
      }
    }
  }

  /** What retention means: up to some row only what has not expired is left, and
      from there on everything is; it stops short of the end only when the batch
      is used up. */
  lemma {:induction false} PrunedMeans(rows: seq<Row>, before: int, limit: nat) returns (cut: nat)
    ensures cut <= |rows| && Pruned(rows, before, limit) == Kept(rows[..cut], before) + rows[cut..]
    ensures cut < |rows| ==> |rows| - |Pruned(rows, before, limit)| == limit
  {
    if rows == [] || limit == 0 {
      cut := 0;
    } else {
      var rest := rows[1..];
      if rows[0].obs.observedAt < before {
        cut := PrunedMeans(rest, before, limit - 1);
      } else {
        cut := PrunedMeans(rest, before, limit);
      }
      assert rows[..cut + 1][1..] == rest[..cut] && rows[cut + 1..] == rest[cut..];
      cut := cut + 1;
    }
  }

  function WithoutCollector(rows: seq<Row>, c: Id): seq<Row> {
    if rows == [] then []
    else if rows[0].obs.collector == c then WithoutCollector(rows[1..], c)
    else [rows[0]] + WithoutCollector(rows[1..], c)
  }

  // ----- Credential and pairing operations

  function AfterEnroll(db: Db, id: Id, post: Id, issued: Secret): Db {
    if id in db.keys then db else db.(keys := db.keys[id := KeyRow(post, 0, issued, None, false, "", None)])
  }

  predicate CanRotate(db: Db, id: Id, current: Secret) {
    id != "" && current != "" && id in db.keys && IsActive(db.keys[id], current) && !db.keys[id].revoked
  }

  function AfterRotate(db: Db, id: Id, current: Secret, issued: Secret, now: int): Db {
    if !CanRotate(db, id, current) then db
    else db.(keys := db.keys[id := db.keys[id].(pending := Some(Pending(issued, now + PENDING_REPLACEMENT_LIFETIME)))])
  }

  function RevokedKey(keys: map<Id, KeyRow>, id: Id): map<Id, KeyRow> {
    if id in keys then keys[id := keys[id].(revoked := true)] else keys
  }

  function RevokedConnection(connections: map<Id, Connection>, id: Id): map<Id, Connection> {
    if id in connections then connections[id := connections[id].(revoked := true)] else connections
  }

  predicate CanRevoke(db: Db, id: Id) { id in db.connections && !db.connections[id].revoked }

  function AfterRevoke(db: Db, id: Id): Db {
    if !CanRevoke(db, id) then db
    else db.(keys := RevokedKey(db.keys, id), connections := RevokedConnection(db.connections, id))
  }

  function AfterUnpair(db: Db, id: Id, current: Secret): Db {
    if !CanRotate(db, id, current) then db
    else db.(keys := RevokedKey(db.keys, id), connections := RevokedConnection(db.connections, id))
  }

  /** Pairing again restarts the key's sequence space; the pending credential and
      the last batch ID of an existing key are left as they were. */
  function Repaired(keys: map<Id, KeyRow>, id: Id, post: Id, issued: Secret): KeyRow {
    if id in keys then keys[id].(post := post, last := 0, secret := issued, revoked := false, seenAt := None)
    else KeyRow(post, 0, issued, None, false, "", None)
  }

  /** postOpen says that the post exists and is not archived. */
  predicate CanIssueToken(db: Db, token: Secret, lifetime: int, postOpen: bool) {
    MINUTE <= lifetime <= 30 * MINUTE && postOpen && token !in db.tokens
  }

  function AfterToken(db: Db, token: Secret, post: Id, lifetime: int, postOpen: bool, now: int): Db {
    if !CanIssueToken(db, token, lifetime, postOpen) then db
    else db.(tokens := db.tokens[token := Token(post, now + lifetime, false)])
  }

  predicate CanRequest(db: Db, request: Id, secret: Secret, installation: Id, host: string, platform: string,
                       now: int)
  {
    && installation != "" && |secret| >= 32 && host != "" && platform != "" && request !in db.requests
    && |set r | r in db.requests && db.requests[r].state.Awaiting? && db.requests[r].expires > now| < 100
  }

  function AfterRequest(db: Db, request: Id, secret: Secret, installation: Id, host: string, platform: string,
                        now: int): Db
  {
    if !CanRequest(db, request, secret, installation, host, platform, now) then db
    else db.(requests := db.requests[request := Request(secret, installation, Awaiting, "", now + PAIRING_LIFETIME)])
  }

  predicate CanConsume(db: Db, token: Secret, id: Id, now: int) {
    && token != "" && id != "" && token in db.tokens && !db.tokens[token].used && now < db.tokens[token].expires
    && (id in db.keys ==> db.keys[id].post == db.tokens[token].post)
  }

  function AfterConsume(db: Db, token: Secret, id: Id, issued: Secret, now: int): Db {
    if !CanConsume(db, token, id, now) then db
    else
      var t := db.tokens[token];
      db.(rows := WithoutCollector(db.rows, id), keys := db.keys[id := Repaired(db.keys, id, t.post, issued)],
          tokens := db.tokens[token := t.(used := true)])
  }

  predicate CanDecide(db: Db, request: Id, now: int) {
    request in db.requests && db.requests[request].state.Awaiting? && now < db.requests[request].expires
  }

  /** postOpen says that the chosen post exists and is not archived. */
  function AfterDecide(db: Db, request: Id, post: Id, approve: bool, postOpen: bool, now: int): Db {
    if !CanDecide(db, request, now) || (approve && !postOpen) then db
    else
      var r := db.requests[request];
      db.(requests := db.requests[request := if approve then r.(state := Approved, post := post)
          else r.(state := Refused)])
  }

  datatype PollReply = PollRefused | PollExpired | PollRejected | PollPending | PollEnrolled(credential: Secret)

  predicate Unused(db: Db, id: Id) { id in db.keys && db.keys[id].seenAt.None? && db.keys[id].last == 0 }

  function PollOutcome(db: Db, request: Id, secret: Secret, issued: Secret, now: int): PollReply {
    if request !in db.requests || db.requests[request].secret != secret then PollRefused
    else
      var r := db.requests[request];
      if now >= r.expires then PollExpired
      else match r.state
        case Refused => PollRejected
        case Awaiting => PollPending
        case Consumed => if Unused(db, r.installation) then PollEnrolled(issued) else PollRefused
        case Approved => PollEnrolled(issued)
  }

  function AfterPoll(db: Db, request: Id, secret: Secret, issued: Secret, now: int): Db {
    if !PollOutcome(db, request, secret, issued, now).PollEnrolled? then db
    else
      var r := db.requests[request];
      var id := r.installation;
      if r.state.Consumed? then
        db.(keys := db.keys[id := db.keys[id].(secret := issued, last := 0, seenAt := None)])
      else
        db.(rows := WithoutCollector(db.rows, id), keys := db.keys[id := Repaired(db.keys, id, r.post, issued)],
            connections := db.connections[id := Connection(r.post, false)],
            requests := db.requests[request := r.(state := Consumed)])
  }

  // ----- The service

  datatype Window = Window(minuteStart: int, samples: int)

  /** Fixed-window budget: the window a request falls into, and whether it fits. */
  function CurrentWindow(rate: map<Id, Window>, c: Id, now: int): Window {
    if c !in rate || now - rate[c].minuteStart >= MINUTE then Window(now, 0) else rate[c]
  }

  function Fits(rate: map<Id, Window>, limit: int, c: Id, samples: int, now: int): bool {
    limit <= 0 || CurrentWindow(rate, c, now).samples + samples <= limit
  }

  function Charged(rate: map<Id, Window>, limit: int, c: Id, samples: int, now: int): map<Id, Window> {
    if limit <= 0 then rate
    else
      var w := CurrentWindow(rate, c, now);
      rate[c := if w.samples + samples > limit then w else w.(samples := w.samples + samples)]
  }

  /** Inserts a batch row by row into the transaction, checking each observation
      against the key as it goes. */
  method InsertBatch(rows: seq<Row>, k: KeyRow, batch: seq<Observation>, now: int) returns (r: Option<seq<Row>>)
    requires batch != []
    ensures r.Some? <==> Contiguous(k, rows, batch, now)
    ensures r.Some? ==> r.value == rows + Stamped(batch, now)
  {
    var inserted := rows;
    for index := 0 to |batch|
      invariant inserted == rows + Stamped(batch, now)[..index]
      invariant forall i | 0 <= i < index ::
        && WellFormed(batch[i], now) && batch[i].post == k.post && batch[i].collector == batch[0].collector
        && batch[i].sequence == k.last + i + 1 && !Conflicts(rows, batch[i])
    {
      var o := batch[index];
      if || !WellFormed(o, now) || o.post != k.post || o.collector != batch[0].collector
         || o.sequence != k.last + index + 1 {
        return None;
      }
      OnlyEarlierConflicts(rows, Stamped(batch, now)[..index], o);
      if Conflicts(inserted, o) { return None; }
      inserted := inserted + [Row(o, now)];
    }
    return Some(inserted);
  }

  /** Inserts readings under consecutive sequence numbers. */
  method InsertReadings(rows: seq<Row>, source: Id, post: Id, last: int, readings: seq<Observation>, now: int)
    returns (r: Option<seq<Row>>)
    ensures r.Some? <==> forall o | o in Numbered(readings, source, post, last) :: !Conflicts(rows, o)
    ensures r.Some? ==> r.value == rows + Stamped(Numbered(readings, source, post, last), now)
  {
    ghost var batch := Numbered(readings, source, post, last);
    var inserted := rows;
    for index := 0 to |readings|
      invariant inserted == rows + Stamped(batch, now)[..index]
      invariant forall i | 0 <= i < index :: !Conflicts(rows, batch[i])
    {
      var o := FiledUnder(readings[index], source, post, last + index + 1);
      OnlyEarlierConflicts(rows, Stamped(batch, now)[..index], o);
      if Conflicts(inserted, o) {
        assert batch[index] in batch;
        return None;
      }
      inserted := inserted + [Row(o, now)];
    }
    return Some(inserted);
  }

  class Service {
    var keys: map<Id, KeyRow>
    var rows: seq<Row>
    var tokens: map<Secret, Token>
    var requests: map<Id, Request>
    var connections: map<Id, Connection>
    var sources: map<SourceId, Id>
    var rate: map<Id, Window>
    var limit: int

    constructor ()
      ensures Value() == Db(map[], [], map[], map[], map[], map[]) && rate == map[] && limit == 3600
    {
      keys, rows, tokens, requests, connections, sources := map[], [], map[], map[], map[], map[];
      rate, limit := map[], 3600;
    }

    function Value(): Db
      reads this
    {
      Db(keys, rows, tokens, requests, connections, sources)
    }

    method Allow(c: Id, samples: int, now: int) returns (ok: bool)
      modifies this`rate
      ensures ok == old(Fits(rate, limit, c, samples, now))
      ensures rate == old(Charged(rate, limit, c, samples, now))
    {
      if limit <= 0 { return true; }
      if c !in rate || now - rate[c].minuteStart >= MINUTE {
        rate := rate[c := Window(now, 0)];
      }
      var w := rate[c];
      if w.samples + samples > limit {
        assert rate == old(Charged(rate, limit, c, samples, now));
        return false;
      }
      rate := rate[c := w.(samples := w.samples + samples)];
      assert rate == old(Charged(rate, limit, c, samples, now));
      return true;
    }

    /** One batch, one transaction. Rows inserted before a bad observation are
        rolled back with everything else; the rate window alone keeps its charge. */
    method AcceptBatch(secret: Secret, batch: seq<Observation>, id: string, now: int) returns (reply: BatchReply)
      modifies this
      ensures
        var allowed := old(|batch| > 0 && Fits(rate, limit, batch[0].collector, |batch|, now));
        && reply == old(BatchOutcome(Value(), secret, batch, id, now, allowed))
        && Value() == old(AfterBatch(Value(), secret, batch, id, now, allowed))
      ensures limit == old(limit)
      ensures rate == if old(ReachesLimiter(Value(), secret, batch, id, now))
                      then old(Charged(rate, limit, batch[0].collector, |batch|, now)) else old(rate)
    {
      if |batch| < 1 || |batch| > 128 { return Rejected; }
      var first := batch[0];
      if first.collector !in keys { return Rejected; }
      var info := keys[first.collector];
      if info.revoked || info.post != first.post || (!IsActive(info, secret) && !IsPending(info, secret, now)) {
        return Rejected;
      }
      if id != "" && info.lastBatch == id { return Duplicate; }
      var key := info;
      if IsPending(info, secret, now) { key := Promoted(info); }
      var allowed := Allow(first.collector, |batch|, now);
      if !allowed { return Rejected; }
      var inserted := InsertBatch(rows, info, batch, now);
      if inserted.None? { return Rejected; }
      rows := inserted.value;
      keys := keys[first.collector := key.(last := batch[|batch| - 1].sequence, lastBatch := id, seenAt := Some(now))];
      return Accepted;
    }

    method Accept(secret: Secret, o: Observation, now: int) returns (ok: bool)
      modifies this
      ensures
        var allowed := old(Fits(rate, limit, o.collector, 1, now));
        && ok == old(SingleAccepted(Value(), secret, o, now, allowed))
        && Value() == old(AfterSingle(Value(), secret, o, now, allowed))
      ensures limit == old(limit)
      ensures rate == if old(SingleReachesLimiter(Value(), secret, o, now))
                      then old(Charged(rate, limit, o.collector, 1, now)) else old(rate)
    {
      if !WellFormed(o, now) || o.sequence < 1 { return false; }
      if o.collector !in keys { return false; }
      var info := keys[o.collector];
      if info.revoked || info.post != o.post || (!IsActive(info, secret) && !IsPending(info, secret, now)) {
        return false;
      }
      var key := info;
      if IsPending(info, secret, now) { key := Promoted(info); }
      var allowed := Allow(o.collector, 1, now);
      if !allowed || o.sequence <= info.last || Conflicts(rows, o) { return false; }
      rows := rows + [Row(o, now)];
      keys := keys[o.collector := key.(last := o.sequence)];
      return true;
    }

    method Authenticate(id: Id, secret: Secret, now: int) returns (ok: bool)
      ensures ok <==> id != "" && secret != "" && id in keys && Opens(keys[id], secret, now)
    {
      if id == "" || secret == "" || id !in keys { return false; }
      return !keys[id].revoked && (IsActive(keys[id], secret) || IsPending(keys[id], secret, now));
    }

    /** Central checks and device polls. */
    method IngestSource(source: SourceId, readings: seq<Observation>, now: int) returns (ok: bool)
      modifies this`keys, this`rows
      ensures ok == old(SourceAccepted(Value(), source, readings))
      ensures Value() == old(AfterSource(Value(), source, readings, now))
    {
      if source !in sources || source.id !in keys { return false; }
      var last := keys[source.id].last;
      var inserted := InsertReadings(rows, source.id, sources[source], last, readings, now);
      if inserted.None? { return false; }
      rows := inserted.value;
      keys := keys[source.id := keys[source.id].(last := last + |readings|, seenAt := Some(now))];
      return true;
    }

    method SaveSource(source: SourceId, post: Id, valid: bool, marker: Secret) returns (ok: bool)
      modifies this`keys, this`sources
      ensures ok == old(CanSave(Value(), source, valid))
      ensures Value() == old(AfterSave(Value(), source, post, valid, marker))
    {
      if source.id == "" || !valid || source in sources { return false; }
      sources := sources[source := post];
      if source.id !in keys { keys := keys[source.id := KeyRow(post, 0, marker, None, false, "", None)]; }
      return true;
    }

    method ImportCheck(id: Id, post: Id, valid: bool) returns (ok: bool)
      modifies this`sources
      ensures ok == valid && Value() == old(AfterImport(Value(), id, post, valid))
    {
      if valid { sources := sources[Check(id) := post]; }
      return valid;
    }

    method DropSource(source: SourceId)
      modifies this`sources
      ensures Value() == old(AfterDrop(Value(), source))
    {
      sources := sources - {source};
    }

    method Enroll(id: Id, post: Id, issued: Secret) returns (ok: bool)
      modifies this`keys
      ensures ok == old(id !in keys) && Value() == old(AfterEnroll(Value(), id, post, issued))
    {
      if id in keys { return false; }
      keys := keys[id := KeyRow(post, 0, issued, None, false, "", None)];
      return true;
    }

    /** Starts an overlap-and-confirm replacement. */
    method Rotate(id: Id, current: Secret, issued: Secret, now: int) returns (r: Option<Secret>)
      modifies this`keys
      ensures r == if old(CanRotate(Value(), id, current)) then Some(issued) else None
      ensures Value() == old(AfterRotate(Value(), id, current, issued, now))
    {
      if id == "" || current == "" { return None; }
      if id !in keys || keys[id].secret != current || keys[id].revoked { return None; }
      keys := keys[id := keys[id].(pending := Some(Pending(issued, now + PENDING_REPLACEMENT_LIFETIME)))];
      return Some(issued);
    }

    method Revoke(id: Id) returns (ok: bool)
      modifies this`keys, this`connections
      ensures ok == old(CanRevoke(Value(), id)) && Value() == old(AfterRevoke(Value(), id))
    {
      if id !in connections || connections[id].revoked { return false; }
      connections := connections[id := connections[id].(revoked := true)];
      if id in keys { keys := keys[id := keys[id].(revoked := true)]; }
      return true;
    }

    method Unpair(id: Id, current: Secret) returns (ok: bool)
      modifies this`keys, this`connections
      ensures ok == old(CanRotate(Value(), id, current)) && Value() == old(AfterUnpair(Value(), id, current))
    {
      if id == "" || current == "" || id !in keys || keys[id].revoked || keys[id].secret != current { return false; }
      if id in connections { connections := connections[id := connections[id].(revoked := true)]; }
      keys := keys[id := keys[id].(revoked := true)];
      return true;
    }

    /** DELETE FROM observations WHERE collector_id=?. */
    method DeleteObservations(c: Id)
      modifies this`rows
      ensures rows == old(WithoutCollector(rows, c))
    {
      var kept: seq<Row> := [];
      var all := rows;
      for i := 0 to |all|
        invariant rows == all && WithoutCollector(all, c) == kept + WithoutCollector(all[i..], c)
      {
        assert all[i..][1..] == all[i + 1..];
        if all[i].obs.collector != c { kept := kept + [all[i]]; }
      }
      rows := kept;
    }

    /** Retention: the first `batch` expired rows go, and no others; the answer is
        how many went. */
    method Retain(before: int, batch: int) returns (removed: Option<int>)
      modifies this`rows
      ensures removed.Some? <==> 1 <= batch <= 10000
      ensures removed.Some? ==>
                removed.value == |old(rows)| - |rows| == Least(batch, |old(rows)| - |Kept(old(rows), before)|)
      ensures rows == if removed.Some? then old(Pruned(rows, before, batch)) else old(rows)
    {
      if batch < 1 || batch > 10000 { return None; }
      ghost var all := rows;
      PrunedCount(all, before, batch);
      var kept, left, rest := [], batch, rows;
      while rest != []
        invariant 0 <= left && rows == all
        invariant Pruned(all, before, batch) == kept + Pruned(rest, before, left)
        invariant |all| == |kept| + (batch - left) + |rest|
        decreases |rest|
      {
        if left > 0 && rest[0].obs.observedAt < before {
          left := left - 1;
        } else {
          if left == 0 { assert Pruned(rest[1..], before, 0) == rest[1..]; }
          kept := kept + [rest[0]];
        }
        rest := rest[1..];
      }
      rows := kept;
      return Some(batch - left);
    }

    method IssueToken(token: Secret, post: Id, lifetime: int, postOpen: bool, now: int) returns (ok: bool)
      modifies this`tokens
      ensures ok == old(CanIssueToken(Value(), token, lifetime, postOpen))
      ensures Value() == old(AfterToken(Value(), token, post, lifetime, postOpen, now))
    {
      if lifetime < MINUTE || lifetime > 30 * MINUTE || !postOpen || token in tokens { return false; }
      tokens := tokens[token := Token(post, now + lifetime, false)];
      return true;
    }

    method RequestPairing(request: Id, secret: Secret, installation: Id, host: string, platform: string, now: int)
      returns (ok: bool)
      modifies this`requests
      ensures ok == old(CanRequest(Value(), request, secret, installation, host, platform, now))
      ensures Value() == old(AfterRequest(Value(), request, secret, installation, host, platform, now))
    {
      if installation == "" || |secret| < 32 || host == "" || platform == "" || request in requests { return false; }
      var pending := |set r | r in requests && requests[r].state.Awaiting? && requests[r].expires > now|;
      if pending >= 100 { return false; }
      requests := requests[request := Request(secret, installation, Awaiting, "", now + PAIRING_LIFETIME)];
      return true;
    }

    method ConsumeToken(token: Secret, id: Id, issued: Secret, now: int) returns (r: Option<Secret>)
      modifies this
      ensures r == if old(CanConsume(Value(), token, id, now)) then Some(issued) else None
      ensures Value() == old(AfterConsume(Value(), token, id, issued, now))
      ensures rate == old(rate) && limit == old(limit)
    {
      if token == "" || id == "" || token !in tokens { return None; }
      var t := tokens[token];
      if t.used || now >= t.expires { return None; }
      var before := rows;
      DeleteObservations(id);
      if id in keys && keys[id].post != t.post {
        rows := before;
        return None;
      }
      keys := keys[id := Repaired(keys, id, t.post, issued)];
      tokens := tokens[token := t.(used := true)];
      return Some(issued);
    }

    method Decide(request: Id, post: Id, approve: bool, postOpen: bool, now: int) returns (ok: bool)
      modifies this`requests
      ensures ok == old(CanDecide(Value(), request, now) && (approve ==> postOpen))
      ensures Value() == old(AfterDecide(Value(), request, post, approve, postOpen, now))
    {
      if request !in requests || !requests[request].state.Awaiting? || now >= requests[request].expires {
        return false;
      }
      if approve {
        if !postOpen { return false; }
        requests := requests[request := requests[request].(state := Approved, post := post)];
      } else {
        requests := requests[request := requests[request].(state := Refused)];
      }
      return true;
    }

    /** The agent's poll: enrolls an approved request once, and hands a new
        credential to a consumed one whose credential was never used. */
    method Poll(request: Id, secret: Secret, issued: Secret, now: int) returns (r: PollReply)
      modifies this
      ensures request !in old(requests) || old(requests[request].secret) != secret ==>
                r == PollRefused && Value() == old(Value())
      ensures r == old(PollOutcome(Value(), request, secret, issued, now))
      ensures Value() == old(AfterPoll(Value(), request, secret, issued, now))
      ensures rate == old(rate) && limit == old(limit)
    {
      if request !in requests || requests[request].secret != secret { return PollRefused; }
      var req := requests[request];
      if now >= req.expires { return PollExpired; }
      if req.state.Refused? { return PollRejected; }
      if req.state.Awaiting? { return PollPending; }
      var id := req.installation;
      if req.state.Consumed? {
        if id !in keys || keys[id].seenAt.Some? || keys[id].last != 0 { return PollRefused; }
        keys := keys[id := keys[id].(secret := issued, last := 0, seenAt := None)];
        return PollEnrolled(issued);
      }
      connections := connections[id := Connection(req.post, false)];
      DeleteObservations(id);
      keys := keys[id := Repaired(keys, id, req.post, issued)];
      requests := requests[request := req.(state := Consumed)];
      return PollEnrolled(issued);
    }
  }

  /** Rows of the same batch carry other sequence numbers, so only rows stored
      before the batch can conflict. */
  lemma OnlyEarlierConflicts(rows: seq<Row>, issued: seq<Row>, o: Observation)
    requires forall i | 0 <= i < |issued| :: issued[i].obs.sequence != o.sequence
    ensures Conflicts(rows + issued, o) <==> Conflicts(rows, o)
  {
    var all := rows + issued;
    if i :| 0 <= i < |all| && all[i].obs.collector == o.collector && all[i].obs.sequence == o.sequence &&
            all[i].obs.signal == o.signal {
      assert i < |rows| && rows[i] == all[i];
    }
    if i :| 0 <= i < |rows| && rows[i].obs.collector == o.collector && rows[i].obs.sequence == o.sequence &&
            rows[i].obs.signal == o.signal {
      assert all[i] == rows[i];
    }
  }
}
