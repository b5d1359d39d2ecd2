/** Whole runs of the telemetry service: the events, what they do to the database,
    and the sequence numbers they keep. */
module TelemetryRuns {
  import opened Outcomes
  import opened Telemetry

  datatype Event =
    | Batch(secret: Secret, batch: seq<Observation>, id: string, now: int, allowed: bool)
    | Single(secret: Secret, o: Observation, now: int, allowed: bool)
    | Source(source: SourceId, readings: seq<Observation>, now: int)
    | Saved(source: SourceId, post: Id, valid: bool, marker: Secret)
    | Imported(check: Id, post: Id, valid: bool)
    | Dropped(source: SourceId)
    | Retention(before: int, limit: nat)
    | Enrolled(key: Id, post: Id, issued: Secret)
    | Rotated(key: Id, current: Secret, issued: Secret, now: int)
    | RevokedBy(key: Id)
    | Unpaired(key: Id, current: Secret)
    | TokenIssued(token: Secret, post: Id, lifetime: int, postOpen: bool, now: int)
    | TokenConsumed(token: Secret, key: Id, issued: Secret, now: int)
    | PairingRequested(request: Id, secret: Secret, installation: Id, host: string, platform: string, now: int)
    | Decided(request: Id, post: Id, approve: bool, postOpen: bool, now: int)
    | Polled(request: Id, secret: Secret, issued: Secret, now: int)

  function After(db: Db, ev: Event): Db {
    match ev
    case Batch(secret, batch, id, now, allowed) => AfterBatch(db, secret, batch, id, now, allowed)
    case Single(secret, o, now, allowed) => AfterSingle(db, secret, o, now, allowed)
    case Source(source, readings, now) => AfterSource(db, source, readings, now)
    case Saved(source, post, valid, marker) => AfterSave(db, source, post, valid, marker)
    case Imported(check, post, valid) => AfterImport(db, check, post, valid)
    case Dropped(source) => AfterDrop(db, source)
    case Retention(before, limit) => db.(rows := Pruned(db.rows, before, limit))
    case Enrolled(key, post, issued) => AfterEnroll(db, key, post, issued)
    case Rotated(key, current, issued, now) => AfterRotate(db, key, current, issued, now)
    case RevokedBy(key) => AfterRevoke(db, key)
    case Unpaired(key, current) => AfterUnpair(db, key, current)
    case TokenIssued(token, post, lifetime, postOpen, now) => AfterToken(db, token, post, lifetime, postOpen, now)
    case TokenConsumed(token, key, issued, now) => AfterConsume(db, token, key, issued, now)
    case PairingRequested(request, secret, installation, host, platform, now) =>
      AfterRequest(db, request, secret, installation, host, platform, now)
    case Decided(request, post, approve, postOpen, now) => AfterDecide(db, request, post, approve, postOpen, now)
    case Polled(request, secret, issued, now) => AfterPoll(db, request, secret, issued, now)
  }

  function AfterAll(db: Db, events: seq<Event>): Db
    decreases |events|
  {
    if events == [] then db else AfterAll(After(db, events[0]), events[1..])
  }

  // ----- Sequence numbers

  /** Every stored observation lies in its key's sequence space, and no two share
      a sequence number there. */
  ghost predicate Sequenced(db: Db) {
    && (forall c | c in db.keys :: db.keys[c].last >= 0)
    && (forall i | 0 <= i < |db.rows| :: InSpace(db, db.rows[i].obs))
    && DistinctSequences(db.rows)
  }

  predicate InSpace(db: Db, o: Observation) {
    o.collector in db.keys && 1 <= o.sequence <= db.keys[o.collector].last
  }

  ghost predicate DistinctSequences(rows: seq<Row>) {
    forall i, j | 0 <= i < j < |rows| ::
      rows[i].obs.collector == rows[j].obs.collector ==> rows[i].obs.sequence != rows[j].obs.sequence
  }

  /** kept is what some rows leave when others are deleted, in order. */
  ghost predicate Selects(rows: seq<Row>, kept: seq<Row>, at: seq<nat>) {
    && |at| == |kept|
    && (forall i | 0 <= i < |at| :: at[i] < |rows| && kept[i] == rows[at[i]])
    && (forall i, j | 0 <= i < j < |at| :: at[i] < at[j])
  }

  function Shifted(at: seq<nat>): seq<nat> { seq(|at|, i requires 0 <= i < |at| => at[i] + 1) }

  lemma KeepHead(rows: seq<Row>, kept: seq<Row>, at: seq<nat>)
    requires rows != [] && Selects(rows[1..], kept, at)
    ensures Selects(rows, [rows[0]] + kept, [0] + Shifted(at)) && Selects(rows, kept, Shifted(at))
  {
  }

  lemma {:induction false} PrunedSelects(rows: seq<Row>, before: int, limit: nat) returns (at: seq<nat>)
    ensures Selects(rows, Pruned(rows, before, limit), at)
  {
    if rows == [] || limit == 0 {
      at := seq(|rows|, i requires 0 <= i < |rows| => i);
    } else if rows[0].obs.observedAt < before {
      at := PrunedSelects(rows[1..], before, limit - 1);
      KeepHead(rows, Pruned(rows[1..], before, limit - 1), at);
      at := Shifted(at);
    } else {
      at := PrunedSelects(rows[1..], before, limit);
      KeepHead(rows, Pruned(rows[1..], before, limit), at);
      at := [0] + Shifted(at);
    }
  }

  lemma {:induction false} WithoutSelects(rows: seq<Row>, c: Id) returns (at: seq<nat>)
    ensures Selects(rows, WithoutCollector(rows, c), at)
    ensures forall i | 0 <= i < |WithoutCollector(rows, c)| :: WithoutCollector(rows, c)[i].obs.collector != c
  {
    if rows == [] {
      at := [];
    } else {
      at := WithoutSelects(rows[1..], c);
      KeepHead(rows, WithoutCollector(rows[1..], c), at);
      at := if rows[0].obs.collector == c then Shifted(at) else [0] + Shifted(at);
    }
  }

  /** Deleting rows keeps the invariant. */
  lemma SelectedSequenced(db: Db, kept: seq<Row>, at: seq<nat>)
    requires Sequenced(db) && Selects(db.rows, kept, at)
    ensures Sequenced(db.(rows := kept))
  {
    forall i | 0 <= i < |kept| ensures InSpace(db, kept[i].obs) { assert kept[i] == db.rows[at[i]]; }
    forall i, j | 0 <= i < j < |kept|
      ensures kept[i].obs.collector == kept[j].obs.collector ==> kept[i].obs.sequence != kept[j].obs.sequence
    {
      assert at[i] < at[j];
    }
  }

  /** Appending the next contiguous numbers of one key, and moving that key's
      last sequence to the end of them, keeps the invariant. */
  lemma AppendedSequenced(db: Db, c: Id, k: KeyRow, added: seq<Observation>, now: int)
    requires Sequenced(db) && c in db.keys && k.last >= db.keys[c].last
    requires forall i | 0 <= i < |added| ::
               added[i].collector == c && db.keys[c].last < added[i].sequence <= k.last
    requires forall i, j | 0 <= i < j < |added| :: added[i].sequence < added[j].sequence
    ensures Sequenced(db.(keys := db.keys[c := k], rows := db.rows + Stamped(added, now)))
  {
    var rows := db.rows + Stamped(added, now);
    var after := db.(keys := db.keys[c := k], rows := rows);
    forall i | 0 <= i < |rows| ensures InSpace(after, rows[i].obs) {
      if i < |db.rows| {
        assert InSpace(db, db.rows[i].obs);
      } else {
        assert rows[i].obs == added[i - |db.rows|];
      }
    }
    forall i, j | 0 <= i < j < |rows|
      ensures rows[i].obs.collector == rows[j].obs.collector ==> rows[i].obs.sequence != rows[j].obs.sequence
    {
      if j >= |db.rows| {
        assert rows[j].obs == added[j - |db.rows|];
        if i < |db.rows| {
          assert InSpace(db, db.rows[i].obs);
        } else {
          assert rows[i].obs == added[i - |db.rows|];
        }
      }
    }
  }

  /** Rekeying a collector whose rows are gone keeps the invariant. */
  lemma RekeyedSequenced(db: Db, c: Id, k: KeyRow, kept: seq<Row>, at: seq<nat>)
    requires Sequenced(db) && Selects(db.rows, kept, at) && k.last >= 0
    requires forall i | 0 <= i < |kept| :: kept[i].obs.collector != c
    ensures Sequenced(db.(keys := db.keys[c := k], rows := kept))
  {
    SelectedSequenced(db, kept, at);
    forall i | 0 <= i < |kept| ensures InSpace(db.(keys := db.keys[c := k]), kept[i].obs) {
      assert InSpace(db, kept[i].obs);
    }
  }

  lemma BatchSequenced(db: Db, secret: Secret, batch: seq<Observation>, id: string, now: int, allowed: bool)
    requires Sequenced(db)
    ensures Sequenced(AfterBatch(db, secret, batch, id, now, allowed))
  {
    if BatchOutcome(db, secret, batch, id, now, allowed).Accepted? {
      var c := batch[0].collector;
      var k := Confirmed(db.keys[c], secret, now).(last := batch[|batch| - 1].sequence, lastBatch := id,
                                                   seenAt := Some(now));
      AppendedSequenced(db, c, k, batch, now);
    }
  }

  lemma SourceSequenced(db: Db, source: SourceId, readings: seq<Observation>, now: int)
    requires Sequenced(db)
    ensures Sequenced(AfterSource(db, source, readings, now))
  {
    if SourceAccepted(db, source, readings) {
      var k := db.keys[source.id];
      AppendedSequenced(db, source.id, k.(last := k.last + |readings|, seenAt := Some(now)),
                        Numbered(readings, source.id, db.sources[source], k.last), now);
    }
  }

  lemma SingleSequenced(db: Db, secret: Secret, o: Observation, now: int, allowed: bool)
    requires Sequenced(db)
    ensures Sequenced(AfterSingle(db, secret, o, now, allowed))
  {
    if SingleAccepted(db, secret, o, now, allowed) {
      AppendedSequenced(db, o.collector, Confirmed(db.keys[o.collector], secret, now).(last := o.sequence), [o], now);
      assert Stamped([o], now) == [Row(o, now)];
    }
  }

  /** An operation that changes keys without moving any last sequence. */
  lemma SameLastSequenced(db: Db, after: Db)
    requires Sequenced(db) && after.rows == db.rows && db.keys.Keys <= after.keys.Keys
    requires forall c | c in after.keys ::
               if c in db.keys then after.keys[c].last == db.keys[c].last else after.keys[c].last == 0
    ensures Sequenced(after)
  {
    forall i | 0 <= i < |db.rows| ensures InSpace(after, db.rows[i].obs) { assert InSpace(db, db.rows[i].obs); }
  }

  lemma ConsumeSequenced(db: Db, token: Secret, key: Id, issued: Secret, now: int)
    requires Sequenced(db)
    ensures Sequenced(AfterConsume(db, token, key, issued, now))
  {
    if CanConsume(db, token, key, now) {
      var at := WithoutSelects(db.rows, key);
      RekeyedSequenced(db, key, Repaired(db.keys, key, db.tokens[token].post, issued), WithoutCollector(db.rows, key),
          at);
    }
  }

  lemma PollSequenced(db: Db, request: Id, secret: Secret, issued: Secret, now: int)
    requires Sequenced(db)
    ensures Sequenced(AfterPoll(db, request, secret, issued, now))
  {
    if PollOutcome(db, request, secret, issued, now).PollEnrolled? && !db.requests[request].state.Consumed? {
      var r := db.requests[request];
      var at := WithoutSelects(db.rows, r.installation);
      RekeyedSequenced(db, r.installation, Repaired(db.keys, r.installation, r.post, issued),
                       WithoutCollector(db.rows, r.installation), at);
    } else {
      SameLastSequenced(db, AfterPoll(db, request, secret, issued, now));
    }
  }

  /** The events that store or delete observations, or pair a key again. */
  predicate TouchesRows(ev: Event) {
    ev.Batch? || ev.Single? || ev.Source? || ev.Retention? || ev.TokenConsumed? || ev.Polled?
  }

  /** Rows, sequences, batch names and posts are left alone; a key that is added is new. */
  predicate Quiet(db: Db, after: Db) {
    && after.rows == db.rows && db.keys.Keys <= after.keys.Keys
    && (forall c | c in db.keys ::
          && after.keys[c].last == db.keys[c].last && after.keys[c].post == db.keys[c].post
          && after.keys[c].lastBatch == db.keys[c].lastBatch)
    && (forall c | c in after.keys && c !in db.keys :: after.keys[c].last == 0)
  }

  lemma NewKeys(db: Db, ev: Event)
    requires ev.Enrolled? || ev.Saved?
    ensures Quiet(db, After(db, ev))
  {
    hide AfterBatch, AfterSingle, AfterSource, AfterConsume, AfterPoll, Pruned, AfterRequest, AfterToken, AfterDecide,
         AfterRotate, AfterRevoke, AfterUnpair;
  }

  lemma ChangedKeys(db: Db, ev: Event)
    requires ev.Rotated? || ev.RevokedBy? || ev.Unpaired?
    ensures Quiet(db, After(db, ev))
  {
    hide AfterBatch, AfterSingle, AfterSource, AfterConsume, AfterPoll, Pruned, AfterRequest, AfterToken, AfterDecide,
         AfterEnroll, AfterSave;
  }

  /** Every other event is quiet. */
  lemma OtherEvents(db: Db, ev: Event)
    requires !TouchesRows(ev)
    ensures Quiet(db, After(db, ev))
  {
    hide AfterBatch, AfterSingle, AfterSource, AfterConsume, AfterPoll, Pruned, AfterEnroll, AfterRotate, AfterRevoke,
         AfterUnpair, AfterSave, CanRequest, CanIssueToken;
    match ev {
      case Enrolled(_, _, _) => NewKeys(db, ev);
      case Saved(_, _, _, _) => NewKeys(db, ev);
      case Rotated(_, _, _, _) => ChangedKeys(db, ev);
      case RevokedBy(_) => ChangedKeys(db, ev);
      case Unpaired(_, _) => ChangedKeys(db, ev);
      case _ =>
    }
  }

  /** The sequence-space invariant survives every operation. */
  lemma AfterSequenced(db: Db, ev: Event)
    requires Sequenced(db)
    ensures Sequenced(After(db, ev))
  {
    hide Sequenced, AfterBatch, AfterSingle, AfterSource, AfterConsume, AfterPoll, Pruned;
    if !TouchesRows(ev) { OtherEvents(db, ev); }
    match ev {
      case Batch(secret, batch, id, now, allowed) => BatchSequenced(db, secret, batch, id, now, allowed);
      case Single(secret, o, now, allowed) => SingleSequenced(db, secret, o, now, allowed);
      case Source(source, readings, now) => SourceSequenced(db, source, readings, now);
      case Retention(before, limit) =>
        var at := PrunedSelects(db.rows, before, limit);
        SelectedSequenced(db, Pruned(db.rows, before, limit), at);
      case TokenConsumed(token, key, issued, now) => ConsumeSequenced(db, token, key, issued, now);
      case Polled(request, secret, issued, now) => PollSequenced(db, request, secret, issued, now);
      case _ => SameLastSequenced(db, After(db, ev));
    }
  }

  /** In every run, every stored observation has a sequence between 1 and its
      key's last, and no two observations of a key share one. */
  lemma {:induction false} RunSequenced(db: Db, events: seq<Event>)
    requires Sequenced(db)
    ensures Sequenced(AfterAll(db, events))
    decreases |events|
  {
    if events != [] {
      AfterSequenced(db, events[0]);
      RunSequenced(After(db, events[0]), events[1..]);
    }
  }

  /** So the uniqueness constraint can never reject a write that is contiguous
      with, or beyond, what its key has seen. */
  lemma NeverConflicts(db: Db, o: Observation)
    requires Sequenced(db) && o.collector in db.keys && o.sequence > db.keys[o.collector].last
    ensures !Conflicts(db.rows, o)
  {
    forall i | 0 <= i < |db.rows| && db.rows[i].obs.collector == o.collector
      ensures db.rows[i].obs.sequence < o.sequence
    {
      assert InSpace(db, db.rows[i].obs);
    }
  }

  /** Central checks and device polls are stored whenever they have a key, and a
      batch is accepted on its own merits: the constraint never decides. */
  lemma ConstraintNeverRejects(db: Db, source: SourceId, readings: seq<Observation>, batch: seq<Observation>, now: int)
    requires Sequenced(db)
    ensures SourceAccepted(db, source, readings) <==> source in db.sources && source.id in db.keys
    ensures batch != [] && batch[0].collector in db.keys ==>
              var k := db.keys[batch[0].collector];
              Contiguous(k, db.rows, batch, now) <==>
              forall i | 0 <= i < |batch| ::
                && WellFormed(batch[i], now) && batch[i].post == k.post && batch[i].collector == batch[0].collector
                && batch[i].sequence == k.last + i + 1
  {
    forall o: Observation | o.collector in db.keys && o.sequence > db.keys[o.collector].last
      ensures !Conflicts(db.rows, o)
    {
      NeverConflicts(db, o);
    }
  }
}
