/** Which telemetry is accepted and what is then stored, field by field. */
module Acceptance {
  import opened Outcomes
  import opened Telemetry
  import opened TelemetryRuns

  const DAY := 24 * 60 * 60 * 1_000_000_000
  const FIVE_MINUTES := 5 * 60 * 1_000_000_000

  /** What one observation has to be: version 1, a signal name, few labels, a known
      quality, a finite value if any, and observed in the last day or at most five
      minutes ahead. */
  lemma SoundExactly(o: Observation, now: int)
    ensures WellFormed(o, now) <==>
            && o.version == 1 && 1 <= |o.signal| && |o.signal| <= 128 && |o.labels| <= 32
            && (o.quality == "good" || o.quality == "uncertain" || o.quality == "bad" || o.quality == "missing"
                || o.quality == "stale")
            && (o.value.Some? ==> o.value.value.Finite?)
            && now - DAY <= o.observedAt && o.observedAt <= now + FIVE_MINUTES
  {
  }

  /** Where no two rows share a number, a batch is accepted exactly when it has 1 to
      128 sound observations of one key and its post, an admitted credential, room
      in the budget, a name other than the last one, and continues the key's
      sequence without a gap. */
  lemma BatchAcceptedExactly(db: Db, secret: Secret, batch: seq<Observation>, id: string, now: int, allowed: bool)
    requires Sequenced(db)
    ensures BatchOutcome(db, secret, batch, id, now, allowed).Accepted? <==>
            && 1 <= |batch| && |batch| <= 128 && batch[0].collector in db.keys && allowed
            && var k := db.keys[batch[0].collector];
            && Opens(k, secret, now) && (id == "" || id != k.lastBatch)
            && forall i | 0 <= i < |batch| ::
                 && WellFormed(batch[i], now) && batch[i].collector == batch[0].collector && batch[i].post == k.post
                 && batch[i].sequence == k.last + i + 1
  {
    hide Sequenced, WellFormed;
    ConstraintNeverRejects(db, Check(""), [], batch, now);
  }

  /** It is acknowledged without being stored exactly when it names the last batch
      and comes with an admitted credential for the post of the key. */
  lemma BatchDuplicateExactly(db: Db, secret: Secret, batch: seq<Observation>, id: string, now: int, allowed: bool)
    ensures BatchOutcome(db, secret, batch, id, now, allowed).Duplicate? <==>
            && 1 <= |batch| && |batch| <= 128 && batch[0].collector in db.keys && id != ""
            && var k := db.keys[batch[0].collector];
            k.post == batch[0].post && Opens(k, secret, now) && id == k.lastBatch
    ensures !BatchOutcome(db, secret, batch, id, now, allowed).Accepted? ==>
              AfterBatch(db, secret, batch, id, now, allowed) == db
  {
  }

  /** An accepted batch is stored as it is and at once, its key moves to the last of
      its numbers, takes its name and is seen, and a pending credential it came with
      becomes the active one. Nothing else changes. */
  lemma BatchStored(db: Db, secret: Secret, batch: seq<Observation>, id: string, now: int, allowed: bool)
    requires BatchOutcome(db, secret, batch, id, now, allowed).Accepted?
    ensures batch != [] && batch[0].collector in db.keys
    ensures
      var after, c := AfterBatch(db, secret, batch, id, now, allowed), batch[0].collector;
      var k := db.keys[c];
      && |after.rows| == |db.rows| + |batch| && after.rows[..|db.rows|] == db.rows
      && (forall i | 0 <= i < |batch| :: after.rows[|db.rows| + i] == Row(batch[i], now))
      && after.keys.Keys == db.keys.Keys && (forall x | x in db.keys && x != c :: after.keys[x] == db.keys[x])
      && after.keys[c].last == k.last + |batch| && after.keys[c].lastBatch == id && after.keys[c].seenAt == Some(now)
      && after.keys[c].post == k.post && !after.keys[c].revoked
      && (if k.pending.Some? && k.pending.value.secret == secret && now < k.pending.value.expires then
            after.keys[c].secret == secret && after.keys[c].pending.None?
          else after.keys[c].secret == k.secret && after.keys[c].pending == k.pending)
    ensures
      var after := AfterBatch(db, secret, batch, id, now, allowed);
      after.tokens == db.tokens && after.requests == db.requests && after.connections == db.connections
      && after.sources == db.sources
  {
    assert Contiguous(db.keys[batch[0].collector], db.rows, batch, now);
  }

  /** A single observation is accepted exactly when it is sound, numbered beyond what
      its key has seen, of the key's post, within budget, and admitted; it is then
      stored as it is. */
  lemma SingleAcceptedExactly(db: Db, secret: Secret, o: Observation, now: int, allowed: bool)
    requires Sequenced(db)
    ensures
      var after := AfterSingle(db, secret, o, now, allowed);
      if && WellFormed(o, now) && o.sequence >= 1 && o.collector in db.keys && allowed
         && var k := db.keys[o.collector];
         k.post == o.post && Opens(k, secret, now) && o.sequence > k.last
      then
        && SingleAccepted(db, secret, o, now, allowed) && after.rows == db.rows + [Row(o, now)]
        && after.keys.Keys == db.keys.Keys
        && (forall x | x in db.keys && x != o.collector :: after.keys[x] == db.keys[x])
        && after.keys[o.collector].last == o.sequence
        && after.keys[o.collector].lastBatch == db.keys[o.collector].lastBatch
        && after.keys[o.collector].post == o.post
      else !SingleAccepted(db, secret, o, now, allowed) && after == db
  {
    hide Sequenced, WellFormed, Conflicts;
    if o.collector in db.keys && o.sequence > db.keys[o.collector].last { NeverConflicts(db, o); }
  }

  /** A report of a check or a device is stored whole, each reading with its signal,
      value, unit, quality and time, under the source's ID and post and the next
      numbers. */
  lemma ReportStored(db: Db, source: SourceId, readings: seq<Observation>, now: int)
    requires Sequenced(db)
    ensures
      var after := AfterSource(db, source, readings, now);
      if source in db.sources && source.id in db.keys then
        && |after.rows| == |db.rows| + |readings| && after.rows[..|db.rows|] == db.rows
        && (forall i | 0 <= i < |readings| ::
              var row := after.rows[|db.rows| + i];
              && row.ingestedAt == now && row.obs.collector == source.id && row.obs.post == db.sources[source]
              && row.obs.sequence == db.keys[source.id].last + i + 1 && row.obs.signal == readings[i].signal
              && row.obs.value == readings[i].value && row.obs.unit == readings[i].unit
              && row.obs.quality == readings[i].quality && row.obs.observedAt == readings[i].observedAt
              && row.obs.labels == readings[i].labels && row.obs.version == readings[i].version)
        && after.keys == db.keys[source.id := db.keys[source.id].(last := db.keys[source.id].last + |readings|,
                                                                  seenAt := Some(now))]
      else after == db
  {
    hide Sequenced, Conflicts;
    ConstraintNeverRejects(db, source, readings, [], now);
  }

  /** A source is saved with its post if it is new; its key, if it had none, is
      created under that post with nothing seen. */
  lemma SourceSaved(db: Db, source: SourceId, post: Id, valid: bool, marker: Secret)
    ensures
      var after := AfterSave(db, source, post, valid, marker);
      if source.id != "" && valid && source !in db.sources then
        && after.sources == db.sources[source := post] && after.rows == db.rows && after.tokens == db.tokens
        && after.requests == db.requests && after.connections == db.connections
        && (source.id in db.keys ==> after.keys == db.keys)
        && (source.id !in db.keys ==>
              after.keys == db.keys[source.id := KeyRow(post, 0, marker, None, false, "", None)])
      else after == db
  {
  }

  /** The budget: none when the limit is not positive. Otherwise a request opens a
      new window when there is none of the last minute, fits when the window has
      room, and is charged only if it fits. */
  lemma BudgetExactly(rate: map<Id, Window>, limit: int, c: Id, samples: nat, now: int)
    ensures
      var current := c in rate && now - rate[c].minuteStart < 60 * 1_000_000_000;
      var spent := if current then rate[c].samples else 0;
      var start := if current then rate[c].minuteStart else now;
      && (Fits(rate, limit, c, samples, now) <==> limit <= 0 || spent + samples <= limit)
      && Charged(rate, limit, c, samples, now) ==
         if limit <= 0 then rate
         else rate[c := Window(start, if spent + samples <= limit then spent + samples else spent)]
  {
  }
}
