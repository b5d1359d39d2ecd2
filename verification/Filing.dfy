/** Under which post observations are filed: when every observation stays with its
    key's post, how one can end up elsewhere, and what that means for deleting the
    post of the key. */
module Filing {
  import opened Outcomes
  import opened Telemetry
  import opened TelemetryRuns
  import ForeignKeys
  import PostDeletion

  /** Each observation is filed under the post of its key. */
  ghost predicate Filed(db: Db) {
    forall i | 0 <= i < |db.rows| ::
      db.rows[i].obs.collector in db.keys ==> db.rows[i].obs.post == db.keys[db.rows[i].obs.collector].post
  }

  // ----- One event

  lemma SelectedFiled(db: Db, kept: seq<Row>, at: seq<nat>)
    requires Filed(db) && Selects(db.rows, kept, at)
    ensures Filed(db.(rows := kept))
  {
    forall i | 0 <= i < |kept| && kept[i].obs.collector in db.keys
      ensures kept[i].obs.post == db.keys[kept[i].obs.collector].post
    {
      assert kept[i] == db.rows[at[i]];
    }
  }

  /** Appending rows of one key keeps observations filed exactly when the new ones
      are filed under the key's post. */
  lemma AppendedFiled(db: Db, c: Id, k: KeyRow, added: seq<Observation>, now: int)
    requires Filed(db) && c in db.keys && k.post == db.keys[c].post
    requires forall i | 0 <= i < |added| :: added[i].collector == c
    ensures Filed(db.(keys := db.keys[c := k], rows := db.rows + Stamped(added, now))) <==>
            forall i | 0 <= i < |added| :: added[i].post == k.post
  {
    var rows := db.rows + Stamped(added, now);
    var after := db.(keys := db.keys[c := k], rows := rows);
    assert forall i | 0 <= i < |added| :: rows[|db.rows| + i].obs == added[i];
    if forall i | 0 <= i < |added| :: added[i].post == k.post {
      forall i | 0 <= i < |rows| && rows[i].obs.collector in after.keys
        ensures rows[i].obs.post == after.keys[rows[i].obs.collector].post
      {
        if i >= |db.rows| { assert rows[i].obs == added[i - |db.rows|]; }
      }
    }
  }

  lemma RekeyedFiled(db: Db, c: Id, k: KeyRow, kept: seq<Row>, at: seq<nat>)
    requires Filed(db) && Selects(db.rows, kept, at)
    requires forall i | 0 <= i < |kept| :: kept[i].obs.collector != c
    ensures Filed(db.(keys := db.keys[c := k], rows := kept))
  {
    SelectedFiled(db, kept, at);
  }

  lemma BatchFiled(db: Db, secret: Secret, batch: seq<Observation>, id: string, now: int, allowed: bool)
    requires Filed(db)
    ensures Filed(AfterBatch(db, secret, batch, id, now, allowed))
  {
    if BatchOutcome(db, secret, batch, id, now, allowed).Accepted? {
      var c := batch[0].collector;
      var k := Confirmed(db.keys[c], secret, now).(last := batch[|batch| - 1].sequence, lastBatch := id,
                                                   seenAt := Some(now));
      AppendedFiled(db, c, k, batch, now);
    }
  }

  lemma SingleFiled(db: Db, secret: Secret, o: Observation, now: int, allowed: bool)
    requires Filed(db)
    ensures Filed(AfterSingle(db, secret, o, now, allowed))
  {
    if SingleAccepted(db, secret, o, now, allowed) {
      AppendedFiled(db, o.collector, Confirmed(db.keys[o.collector], secret, now).(last := o.sequence), [o], now);
      assert Stamped([o], now) == [Row(o, now)];
    }
  }

  /** A report of a source whose key belongs to another post. */
  predicate Strays(db: Db, source: SourceId, readings: seq<Observation>) {
    && source in db.sources && source.id in db.keys && readings != []
    && db.sources[source] != db.keys[source.id].post
  }

  lemma SourceFiled(db: Db, source: SourceId, readings: seq<Observation>, now: int)
    requires Sequenced(db) && Filed(db)
    ensures Filed(AfterSource(db, source, readings, now)) <==> !Strays(db, source, readings)
  {
    ConstraintNeverRejects(db, source, readings, [], now);
    if SourceAccepted(db, source, readings) {
      var k, batch := db.keys[source.id], Numbered(readings, source.id, db.sources[source], db.keys[source.id].last);
      AppendedFiled(db, source.id, k.(last := k.last + |readings|, seenAt := Some(now)), batch, now);
      if readings != [] { assert batch[0].post == db.sources[source]; }
    }
  }

  lemma ConsumeFiled(db: Db, token: Secret, key: Id, issued: Secret, now: int)
    requires Filed(db)
    ensures Filed(AfterConsume(db, token, key, issued, now))
  {
    if CanConsume(db, token, key, now) {
      var at := WithoutSelects(db.rows, key);
      RekeyedFiled(db, key, Repaired(db.keys, key, db.tokens[token].post, issued), WithoutCollector(db.rows, key), at);
    }
  }

  lemma PollFiled(db: Db, request: Id, secret: Secret, issued: Secret, now: int)
    requires Sequenced(db) && Filed(db)
    ensures Filed(AfterPoll(db, request, secret, issued, now))
  {
    if PollOutcome(db, request, secret, issued, now).PollEnrolled? && !db.requests[request].state.Consumed? {
      var r := db.requests[request];
      var at := WithoutSelects(db.rows, r.installation);
      RekeyedFiled(db, r.installation, Repaired(db.keys, r.installation, r.post, issued),
                   WithoutCollector(db.rows, r.installation), at);
    }
  }

  lemma SamePostsFiled(db: Db, after: Db)
    requires Sequenced(db) && Filed(db) && after.rows == db.rows && db.keys.Keys <= after.keys.Keys
    requires forall c | c in db.keys :: after.keys[c].post == db.keys[c].post
    ensures Filed(after)
  {
    forall i | 0 <= i < |db.rows| ensures db.rows[i].obs.collector in db.keys { assert InSpace(db, db.rows[i].obs); }
  }

  /** Of all events only the report of a source with a foreign key misfiles.
      Pairing may move a key to another post, but deletes the key's rows first. */
  lemma AfterFiled(db: Db, ev: Event)
    requires Sequenced(db) && Filed(db)
    ensures Filed(After(db, ev)) <==> !(ev.Source? && Strays(db, ev.source, ev.readings))
  {
    hide Sequenced, Filed, AfterBatch, AfterSingle, AfterSource, AfterConsume, AfterPoll, Pruned;
    if !TouchesRows(ev) { OtherEvents(db, ev); }
    match ev {
      case Batch(secret, batch, id, now, allowed) => BatchFiled(db, secret, batch, id, now, allowed);
      case Single(secret, o, now, allowed) => SingleFiled(db, secret, o, now, allowed);
      case Source(source, readings, now) => SourceFiled(db, source, readings, now);
      case Retention(before, limit) =>
        var at := PrunedSelects(db.rows, before, limit);
        SelectedFiled(db, Pruned(db.rows, before, limit), at);
      case TokenConsumed(token, key, issued, now) => ConsumeFiled(db, token, key, issued, now);
      case Polled(request, secret, issued, now) => PollFiled(db, request, secret, issued, now);
      case _ => SamePostsFiled(db, After(db, ev));
    }
  }

  // ----- Sources and their keys

  /** No source shares its ID with a key of another post. */
  ghost predicate OwnKeys(db: Db) {
    forall s {:trigger s in db.sources} | s in db.sources && s.id in db.keys :: db.sources[s] == db.keys[s.id].post
  }

  /** That is exactly what it takes: a state has it if and only if no report of any
      source, at any time, would be misfiled. */
  lemma OwnKeysExactly(db: Db)
    requires Sequenced(db) && Filed(db)
    ensures OwnKeys(db) <==>
            forall s, readings, now {:trigger AfterSource(db, s, readings, now)} ::
                Filed(AfterSource(db, s, readings, now))
  {
    forall s, readings, now ensures Filed(AfterSource(db, s, readings, now)) <==> !Strays(db, s, readings) {
      SourceFiled(db, s, readings, now);
    }
    if !OwnKeys(db) {
      var s :| s in db.sources && s.id in db.keys && db.sources[s] != db.keys[s.id].post;
      var some := [Observation(1, "", "", 0, 0, "", None, "", "", map[])];
      assert Strays(db, s, some);
      assert !Filed(AfterSource(db, s, some, 0));
    }
  }

  /** The key an event creates or pairs, and the post it puts it under. */
  function WritesKey(db: Db, ev: Event): Option<(Id, Id)> {
    match ev
    case Enrolled(key, post, _) => if key in db.keys then None else Some((key, post))
    case TokenConsumed(token, key, _, now) =>
      if CanConsume(db, token, key, now) then Some((key, db.tokens[token].post)) else None
    case Polled(request, secret, issued, now) =>
      if PollOutcome(db, request, secret, issued, now).PollEnrolled? && !db.requests[request].state.Consumed? then
        Some((db.requests[request].installation, db.requests[request].post))
      else None
    case Saved(source, post, valid, _) =>
      if CanSave(db, source, valid) && source.id !in db.keys then Some((source.id, post)) else None
    case _ => None
  }

  /** The source an event saves, and the post it reports for. */
  function WritesSource(db: Db, ev: Event): Option<(SourceId, Id)> {
    match ev
    case Saved(source, post, valid, _) => if CanSave(db, source, valid) then Some((source, post)) else None
    case Imported(check, post, valid) => if valid then Some((Check(check), post)) else None
    case _ => None
  }

  /** The event puts a key under another post than that of a source with its ID, or
      saves a source for another post than that of the key with its ID. */
  predicate Clashes(db: Db, ev: Event) {
    || (WritesKey(db, ev).Some? && exists s | s in db.sources ::
          s.id == WritesKey(db, ev).value.0 && db.sources[s] != WritesKey(db, ev).value.1)
    || (WritesSource(db, ev).Some?
        && var (s, post) := WritesSource(db, ev).value;
           s.id in db.keys && db.keys[s.id].post != post)
  }

  /** That key was written, and nothing else about the posts of keys. */
  ghost predicate Wrote(db: Db, after: Db, key: Option<(Id, Id)>) {
    && after.keys.Keys == db.keys.Keys + (if key.Some? then {key.value.0} else {})
    && (forall c | c in after.keys ::
          after.keys[c].post == if key.Some? && c == key.value.0 then key.value.1 else db.keys[c].post)
  }

  lemma IngestWrites(db: Db, ev: Event)
    requires ev.Batch? || ev.Single? || ev.Source? || ev.Retention?
    ensures Wrote(db, After(db, ev), None)
  {
    hide Stamped, Numbered, Contiguous, Conflicts, WellFormed, Pruned, Opens, AfterConsume, AfterPoll, AfterEnroll,
         AfterRotate, AfterRevoke, AfterUnpair, AfterSave, AfterRequest, AfterToken, AfterDecide;
  }

  lemma PairingWrites(db: Db, ev: Event)
    requires ev.TokenConsumed? || ev.Polled?
    ensures Wrote(db, After(db, ev), WritesKey(db, ev))
  {
    hide WithoutCollector, AfterBatch, AfterSingle, AfterSource, AfterEnroll, AfterRotate, AfterRevoke, AfterUnpair,
         AfterSave, AfterRequest, AfterToken, AfterDecide;
  }

  lemma CreationWrites(db: Db, ev: Event)
    requires ev.Enrolled? || ev.Saved?
    ensures Wrote(db, After(db, ev), WritesKey(db, ev))
  {
    hide AfterBatch, AfterSingle, AfterSource, AfterConsume, AfterPoll, AfterRotate, AfterRevoke, AfterUnpair,
         AfterRequest, AfterToken, AfterDecide, Pruned;
  }

  lemma RestWrites(db: Db, ev: Event)
    requires !TouchesRows(ev) && !ev.Enrolled? && !ev.Saved?
    ensures Wrote(db, After(db, ev), None)
  {
    hide AfterBatch, AfterSingle, AfterSource, AfterConsume, AfterPoll, AfterEnroll, AfterSave, CanRequest,
         CanIssueToken, CanDecide, Pruned;
  }

  lemma Writes(db: Db, ev: Event)
    ensures Wrote(db, After(db, ev), WritesKey(db, ev))
  {
    hide After, Wrote;
    if ev.TokenConsumed? || ev.Polled? {
      PairingWrites(db, ev);
    } else if ev.Enrolled? || ev.Saved? {
      CreationWrites(db, ev);
    } else if TouchesRows(ev) {
      IngestWrites(db, ev);
    } else {
      RestWrites(db, ev);
    }
  }

  lemma WritesSources(db: Db, ev: Event)
    ensures
      var after, source := After(db, ev), WritesSource(db, ev);
      after.sources == if source.Some? then db.sources[source.value.0 := source.value.1]
                       else if ev.Dropped? then db.sources - {ev.source} else db.sources
  {
  }

  /** Sources keep their own keys through an event exactly when it does not clash. */
  lemma AfterOwnKeys(db: Db, ev: Event)
    requires OwnKeys(db)
    ensures OwnKeys(After(db, ev)) <==> !Clashes(db, ev)
  {
    hide After, CanConsume, PollOutcome;
    Writes(db, ev);
    WritesSources(db, ev);
    var after, key, source := After(db, ev), WritesKey(db, ev), WritesSource(db, ev);
    if source.Some? {
      assert source.value.0 in after.sources;
      assert key.Some? ==> key.value == (source.value.0.id, source.value.1) && key.value.0 !in db.keys;
    }
    if key.Some? && exists s | s in db.sources :: s.id == key.value.0 && db.sources[s] != key.value.1 {
      var s :| s in db.sources && s.id == key.value.0 && db.sources[s] != key.value.1;
      assert s in after.sources && after.sources[s] == db.sources[s];
    }
  }

  predicate NeverClashes(db: Db, events: seq<Event>)
    decreases |events|
  {
    events != [] ==> !Clashes(db, events[0]) && NeverClashes(After(db, events[0]), events[1..])
  }

  /** In every run without a clash observations stay filed under their key's post. */
  lemma {:induction false} RunFiled(db: Db, events: seq<Event>)
    requires Sequenced(db) && Filed(db) && OwnKeys(db) && NeverClashes(db, events)
    ensures Filed(AfterAll(db, events)) && OwnKeys(AfterAll(db, events))
    decreases |events|
  {
    hide Sequenced, Filed, Clashes, After;
    if events != [] {
      AfterFiled(db, events[0]);
      AfterSequenced(db, events[0]);
      AfterOwnKeys(db, events[0]);
      RunFiled(After(db, events[0]), events[1..]);
    }
  }

  // ----- Runs that misfile

  const EMPTY := Db(map[], [], map[], map[], map[], map[])

  /** An agent pairs under the ID of an existing check and is approved for another
      post; the check goes on reporting for its own. */
  function PairedOver(secret: Secret, o: Observation): seq<Event> {
    [Saved(Check("chk"), "P1", true, "marker"), PairingRequested("r", secret, "chk", "host", "linux", 0),
     Decided("r", "P2", true, true, 1), Polled("r", secret, "issued", 2), Source(Check("chk"), [o], 3)]
  }

  /** A check is saved for one post under the ID of a collector of another. */
  function SavedOver(o: Observation): seq<Event> {
    [Enrolled("k", "P2", "issued"), Saved(Check("k"), "P1", true, "marker"), Source(Check("k"), [o], 3)]
  }

  lemma OneEvent(db: Db, ev: Event, rest: seq<Event>)
    ensures AfterAll(db, [ev] + rest) == AfterAll(After(db, ev), rest)
  {
    assert ([ev] + rest)[1..] == rest;
  }

  lemma LastEvent(db: Db, ev: Event)
    ensures AfterAll(db, [ev]) == After(db, ev)
  {
    assert [ev][1..] == [];
  }

  /** The states that pairing over a check passes through. */
  const CHECKED := EMPTY.(keys := map["chk" := KeyRow("P1", 0, "marker", None, false, "", None)],
                          sources := map[Check("chk") := "P1"])

  function Asked(secret: Secret, state: RequestState, post: Id): map<Id, Request> {
    map["r" := Request(secret, "chk", state, post, PAIRING_LIFETIME)]
  }

  function PairedDb(secret: Secret): Db {
    CHECKED.(keys := map["chk" := KeyRow("P2", 0, "issued", None, false, "", None)],
             connections := map["chk" := Connection("P2", false)], requests := Asked(secret, Consumed, "P2"))
  }

  lemma PairedOverAsks(secret: Secret)
    requires |secret| >= 32
    ensures After(EMPTY, Saved(Check("chk"), "P1", true, "marker")) == CHECKED
    ensures After(CHECKED, PairingRequested("r", secret, "chk", "host", "linux", 0)) ==
            CHECKED.(requests := Asked(secret, Awaiting, ""))
  {
    assert (set r | r in CHECKED.requests && CHECKED.requests[r].state.Awaiting?
        && CHECKED.requests[r].expires > 0) == {};
  }

  lemma PairedOverDecides(secret: Secret)
    ensures After(CHECKED.(requests := Asked(secret, Awaiting, "")), Decided("r", "P2", true, true, 1)) ==
            CHECKED.(requests := Asked(secret, Approved, "P2"))
  {
  }

  lemma PairedOverEnrolls(secret: Secret)
    ensures After(CHECKED.(requests := Asked(secret, Approved, "P2")), Polled("r", secret, "issued", 2)) ==
            PairedDb(secret)
  {
  }

  lemma PairedOverReports(secret: Secret, o: Observation)
    ensures
      var end := After(PairedDb(secret), Source(Check("chk"), [o], 3));
      && end.keys.Keys == {"chk"} && end.keys["chk"].post == "P2"
      && |end.rows| == 1 && end.rows[0].obs.collector == "chk" && end.rows[0].obs.post == "P1"
  {
    assert SourceAccepted(PairedDb(secret), Check("chk"), [o]);
  }

  lemma PairedOverMisfiles(secret: Secret, o: Observation)
    requires |secret| >= 32
    ensures Filed(EMPTY) && Sequenced(EMPTY) && !Filed(AfterAll(EMPTY, PairedOver(secret, o)))
    ensures
      var end := AfterAll(EMPTY, PairedOver(secret, o));
      && end.keys.Keys == {"chk"} && end.keys["chk"].post == "P2"
      && |end.rows| == 1 && end.rows[0].obs.collector == "chk" && end.rows[0].obs.post == "P1"
  {
    hide After, AfterAll, PairedDb, CHECKED, Asked;
    var events := PairedOver(secret, o);
    PairedOverAsks(secret);
    PairedOverDecides(secret);
    PairedOverEnrolls(secret);
    PairedOverReports(secret, o);
    var last := [events[4]];
    OneEvent(EMPTY, events[0], [events[1]] + ([events[2]] + ([events[3]] + last)));
    OneEvent(CHECKED, events[1], [events[2]] + ([events[3]] + last));
    OneEvent(CHECKED.(requests := Asked(secret, Awaiting, "")), events[2], [events[3]] + last);
    OneEvent(CHECKED.(requests := Asked(secret, Approved, "P2")), events[3], last);
    LastEvent(PairedDb(secret), events[4]);
    assert events == [events[0]] + ([events[1]] + ([events[2]] + ([events[3]] + last)));
    ForeignRow(AfterAll(EMPTY, events));
  }

  lemma ForeignRow(db: Db)
    requires |db.rows| == 1 && db.rows[0].obs.collector in db.keys
    ensures Filed(db) <==> db.rows[0].obs.post == db.keys[db.rows[0].obs.collector].post
  {
  }

  lemma SavedOverMisfiles(o: Observation)
    ensures Filed(EMPTY) && Sequenced(EMPTY) && !Filed(AfterAll(EMPTY, SavedOver(o)))
  {
    var events := SavedOver(o);
    var db1 := After(EMPTY, events[0]);
    var db2 := After(db1, events[1]);
    assert SourceAccepted(db2, Check("k"), [o]);
    assert After(db2, events[2]).rows == Stamped([FiledUnder(o, "k", "P1", 1)], 3);
    OneEvent(EMPTY, events[0], [events[1]] + [events[2]]);
    OneEvent(db1, events[1], [events[2]]);
    LastEvent(db2, events[2]);
    assert events == [events[0]] + ([events[1]] + [events[2]]);
    ForeignRow(AfterAll(EMPTY, events));
  }

  // ----- What it means for deletions

  /** The rows of a foreign-key database that stand for these keys and observations;
      at gives the place of each stored observation. */
  ghost predicate Represents(t: Db, db: ForeignKeys.Db, at: map<ForeignKeys.Key, nat>) {
    && (forall c :: (ForeignKeys.CollectorKeys, c) in db <==> c in t.keys)
    && (forall c | c in t.keys :: PostDeletion.PostOf(db, (ForeignKeys.CollectorKeys, c)) == Some(t.keys[c].post))
    && (forall k :: (ForeignKeys.Observations, k) in db <==> k in at)
    && (forall k | k in at ::
          && at[k] < |t.rows| && PostDeletion.PostOf(db, (ForeignKeys.Observations, k)) == Some(t.rows[at[k]].obs.post)
          && ForeignKeys.CollectorId in db[(ForeignKeys.Observations, k)]
          && db[(ForeignKeys.Observations, k)][ForeignKeys.CollectorId] == t.rows[at[k]].obs.collector)
    && (forall i: nat | i < |t.rows| :: i in at.Values)
  }

  /** Observations are filed under their key's post exactly when the database is
      aligned for every post as far as observations go. */
  lemma FiledIsAligned(t: Db, db: ForeignKeys.Db, at: map<ForeignKeys.Key, nat>)
    requires Represents(t, db, at)
    ensures Filed(t) <==> forall p :: PostDeletion.ObservationsAligned(db, p)
  {
    if Filed(t) {
      forall p ensures PostDeletion.ObservationsAligned(db, p) {
        forall x | x in db && x.0.Observations? && ForeignKeys.CollectorId in db[x]
                   && PostDeletion.PostOf(db, (ForeignKeys.CollectorKeys, db[x][ForeignKeys.CollectorId])) == Some(p)
          ensures PostDeletion.PostOf(db, x) == Some(p)
        {
          assert x == (ForeignKeys.Observations, x.1) && x.1 in at;
          assert t.rows[at[x.1]].obs.collector in t.keys;
        }
      }
    }
    if forall p :: PostDeletion.ObservationsAligned(db, p) {
      forall i | 0 <= i < |t.rows| && t.rows[i].obs.collector in t.keys
        ensures t.rows[i].obs.post == t.keys[t.rows[i].obs.collector].post
      {
        assert i in at.Values;
        var k :| k in at && at[k] == i;
        var p := t.keys[t.rows[i].obs.collector].post;
        assert PostDeletion.ObservationsAligned(db, p);
        assert (ForeignKeys.Observations, k) in db;
      }
    }
  }

  /** So with alerts in place every post can be deleted, in any children-first
      order, if and only if observations are filed under their key's post. */
  lemma DeletableExactly(t: Db, db: ForeignKeys.Db, at: map<ForeignKeys.Key, nat>, order: seq<ForeignKeys.Table>)
    requires Represents(t, db, at) && ForeignKeys.Consistent(db) && ForeignKeys.NotNull(db)
    requires ForeignKeys.ChildrenFirst(order) && forall p :: PostDeletion.AlertsAligned(db, p)
    ensures Filed(t) <==> forall p :: ForeignKeys.RunAll(db, ForeignKeys.Script(order, ForeignKeys.One(p))).Some?
  {
    FiledIsAligned(t, db, at);
    forall p
      ensures ForeignKeys.RunAll(db, ForeignKeys.Script(order, ForeignKeys.One(p))).Some? <==>
              PostDeletion.ObservationsAligned(db, p)
    {
      assert PostDeletion.AlertsAligned(db, p);
      PostDeletion.DeletionExact(db, p, order);
    }
  }

  /** After the pairing run above, the post the key was paired to cannot be deleted
      by the replicated script, nor by the standalone one. */
  lemma MisfiledPostStays(secret: Secret, o: Observation, db: ForeignKeys.Db, at: map<ForeignKeys.Key, nat>)
    requires |secret| >= 32 && Represents(AfterAll(EMPTY, PairedOver(secret, o)), db, at)
    requires ForeignKeys.Consistent(db) && ForeignKeys.NotNull(db)
    ensures ForeignKeys.RunAll(db, ForeignKeys.Script(ForeignKeys.REPLICATED_ORDER, ForeignKeys.One("P2"))).None?
    ensures ForeignKeys.RunAll(db, ForeignKeys.Script(ForeignKeys.STANDALONE_ORDER, ForeignKeys.One("P2"))).None?
  {
    PairedOverMisfiles(secret, o);
    var end := AfterAll(EMPTY, PairedOver(secret, o));
    assert 0 in at.Values;
    var k :| k in at && at[k] == 0;
    var x := (ForeignKeys.Observations, k);
    assert x in db && db[x][ForeignKeys.CollectorId] == "chk" && PostDeletion.PostOf(db, x) == Some("P1");
    assert "chk" in end.keys;
    assert !PostDeletion.ObservationsAligned(db, "P2");
    PostDeletion.ProgramOrders();
    PostDeletion.DeletionExact(db, "P2", ForeignKeys.REPLICATED_ORDER);
    PostDeletion.DeletionExact(db, "P2", ForeignKeys.STANDALONE_ORDER);
  }
}
