/** Overlap-and-confirm credential rotation over whole runs. */
module Rotation {
  import opened Outcomes
  import opened Telemetry
  import opened TelemetryRuns

  /** The event pairs c again, or reissues its unused credential. Attempts that are
      refused do not. */
  predicate Repairs(db: Db, c: Id, ev: Event) {
    || (ev.TokenConsumed? && ev.key == c && CanConsume(db, ev.token, c, ev.now))
    || (ev.Polled? && PollOutcome(db, ev.request, ev.secret, ev.issued, ev.now).PollEnrolled?
        && db.requests[ev.request].installation == c)
  }

  /** A committed ingest for c presented the unexpired pending credential. */
  predicate Confirms(db: Db, c: Id, ev: Event) {
    && c in db.keys
    && match ev
       case Batch(secret, batch, id, now, allowed) =>
         && BatchOutcome(db, secret, batch, id, now, allowed).Accepted?
         && batch[0].collector == c && IsPending(db.keys[c], secret, now)
       case Single(secret, o, now, allowed) =>
         SingleAccepted(db, secret, o, now, allowed) && o.collector == c && IsPending(db.keys[c], secret, now)
       case _ => false
  }

  predicate Rotates(db: Db, c: Id, ev: Event) {
    ev.Rotated? && ev.key == c && CanRotate(db, c, ev.current)
  }

  /** Confirmation, rotation, or nothing: what one event did to a key's
      credentials. A revoked key stays revoked. */
  predicate Moved(k: KeyRow, k': KeyRow, confirms: bool, rotates: bool, ev: Event) {
    && (k.revoked ==> k'.revoked)
    && (if confirms then !k.revoked && k.pending.Some? && k'.secret == k.pending.value.secret && k'.pending.None?
        else if rotates && ev.Rotated? then
          k'.secret == k.secret && k'.pending == Some(Pending(ev.issued, ev.now + PENDING_REPLACEMENT_LIFETIME))
        else k'.secret == k.secret && k'.pending == k.pending)
  }

  lemma BatchStep(db: Db, c: Id, ev: Event)
    requires c in db.keys && ev.Batch?
    ensures c in After(db, ev).keys && Moved(db.keys[c], After(db, ev).keys[c], Confirms(db, c, ev), false, ev)
  {
    hide Contiguous, Stamped, AfterSingle, AfterSource, AfterConsume, AfterPoll, AfterRotate, AfterUnpair, AfterRevoke,
         AfterSave, AfterEnroll, AfterToken, AfterRequest, AfterDecide, Pruned;
  }

  lemma SingleStep(db: Db, c: Id, ev: Event)
    requires c in db.keys && (ev.Single? || ev.Source?)
    ensures c in After(db, ev).keys && Moved(db.keys[c], After(db, ev).keys[c], Confirms(db, c, ev), false, ev)
  {
    hide Conflicts, WellFormed, Stamped, Numbered, AfterBatch, AfterConsume, AfterPoll, AfterRotate, AfterUnpair,
         AfterRevoke, AfterSave, AfterEnroll, AfterToken, AfterRequest, AfterDecide, Pruned;
  }

  lemma PairingStep(db: Db, c: Id, ev: Event)
    requires c in db.keys && !Repairs(db, c, ev) && (ev.TokenConsumed? || ev.Polled? || ev.Enrolled?)
    ensures c in After(db, ev).keys && After(db, ev).keys[c] == db.keys[c]
  {
  }

  /** What one event can do to the credentials of a key that is not paired again. */
  lemma CredentialStep(db: Db, c: Id, ev: Event)
    requires c in db.keys && !Repairs(db, c, ev)
    ensures c in After(db, ev).keys
    ensures Moved(db.keys[c], After(db, ev).keys[c], Confirms(db, c, ev), Rotates(db, c, ev), ev)
  {
    if ev.Batch? {
      BatchStep(db, c, ev);
    } else if ev.Single? || ev.Source? {
      SingleStep(db, c, ev);
    } else if ev.TokenConsumed? || ev.Polled? || ev.Enrolled? {
      PairingStep(db, c, ev);
    }
  }

  /** Along the run c is never paired again. */
  predicate NeverRepaired(db: Db, c: Id, events: seq<Event>)
    decreases |events|
  {
    events != [] ==> !Repairs(db, c, events[0]) && NeverRepaired(After(db, events[0]), c, events[1..])
  }

  predicate NeverConfirmed(db: Db, c: Id, events: seq<Event>)
    decreases |events|
  {
    events != [] ==> !Confirms(db, c, events[0]) && NeverConfirmed(After(db, events[0]), c, events[1..])
  }

  /** The event revokes or unpairs c. */
  predicate Cuts(db: Db, c: Id, ev: Event) {
    (ev.RevokedBy? && ev.key == c && CanRevoke(db, c)) || (ev.Unpaired? && ev.key == c && CanRotate(db, c, ev.current))
  }

  predicate NeverCut(db: Db, c: Id, events: seq<Event>)
    decreases |events|
  {
    events != [] ==> !Cuts(db, c, events[0]) && NeverCut(After(db, events[0]), c, events[1..])
  }

  /** The old credential keeps opening the key, through any number of rotations,
      expiries and retries, until a committed ingest confirms a replacement or
      the key is revoked. */
  lemma {:induction false} OldStaysUntilConfirmed(db: Db, c: Id, events: seq<Event>, now: int)
    requires c in db.keys && NeverRepaired(db, c, events) && NeverConfirmed(db, c, events)
    requires !db.keys[c].revoked && NeverCut(db, c, events)
    ensures c in AfterAll(db, events).keys && Opens(AfterAll(db, events).keys[c], db.keys[c].secret, now)
    decreases |events|
  {
    if events != [] {
      CredentialStep(db, c, events[0]);
      assert !After(db, events[0]).keys[c].revoked by { StaysOpen(db, c, events[0]); }
      OldStaysUntilConfirmed(After(db, events[0]), c, events[1..], now);
    }
  }

  /** Only revocation and unpairing revoke a key. */
  lemma StaysOpen(db: Db, c: Id, ev: Event)
    requires c in db.keys && !Repairs(db, c, ev) && !Cuts(db, c, ev) && !db.keys[c].revoked
    ensures c in After(db, ev).keys && !After(db, ev).keys[c].revoked
  {
  }

  // ----- Credentials that are out of use

  /** Every rotation of c issues a secret that was not in use before. */
  predicate IssuesNew(db: Db, c: Id, used: set<Secret>, events: seq<Event>)
    decreases |events|
  {
    events != [] ==>
      && (Rotates(db, c, events[0]) ==> events[0].issued !in used)
      && IssuesNew(After(db, events[0]), c, Used(db, c, used, events[0]), events[1..])
  }

  function Used(db: Db, c: Id, used: set<Secret>, ev: Event): set<Secret> {
    if Rotates(db, c, ev) then used + {ev.issued} else used
  }

  /** The secret neither is nor can become the key's active credential. */
  predicate OutOfUse(k: KeyRow, s: Secret) {
    k.secret != s && (k.pending.Some? ==> k.pending.value.secret != s)
  }

  /** A secret out of use never opens the key again. */
  lemma {:induction false} RetiredForever(db: Db, c: Id, used: set<Secret>, events: seq<Event>, s: Secret, now: int)
    requires c in db.keys && NeverRepaired(db, c, events) && IssuesNew(db, c, used, events)
    requires s in used && OutOfUse(db.keys[c], s)
    ensures c in AfterAll(db, events).keys && !Opens(AfterAll(db, events).keys[c], s, now)
    decreases |events|
  {
    if events != [] {
      CredentialStep(db, c, events[0]);
      var next := Used(db, c, used, events[0]);
      RetiredForever(After(db, events[0]), c, next, events[1..], s, now);
    }
  }

  /** Confirmation: in that very step the pending credential becomes the active
      one and the old one stops opening the key, for the rest of the run. */
  lemma ConfirmationSwaps(db: Db, c: Id, ev: Event, used: set<Secret>, events: seq<Event>, now: int)
    requires c in db.keys && Confirms(db, c, ev) && !Repairs(db, c, ev)
    requires db.keys[c].secret in used && db.keys[c].secret != db.keys[c].pending.value.secret
    requires NeverRepaired(After(db, ev), c, events) && IssuesNew(After(db, ev), c, used, events)
    ensures c in After(db, ev).keys && Opens(After(db, ev).keys[c], db.keys[c].pending.value.secret, now)
    ensures c in AfterAll(After(db, ev), events).keys
    ensures !Opens(AfterAll(After(db, ev), events).keys[c], db.keys[c].secret, now)
  {
    CredentialStep(db, c, ev);
    ConfirmedStaysOpen(db, c, ev);
    RetiredForever(After(db, ev), c, used, events, db.keys[c].secret, now);
  }

  lemma ConfirmedStaysOpen(db: Db, c: Id, ev: Event)
    requires c in db.keys && Confirms(db, c, ev)
    ensures c in After(db, ev).keys && !After(db, ev).keys[c].revoked
  {
  }

  /** Every ingest along the run that presents a pending credential of c and is
      accepted is handled at or after the instant. */
  predicate ConfirmedFrom(db: Db, c: Id, events: seq<Event>, expiry: int)
    decreases |events|
  {
    events != [] ==>
      && (Confirms(db, c, events[0]) ==> events[0].now >= expiry)
      && ConfirmedFrom(After(db, events[0]), c, events[1..], expiry)
  }

  /** A replacement that has expired unconfirmed never opens the key again: no
      late ingest can promote it, whatever else is rotated or confirmed. */
  lemma {:induction false} UnconfirmedExpires(db: Db, c: Id, used: set<Secret>, events: seq<Event>, expiry: int,
                                              now: int, s: Secret)
    requires c in db.keys && NeverRepaired(db, c, events) && IssuesNew(db, c, used, events)
    requires s in used && db.keys[c].secret != s && now >= expiry && ConfirmedFrom(db, c, events, expiry)
    requires db.keys[c].pending.Some? && db.keys[c].pending.value.secret == s ==>
               db.keys[c].pending.value.expires <= expiry
    ensures c in AfterAll(db, events).keys && !Opens(AfterAll(db, events).keys[c], s, now)
    decreases |events|
  {
    if events != [] {
      CredentialStep(db, c, events[0]);
      var next := Used(db, c, used, events[0]);
      UnconfirmedExpires(After(db, events[0]), c, next, events[1..], expiry, now, s);
    }
  }

  /** After revocation or unpairing nothing opens the key. */
  lemma {:induction false} RevokedForever(db: Db, c: Id, events: seq<Event>, s: Secret, now: int)
    requires c in db.keys && db.keys[c].revoked && NeverRepaired(db, c, events)
    ensures c in AfterAll(db, events).keys && !Opens(AfterAll(db, events).keys[c], s, now)
    decreases |events|
  {
    if events != [] {
      CredentialStep(db, c, events[0]);
      RevokedForever(After(db, events[0]), c, events[1..], s, now);
    }
  }

  /** Pairing again replaces the active credential only: what opens the key then
      is the new credential, or a pending one from before that has not expired. */
  lemma PolledOpens(db: Db, request: Id, secret: Secret, issued: Secret, now: int, s: Secret, later: int)
    requires PollOutcome(db, request, secret, issued, now).PollEnrolled? && db.requests[request].state.Approved?
    requires db.requests[request].installation in db.keys
    ensures
      var c := db.requests[request].installation;
      Opens(AfterPoll(db, request, secret, issued, now).keys[c], s, later) <==>
      s == issued || IsPending(db.keys[c], s, later)
  {
  }

  /** The same of pairing with a token. */
  lemma RepairedOpens(db: Db, token: Secret, c: Id, issued: Secret, now: int, s: Secret, later: int)
    requires CanConsume(db, token, c, now) && c in db.keys
    ensures Opens(AfterConsume(db, token, c, issued, now).keys[c], s, later) <==>
            s == issued || IsPending(db.keys[c], s, later)
  {
  }
}
