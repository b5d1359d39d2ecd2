/** Rule evaluation: hysteresis, maintenance, missing data, and the history of
    alert rows one rule leaves. */
module Alerts {
  import opened Outcomes

  datatype Operator = Gt | Gte | Lt | Lte

  datatype Policy = TreatUnknown | TreatHealthy | TreatFiring

  datatype Rule = Rule(operator: Operator, threshold: real, duration: int, recovery: Option<real>, policy: Policy)

  datatype Reading = Reading(at: int, value: Option<real>, good: bool, maintenance: bool)

  datatype AlertState = Pending | Firing | Acknowledged | Suppressed | Resolved

  datatype Alert = Alert(state: AlertState, openedAt: int, updatedAt: int, value: Option<real>)

  function Compare(v: real, op: Operator, t: real): bool {
    match op
    case Gt => v > t
    case Gte => v >= t
    case Lt => v < t
    case Lte => v <= t
  }

  /** Strictly past the recovery threshold, on the healthy side. */
  function Recovered(v: real, op: Operator, t: real): bool {
    if op.Gt? || op.Gte? then v < t else v > t
  }

  /** The reading breaches the rule as it stands, before hysteresis. */
  predicate Breaches(r: Rule, e: Reading) {
    if e.value.None? || !e.good then r.policy.TreatFiring? else Compare(e.value.value, r.operator, r.threshold)
  }

  /** Hysteresis: while an alert is up, a value decides by the recovery threshold. */
  predicate StillBreached(r: Rule, current: AlertState, e: Reading) {
    if e.value.Some? && r.recovery.Some? && (current.Firing? || current.Acknowledged?) then
      !Recovered(e.value.value, r.operator, r.recovery.value)
    else Breaches(r, e)
  }

  /** The state an evaluation asks for when no row exists yet. */
  function FirstState(r: Rule, e: Reading): AlertState {
    if !Breaches(r, e) then Resolved
    else if e.maintenance then Suppressed
    else if r.duration == 0 then Firing
    else Pending
  }

  /** The state an evaluation asks for over the rule's latest row. */
  function NextState(r: Rule, current: Alert, e: Reading): AlertState {
    var breached := StillBreached(r, current.state, e);
    if breached && (current.state.Pending? || current.state.Firing? || current.state.Acknowledged?) then
      if current.state.Pending? && e.at - current.openedAt >= r.duration then Firing else current.state
    else if !breached && current.state.Resolved? then Resolved
    else if breached && e.maintenance then Suppressed
    else if breached && FirstState(r, e).Resolved? then Pending
    else FirstState(r, e)
  }

  /** The rows after one evaluation, latest last. */
  function Evaluated(r: Rule, history: seq<Alert>, e: Reading): seq<Alert> {
    if history == [] then
      if Breaches(r, e) then [Alert(FirstState(r, e), e.at, e.at, e.value)] else []
    else
      var current := history[|history| - 1];
      var next := NextState(r, current, e);
      if next == current.state then history
      else history + [Alert(next, if StillBreached(r, current.state, e) then current.openedAt else e.at, e.at, e.value)]
  }

  /** The rows after acknowledging row k, which only a firing row allows. */
  function AcknowledgedAt(history: seq<Alert>, k: nat, at: int): seq<Alert> {
    if k < |history| && history[k].state.Firing? then
      history[k := history[k].(state := Acknowledged, updatedAt := at)]
    else history
  }

  // ----- In other words

  /** A reading breaches a rule when a good value is beyond the threshold on the
      side of the operator, and otherwise when missing data counts as firing. */
  lemma BreachesExactly(r: Rule, e: Reading)
    ensures Breaches(r, e) <==>
            || (e.good && e.value.Some?
                && (|| (r.operator.Gt? && e.value.value > r.threshold)
                    || (r.operator.Gte? && e.value.value >= r.threshold)
                    || (r.operator.Lt? && e.value.value < r.threshold)
                    || (r.operator.Lte? && e.value.value <= r.threshold)))
            || ((!e.good || e.value.None?) && r.policy.TreatFiring?)
  {
  }

  /** The first row of a rule: none without a breach, suppressed in maintenance,
      firing at once without a duration, and pending with one. */
  lemma FirstRow(r: Rule, e: Reading)
    ensures
      if !Breaches(r, e) then Evaluated(r, [], e) == []
      else
        Evaluated(r, [], e) ==
        [Alert(if e.maintenance then Suppressed else if r.duration == 0 then Firing else Pending, e.at, e.at, e.value)]
  {
  }

  /** What follows each state. */
  lemma NextExactly(r: Rule, current: Alert, e: Reading)
    ensures
      var anew := if e.maintenance then Suppressed else if r.duration == 0 then Firing else Pending;
      NextState(r, current, e) ==
      match current.state
      case Pending =>
        if !Breaches(r, e) then Resolved else if e.at - current.openedAt >= r.duration then Firing else Pending
      case Suppressed => if !Breaches(r, e) then Resolved else anew
      case Resolved => if !Breaches(r, e) then Resolved else anew
      case Firing => AfterUp(r, Firing, e)
      case Acknowledged => AfterUp(r, Acknowledged, e)
  {
  }

  /** What follows an alert that is up. With a recovery threshold and a value it
      stays up until the value is strictly past it on the healthy side; otherwise as
      long as readings breach. Once not up, a reading that still counts as a breach
      starts over. */
  function AfterUp(r: Rule, up: AlertState, e: Reading): AlertState {
    var holds :=
      if r.recovery.Some? && e.value.Some? then
        (if r.operator.Gt? || r.operator.Gte? then e.value.value >= r.recovery.value
         else e.value.value <= r.recovery.value)
      else Breaches(r, e);
    if holds then up
    else if !Breaches(r, e) then Resolved
    else if e.maintenance then Suppressed
    else if r.duration == 0 then Firing
    else Pending
  }

  /** An evaluation keeps every row there is and appends at most one, of another
      state, with the reading's value and time. */
  lemma AppendsOneRow(r: Rule, history: seq<Alert>, e: Reading)
    ensures
      var after := Evaluated(r, history, e);
      && history <= after && |after| <= |history| + 1
      && (|after| > |history| ==>
            && after[|history|].value == e.value && after[|history|].updatedAt == e.at
            && (history != [] ==> after[|history|].state != history[|history| - 1].state
                                  && after[|history|].state == NextState(r, history[|history| - 1], e)))
      && (history != [] && |after| == |history| ==>
            NextState(r, history[|history| - 1], e) == history[|history| - 1].state)
  {
  }

  /** An acknowledgement changes the state and the time of one firing row. */
  lemma AcknowledgesOneRow(history: seq<Alert>, k: nat, at: int)
    ensures
      var after := AcknowledgedAt(history, k, at);
      && |after| == |history| && (forall i | 0 <= i < |history| && i != k :: after[i] == history[i])
      && (k < |history| ==>
            after[k] == if history[k].state.Firing? then
                          Alert(Acknowledged, history[k].openedAt, at, history[k].value)
                        else history[k])
  {
  }

  class Engine {
    var rule: Rule
    var history: seq<Alert>

    constructor (rule: Rule)
      ensures this.rule == rule && history == []
    {
      this.rule, history := rule, [];
    }

    /** Evaluates one reading, step by step as the transaction does. */
    method Evaluate(e: Reading) returns (state: AlertState)
      modifies this`history
      ensures history == old(Evaluated(rule, history, e))
      ensures state == if history == [] then Resolved else history[|history| - 1].state
    {
      var breached := e.value.Some? && e.good && Compare(e.value.value, rule.operator, rule.threshold);
      if (e.value.None? || !e.good) && rule.policy.TreatFiring? { breached := true; }
      var desired := Resolved;
      if breached {
        desired := Pending;
        if rule.duration == 0 { desired := Firing; }
      }
      if e.maintenance && breached { desired := Suppressed; }
      if history != [] {
        var current := history[|history| - 1];
        if e.value.Some? && rule.recovery.Some? && (current.state.Firing? || current.state.Acknowledged?) {
          breached := !Recovered(e.value.value, rule.operator, rule.recovery.value);
        }
        if e.maintenance && breached {
          desired := Suppressed;
        } else if breached && desired.Resolved? {
          desired := Pending;
        }
        if breached && (current.state.Pending? || current.state.Firing? || current.state.Acknowledged?) {
          desired := current.state;
          if current.state.Pending? && e.at - current.openedAt >= rule.duration { desired := Firing; }
        }
        if !breached && current.state.Resolved? { desired := Resolved; }
        if desired == current.state { return desired; }
        history := history + [Alert(desired, if breached then current.openedAt else e.at, e.at, e.value)];
        return desired;
      }
      if !breached { return Resolved; }
      history := [Alert(desired, e.at, e.at, e.value)];
      return desired;
    }

    method Acknowledge(k: nat, at: int) returns (ok: bool)
      modifies this`history
      ensures ok == old(k < |history| && history[k].state.Firing?)
      ensures history == old(AcknowledgedAt(history, k, at))
    {
      if k >= |history| || !history[k].state.Firing? { return false; }
      history := history[k := history[k].(state := Acknowledged, updatedAt := at)];
      return true;
    }
  }

  // ----- Runs

  datatype Event = Read(e: Reading) | Ack(k: nat, at: int)

  function After(r: Rule, history: seq<Alert>, ev: Event): seq<Alert> {
    match ev
    case Read(e) => Evaluated(r, history, e)
    case Ack(k, at) => AcknowledgedAt(history, k, at)
  }

  /** The rows after the first n events, from an empty history. */
  function Play(r: Rule, events: seq<Event>, n: nat): seq<Alert>
    requires n <= |events|
  {
    if n == 0 then [] else After(r, Play(r, events, n - 1), events[n - 1])
  }

  /** The recovery threshold is not beyond the threshold itself: what breaches the
      rule has not recovered. */
  predicate HealthySide(r: Rule) {
    r.recovery.Some? ==>
      if r.operator.Gt? || r.operator.Gte? then r.recovery.value <= r.threshold else r.recovery.value >= r.threshold
  }

  /** Every value in the run is a good reading. */
  predicate GoodReadings(events: seq<Event>) {
    forall i | 0 <= i < |events| && events[i].Read? :: events[i].e.value.Some? && events[i].e.good
  }

  predicate Up(s: AlertState) { s.Firing? || s.Acknowledged? }

  /** Leaving the up states, exactly. With a recovery threshold on the healthy
      side and a good reading, an up alert is followed by a new row exactly when
      the value is strictly past recovery, and that row resolves it. */
  lemma LeavesUpExactly(r: Rule, current: Alert, e: Reading)
    requires Up(current.state) && r.recovery.Some? && HealthySide(r) && e.value.Some? && e.good
    ensures NextState(r, current, e) ==
            if Recovered(e.value.value, r.operator, r.recovery.value) then Resolved else current.state
  {
  }

  /** Without a good reading that fails: under a policy that treats missing data
      as firing, a bad reading that carries a recovered value moves a firing alert
      back to pending. */
  lemma BadReadingDemotes()
    ensures
      var r := Rule(Gt, 10.0, 60, Some(5.0), TreatFiring);
      var e := Reading(100, Some(1.0), false, false);
      NextState(r, Alert(Firing, 0, 0, None), e) == Pending
  {
  }

  /** Exactly when an up alert is followed by anything but its resolution: a
      reading of bad quality carries a recovered value under that policy, and
      does not ask for the alert's own state. */
  lemma DemotesExactly(r: Rule, current: Alert, e: Reading)
    requires Up(current.state) && HealthySide(r)
    ensures
      var next := NextState(r, current, e);
      next != current.state && !next.Resolved? <==>
        && r.recovery.Some? && e.value.Some? && !e.good && r.policy.TreatFiring?
        && Recovered(e.value.value, r.operator, r.recovery.value)
        && !(current.state.Firing? && r.duration == 0 && !e.maintenance)
  {
  }

  /** The transitions one row can be followed by. An acknowledged row was firing
      when it was written. */
  predicate Allowed(a: AlertState, b: AlertState) {
    match a
    case Pending => Up(b) || b.Resolved?
    case Firing => b.Resolved?
    case Acknowledged => b.Resolved?
    case Suppressed => b.Pending? || Up(b) || b.Resolved?
    case Resolved => b.Pending? || Up(b) || b.Suppressed?
  }

  ghost predicate Chain(history: seq<Alert>) {
    forall i | 0 <= i < |history| - 1 :: Allowed(history[i].state, history[i + 1].state)
  }

  /** One good evaluation asks for an allowed transition or none. */
  lemma NextAllowed(r: Rule, current: Alert, e: Reading)
    requires HealthySide(r) && e.value.Some? && e.good
    ensures NextState(r, current, e) == current.state || Allowed(current.state, NextState(r, current, e))
  {
  }

  lemma EvaluatedChain(r: Rule, history: seq<Alert>, e: Reading)
    requires Chain(history) && HealthySide(r) && e.value.Some? && e.good
    ensures Chain(Evaluated(r, history, e))
  {
    var after := Evaluated(r, history, e);
    if history != [] && after != history {
      NextAllowed(r, history[|history| - 1], e);
      forall i | 0 <= i < |after| - 1 ensures Allowed(after[i].state, after[i + 1].state) {
        if i + 1 < |history| { assert Allowed(history[i].state, history[i + 1].state); }
      }
    }
  }

  lemma AcknowledgedChain(history: seq<Alert>, k: nat, at: int)
    requires Chain(history)
    ensures Chain(AcknowledgedAt(history, k, at))
  {
    var after := AcknowledgedAt(history, k, at);
    forall i | 0 <= i < |after| - 1 ensures Allowed(after[i].state, after[i + 1].state) {
      assert Allowed(history[i].state, history[i + 1].state);
    }
  }

  /** In every run of good readings and acknowledgements, of any row at any time,
      consecutive rows are different states in the allowed relation. */
  lemma {:induction false} RunChain(r: Rule, events: seq<Event>, n: nat)
    requires n <= |events| && HealthySide(r) && GoodReadings(events)
    ensures Chain(Play(r, events, n))
  {
    if n > 0 {
      RunChain(r, events, n - 1);
      match events[n - 1] {
        case Read(e) => EvaluatedChain(r, Play(r, events, n - 1), e);
        case Ack(k, at) => AcknowledgedChain(Play(r, events, n - 1), k, at);
      }
    }
  }

  /** Only a row that was up can be followed by anything else. */
  ghost predicate ChainUnlessUp(history: seq<Alert>) {
    forall i | 0 <= i < |history| - 1 :: Up(history[i].state) || Allowed(history[i].state, history[i + 1].state)
  }

  /** In every run whatever, for every rule and with readings missing or bad, a row
      that was not up is followed by an allowed different state. */
  lemma {:induction false} EveryRunChain(r: Rule, events: seq<Event>, n: nat)
    requires n <= |events|
    ensures ChainUnlessUp(Play(r, events, n))
  {
    if n > 0 {
      EveryRunChain(r, events, n - 1);
      var before, after := Play(r, events, n - 1), Play(r, events, n);
      forall i | 0 <= i < |after| - 1 ensures Up(after[i].state) || Allowed(after[i].state, after[i + 1].state) {
        if i + 1 < |before| { assert Up(before[i].state) || Allowed(before[i].state, before[i + 1].state); }
      }
    }
  }

  /** What one bad reading does to the chain: an acknowledged alert is followed by
      a second firing row, and two acknowledged rows end up side by side. */
  lemma BadReadingBreaksChain()
    ensures
      var r := Rule(Gt, 10.0, 0, Some(5.0), TreatFiring);
      var events := [Good(0, 11.0), Ack(0, 1), Read(Reading(2, Some(1.0), false, false)), Ack(1, 3)];
      var h := Play(r, events, 4);
      |h| == 2 && h[0].state == h[1].state == Acknowledged && !Chain(h)
  {
    var r := Rule(Gt, 10.0, 0, Some(5.0), TreatFiring);
    var events := [Good(0, 11.0), Ack(0, 1), Read(Reading(2, Some(1.0), false, false)), Ack(1, 3)];
    assert Play(r, events, 0) == [];
    assert Play(r, events, 1) == [Alert(Firing, 0, 0, Some(11.0))];
    assert Play(r, events, 2) == [Alert(Acknowledged, 0, 1, Some(11.0))];
    assert Play(r, events, 3) == Play(r, events, 2) + [Alert(Firing, 2, 2, Some(1.0))];
    assert Play(r, events, 4) == Play(r, events, 2) + [Alert(Acknowledged, 2, 3, Some(1.0))];
  }

  // ----- When a pending alert fires

  predicate Waiting(s: AlertState) { s.Pending? || s.Suppressed? }

  /** The reading writes a row although it does not keep up a breach: it resolves
      the alert, or is one of the bad readings that demote it. */
  predicate Breaks(r: Rule, history: seq<Alert>, e: Reading)
    requires history != []
  {
    var current := history[|history| - 1];
    !StillBreached(r, current.state, e) && NextState(r, current, e) != current.state
  }

  /** The instant a waiting alert counts its duration from: that of the last
      reading that broke off a breach, or else of the first breach. */
  function Anchor(r: Rule, events: seq<Event>, n: nat): int
    requires n <= |events|
  {
    if n == 0 then 0
    else
      var before := Play(r, events, n - 1);
      match events[n - 1]
      case Ack(_, _) => Anchor(r, events, n - 1)
      case Read(e) =>
        if before == [] || Breaks(r, before, e) then e.at else Anchor(r, events, n - 1)
  }

  /** The stored opening instant of the latest row is that anchor, in every run. */
  lemma {:induction false} OpenedAtIsAnchor(r: Rule, events: seq<Event>, n: nat)
    requires n <= |events|
    ensures
      var h := Play(r, events, n);
      h != [] ==> h[|h| - 1].openedAt == Anchor(r, events, n)
  {
    if n > 0 {
      OpenedAtIsAnchor(r, events, n - 1);
    }
  }

  /** A pending alert fires at a breaching reading exactly when the rule's
      duration has passed since that anchor. */
  lemma FiresExactly(r: Rule, events: seq<Event>, n: nat, e: Reading)
    requires n <= |events|
    requires
      var h := Play(r, events, n);
      h != [] && h[|h| - 1].state.Pending? && Breaches(r, e)
    ensures
      var h := Play(r, events, n);
      var after := Evaluated(r, h, e);
      after[|after| - 1].state == if e.at - Anchor(r, events, n) >= r.duration then Firing else Pending
  {
    OpenedAtIsAnchor(r, events, n);
  }

  /** Readings i, i + 1, ... up to n all breach. */
  ghost predicate Unbroken(r: Rule, events: seq<Event>, i: nat, n: nat)
    requires n <= |events|
  {
    forall j | i <= j < n && events[j].Read? :: Breaches(r, events[j].e)
  }

  /** Nothing has fired or been resolved yet. */
  ghost predicate AllWaiting(history: seq<Alert>) {
    forall i | 0 <= i < |history| :: Waiting(history[i].state)
  }

  /** Before anything has fired or been resolved, the anchor is the first of an
      unbroken run of breaches. */
  lemma {:induction false} AnchorStartsBreach(r: Rule, events: seq<Event>, n: nat) returns (i: nat)
    requires n <= |events|
    requires
      var h := Play(r, events, n);
      h != [] && AllWaiting(h)
    ensures i < n && events[i].Read? && events[i].e.at == Anchor(r, events, n) && Unbroken(r, events, i, n)
  {
    var before, h := Play(r, events, n - 1), Play(r, events, n);
    if before == [] {
      i := n - 1;
    } else {
      assert |before| <= |h|;
      forall k | 0 <= k < |before| ensures Waiting(before[k].state) {
        assert Waiting(h[k].state);
      }
      i := AnchorStartsBreach(r, events, n - 1);
      assert Waiting(h[|h| - 1].state);
    }
  }

  /** The first alert of any rule, whatever the readings. If event n makes the rule fire and nothing had
      fired or been resolved before, the readings up to it have breached without
      interruption for at least the rule's duration. */
  lemma FirstFiringIsEarned(r: Rule, events: seq<Event>, n: nat) returns (i: nat)
    requires 0 < n <= |events|
    requires AllWaiting(Play(r, events, n - 1))
    requires
      var h := Play(r, events, n);
      h != [] && h[|h| - 1].state.Firing?
    ensures i < n && events[i].Read? && events[n - 1].Read? && Unbroken(r, events, i, n)
    ensures events[n - 1].e.at - events[i].e.at >= r.duration
  {
    var before := Play(r, events, n - 1);
    if events[n - 1].Ack? { assert false; }
    if before != [] && before[|before| - 1].state.Pending? {
      FiresExactly(r, events, n - 1, events[n - 1].e);
      i := AnchorStartsBreach(r, events, n - 1);
    } else {
      i := n - 1;
    }
  }

  /** Opening instants: a resolved row carries its own, and so does a waiting row
      that demotes an alert; over a waiting or resolved row any other row carries
      the one before it. */
  ghost predicate Inherits(history: seq<Alert>) {
    && (forall i | 0 <= i < |history| && history[i].state.Resolved? :: history[i].openedAt == history[i].updatedAt)
    && (forall i | 0 <= i < |history| - 1 && !history[i + 1].state.Resolved? && !Up(history[i].state) ::
          history[i + 1].openedAt == history[i].openedAt)
    && (forall i | 0 <= i < |history| - 1 && Waiting(history[i + 1].state) && Up(history[i].state) ::
          history[i + 1].openedAt == history[i + 1].updatedAt)
  }

  lemma {:induction false} RunInherits(r: Rule, events: seq<Event>, n: nat)
    requires n <= |events|
    ensures Inherits(Play(r, events, n))
  {
    if n > 0 {
      RunInherits(r, events, n - 1);
      var before, after := Play(r, events, n - 1), Play(r, events, n);
      forall i | 0 <= i < |after| - 1
        ensures !after[i + 1].state.Resolved? && !Up(after[i].state) ==> after[i + 1].openedAt == after[i].openedAt
        ensures Waiting(after[i + 1].state) && Up(after[i].state) ==> after[i + 1].openedAt == after[i + 1].updatedAt
      {
        if i + 1 < |before| {
          assert !before[i + 1].state.Resolved? && !Up(before[i].state)
              ==> before[i + 1].openedAt == before[i].openedAt;
        }
      }
    }
  }

  /** So an alert after a resolved row at index k, with only waiting rows between,
      counts its duration from the instant of that resolution. */
  lemma {:induction false} CountsFromResolution(r: Rule, events: seq<Event>, n: nat, k: nat, last: nat)
    requires n <= |events|
    requires
      var h := Play(r, events, n);
      && k <= last < |h| && h[k].state.Resolved? && (forall i | k < i < last :: Waiting(h[i].state))
      && (k < last ==> !h[last].state.Resolved?)
    ensures Play(r, events, n)[last].openedAt == Play(r, events, n)[k].updatedAt
    decreases last
  {
    RunInherits(r, events, n);
    if k < last { CountsFromResolution(r, events, n, k, last - 1); }
  }

  function Good(at: int, v: real): Event { Read(Reading(at, Some(v), true, false)) }

  /** Once a row has been resolved that guarantee is gone: after a short breach, a
      recovery and a long healthy spell, the rule fires one second into a new
      breach although its duration is a minute. */
  lemma ResolvedHistoryFiresEarly()
    ensures
      var r := Rule(Gt, 10.0, 60, None, TreatUnknown);
      var events := [Good(0, 11.0), Good(10, 1.0), Good(1000, 11.0), Good(1001, 11.0)];
      var h := Play(r, events, 4);
      h[|h| - 1].state == Firing && !Breaches(r, events[1].e) && Breaches(r, events[2].e)
  {
    var r := Rule(Gt, 10.0, 60, None, TreatUnknown);
    var events := [Good(0, 11.0), Good(10, 1.0), Good(1000, 11.0), Good(1001, 11.0)];
    assert Play(r, events, 0) == [];
    assert Play(r, events, 1) == [Alert(Pending, 0, 0, Some(11.0))];
    assert Play(r, events, 2) == [Alert(Pending, 0, 0, Some(11.0)), Alert(Resolved, 10, 10, Some(1.0))];
    assert Play(r, events, 3) == Play(r, events, 2) + [Alert(Pending, 10, 1000, Some(11.0))];
    assert Play(r, events, 4) == Play(r, events, 3) + [Alert(Firing, 10, 1001, Some(11.0))];
  }

  /** Maintenance keeps new alerts suppressed but does not hold back a pending
      one: over a pending row a breach is treated the same with and without it. */
  lemma MaintenanceDoesNotHoldPending(r: Rule, current: Alert, e: Reading)
    requires current.state.Pending? && Breaches(r, e)
    ensures NextState(r, current, e) == NextState(r, current, e.(maintenance := !e.maintenance))
    ensures NextState(r, current, e) != Suppressed
  {
  }
}
