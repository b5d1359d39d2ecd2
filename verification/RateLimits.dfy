/** The two rate limits, over whole runs of a monotone clock: the fixed-window
    ingest budget and the sliding log of on-demand checks. */
module RateLimits {
  import opened Telemetry

  // ----- The fixed window

  /** One call of `Service.Allow`. */
  datatype Charge = Charge(collector: Id, samples: nat, at: int)

  function RateAfter(limit: int, run: seq<Charge>): map<Id, Window> {
    if run == [] then map[]
    else
      var c := run[|run| - 1];
      Charged(RateAfter(limit, run[..|run| - 1]), limit, c.collector, c.samples, c.at)
  }

  /** Samples of one collector admitted in `[from, until)`. */
  function Admitted(limit: int, run: seq<Charge>, who: Id, from: int, until: int): nat {
    if run == [] then 0
    else
      var front, c := run[..|run| - 1], run[|run| - 1];
      Admitted(limit, front, who, from, until)
      + if c.collector == who && from <= c.at < until && Fits(RateAfter(limit, front), limit, who, c.samples, c.at)
        then c.samples else 0
  }

  ghost predicate Monotone(run: seq<Charge>) {
    forall i, j | 0 <= i < j < |run| :: run[i].at <= run[j].at
  }

  lemma {:induction false} AdmittedSplit(limit: int, run: seq<Charge>, who: Id, from: int, mid: int, until: int)
    requires from <= mid <= until
    ensures Admitted(limit, run, who, from, until)
            == Admitted(limit, run, who, from, mid) + Admitted(limit, run, who, mid, until)
  {
    if run != [] { AdmittedSplit(limit, run[..|run| - 1], who, from, mid, until); }
  }

  lemma {:induction false} AdmittedWithin(limit: int, run: seq<Charge>, who: Id, from: int, until: int, wider: int,
                                          later: int)
    requires wider <= from && until <= later
    ensures Admitted(limit, run, who, from, until) <= Admitted(limit, run, who, wider, later)
  {
    if run != [] { AdmittedWithin(limit, run[..|run| - 1], who, from, until, wider, later); }
  }

  /** What the recorded window says of a run that ended before `end`: every sample
      since its start and none past its minute, with no more than one limit's
      worth in the minute before it. */
  ghost predicate WindowRecords(limit: int, run: seq<Charge>, who: Id, end: int) {
    var rate := RateAfter(limit, run);
    if who !in rate then forall from, until :: Admitted(limit, run, who, from, until) == 0
    else
      var w := rate[who];
      && run != [] && w.minuteStart <= run[|run| - 1].at && 0 <= w.samples <= limit
      && Admitted(limit, run, who, w.minuteStart, end) == w.samples
      && Admitted(limit, run, who, w.minuteStart + MINUTE, end) == 0
      && Admitted(limit, run, who, w.minuteStart - MINUTE, w.minuteStart) <= limit
  }

  lemma {:induction false} RunRecorded(limit: int, run: seq<Charge>, who: Id, end: int)
    requires limit > 0 && Monotone(run) && forall i | 0 <= i < |run| :: run[i].at < end
    ensures WindowRecords(limit, run, who, end)
  {
    if run != [] {
      var front, c := run[..|run| - 1], run[|run| - 1];
      RunRecorded(limit, front, who, end);
      var rate := RateAfter(limit, front);
      if c.collector == who && who in rate && c.at - rate[who].minuteStart >= MINUTE {
        var w := rate[who];
        AdmittedWithin(limit, front, who, c.at, end, w.minuteStart + MINUTE, end);
        AdmittedWithin(limit, front, who, c.at + MINUTE, end, c.at, end);
        AdmittedWithin(limit, front, who, c.at - MINUTE, c.at, w.minuteStart, end);
      }
    }
  }

  /** Over every monotone run under a constant limit, no half-open minute admits
      more than twice the limit for a collector. */
  lemma {:induction false} AtMostTwice(limit: int, run: seq<Charge>, who: Id, t: int)
    requires limit > 0 && Monotone(run)
    ensures Admitted(limit, run, who, t, t + MINUTE) <= 2 * limit
  {
    if run != [] {
      var c := run[|run| - 1];
      AtMostTwice(limit, run[..|run| - 1], who, t);
      if c.collector == who && t <= c.at < t + MINUTE {
        RunRecorded(limit, run, who, t + MINUTE);
        var m := RateAfter(limit, run)[who].minuteStart;
        if m <= t {
          AdmittedWithin(limit, run, who, t, t + MINUTE, m, t + MINUTE);
        } else {
          AdmittedSplit(limit, run, who, t, m, t + MINUTE);
          AdmittedWithin(limit, run, who, t, m, m - MINUTE, m);
        }
      }
    }
  }

  /** Charge j opens a window for its collector. */
  predicate OpensWindow(limit: int, run: seq<Charge>, j: nat)
    requires j < |run|
  {
    var rate := RateAfter(limit, run[..j]);
    run[j].collector !in rate || run[j].at - rate[run[j].collector].minuteStart >= MINUTE
  }

  /** Every recorded window was opened by a charge at its start. */
  lemma {:induction false} WindowOpened(limit: int, run: seq<Charge>, who: Id) returns (j: nat)
    requires limit > 0 && who in RateAfter(limit, run)
    ensures j < |run| && run[j].collector == who && OpensWindow(limit, run, j)
    ensures run[j].at == RateAfter(limit, run)[who].minuteStart
  {
    var front, last := run[..|run| - 1], |run| - 1;
    if run[last].collector == who && OpensWindow(limit, run, last) {
      j := last;
    } else {
      j := WindowOpened(limit, front, who);
      assert front[..j] == run[..j] && front[j] == run[j];
    }
  }

  /** Two charges of the collector fall into the half-open minute, and the later one
      opens a window. */
  predicate Straddled(limit: int, run: seq<Charge>, who: Id, t: int) {
    exists i, j {:trigger run[i], OpensWindow(limit, run, j)} | 0 <= i < j < |run| ::
      && run[i].collector == run[j].collector == who && t <= run[i].at && run[j].at < t + MINUTE
      && OpensWindow(limit, run, j)
  }

  lemma {:induction false} NoneAdmitted(limit: int, run: seq<Charge>, who: Id, from: int, until: int)
    requires forall i | 0 <= i < |run| && run[i].collector == who :: !(from <= run[i].at < until)
    ensures Admitted(limit, run, who, from, until) == 0
  {
    if run != [] { NoneAdmitted(limit, run[..|run| - 1], who, from, until); }
  }

  lemma StraddledPrefix(limit: int, run: seq<Charge>, who: Id, t: int)
    requires run != [] && !Straddled(limit, run, who, t)
    ensures !Straddled(limit, run[..|run| - 1], who, t)
  {
    var front := run[..|run| - 1];
    forall i, j | 0 <= i < j < |front| && front[i].collector == front[j].collector == who && t <= front[i].at
                  && front[j].at < t + MINUTE
      ensures !OpensWindow(limit, front, j)
    {
      assert front[..j] == run[..j] && front[i] == run[i] && front[j] == run[j];
      assert !OpensWindow(limit, run, j);
    }
  }

  /** When a half-open minute keeps to a single budget: if none but the first charge
      in it opens a window, it admits at most the limit. */
  lemma {:induction false} AtMostOnce(limit: int, run: seq<Charge>, who: Id, t: int)
    requires limit > 0 && Monotone(run) && !Straddled(limit, run, who, t)
    ensures Admitted(limit, run, who, t, t + MINUTE) <= limit
  {
    if run != [] {
      var front, c := run[..|run| - 1], run[|run| - 1];
      if c.collector == who && t <= c.at < t + MINUTE {
        RunRecorded(limit, run, who, t + MINUTE);
        var m := RateAfter(limit, run)[who].minuteStart;
        if m <= t {
          AdmittedWithin(limit, run, who, t, t + MINUTE, m, t + MINUTE);
        } else {
          var j := WindowOpened(limit, run, who);
          forall i | 0 <= i < |run| && run[i].collector == who ensures !(t <= run[i].at < m) {
            if t <= run[i].at < m { assert false; }
          }
          NoneAdmitted(limit, run, who, t, m);
          AdmittedSplit(limit, run, who, t, m, t + MINUTE);
        }
      } else {
        StraddledPrefix(limit, run, who, t);
        AtMostOnce(limit, front, who, t);
      }
    }
  }

  // Windows open by arrival times alone, so the times decide whether a minute is
  // bound by a single limit whatever the samples.

  /** The same collectors at the same times. */
  predicate SameTimes(run: seq<Charge>, other: seq<Charge>) {
    && |run| == |other|
    && forall i | 0 <= i < |run| :: run[i].collector == other[i].collector && run[i].at == other[i].at
  }

  lemma {:induction false} SameWindows(limit: int, run: seq<Charge>, other: seq<Charge>)
    requires limit > 0 && SameTimes(run, other)
    ensures RateAfter(limit, run).Keys == RateAfter(limit, other).Keys
    ensures forall c | c in RateAfter(limit, run) ::
              RateAfter(limit, run)[c].minuteStart == RateAfter(limit, other)[c].minuteStart
  {
    if run != [] { SameWindows(limit, run[..|run| - 1], other[..|other| - 1]); }
  }

  lemma SameOpenings(limit: int, run: seq<Charge>, other: seq<Charge>, j: nat)
    requires limit > 0 && SameTimes(run, other) && j < |run|
    ensures OpensWindow(limit, run, j) <==> OpensWindow(limit, other, j)
  {
    SameWindows(limit, run[..j], other[..j]);
  }

  lemma SameStraddled(limit: int, run: seq<Charge>, other: seq<Charge>, who: Id, t: int)
    requires limit > 0 && SameTimes(run, other) && Straddled(limit, other, who, t)
    ensures Straddled(limit, run, who, t)
  {
    var i, j :| 0 <= i < j < |other| && other[i].collector == other[j].collector == who && t <= other[i].at
                && other[j].at < t + MINUTE && OpensWindow(limit, other, j);
    SameOpenings(limit, run, other, j);
    assert run[i].at == other[i].at;
  }

  /** Every request asks for a sample at least. */
  predicate Positive(run: seq<Charge>) { forall i | 0 <= i < |run| :: run[i].samples > 0 }

  /** Charges i and j ask for a full budget, all others for too much. */
  function TwoBudgets(limit: nat, run: seq<Charge>, i: nat, j: nat): (other: seq<Charge>)
    ensures SameTimes(run, other)
  {
    seq(|run|, k requires 0 <= k < |run| => run[k].(samples := if k == i || k == j then limit else limit + 1))
  }

  /** A collector that asked for too much every time has spent nothing. */
  lemma {:induction false} Unspent(limit: nat, run: seq<Charge>, who: Id)
    requires limit > 0 && forall k | 0 <= k < |run| && run[k].collector == who :: run[k].samples > limit
    ensures who in RateAfter(limit, run) ==> RateAfter(limit, run)[who].samples == 0
  {
    if run != [] { Unspent(limit, run[..|run| - 1], who); }
  }

  lemma {:induction false} AtLeastBoth(limit: int, run: seq<Charge>, who: Id, from: int, until: int, i: nat, j: nat)
    requires i < j < |run| && run[i].collector == run[j].collector == who
    requires from <= run[i].at < until && from <= run[j].at < until
    requires Fits(RateAfter(limit, run[..i]), limit, who, run[i].samples, run[i].at)
    requires Fits(RateAfter(limit, run[..j]), limit, who, run[j].samples, run[j].at)
    ensures Admitted(limit, run, who, from, until) >= run[i].samples + run[j].samples
  {
    var front := run[..|run| - 1];
    if j < |run| - 1 {
      assert front[..i] == run[..i] && front[..j] == run[..j];
      AtLeastBoth(limit, front, who, from, until, i, j);
    } else {
      assert front[..i] == run[..i];
      AtLeastOne(limit, front, who, from, until, i);
    }
  }

  lemma {:induction false} AtLeastOne(limit: int, run: seq<Charge>, who: Id, from: int, until: int, i: nat)
    requires i < |run| && run[i].collector == who && from <= run[i].at < until
    requires Fits(RateAfter(limit, run[..i]), limit, who, run[i].samples, run[i].at)
    ensures Admitted(limit, run, who, from, until) >= run[i].samples
  {
    var front := run[..|run| - 1];
    if i < |run| - 1 {
      assert front[..i] == run[..i];
      AtLeastOne(limit, front, who, from, until, i);
    }
  }

  lemma BudgetsAsked(limit: nat, run: seq<Charge>, i: nat, j: nat, other: seq<Charge>)
    requires limit > 0 && i < j < |run| && other == TwoBudgets(limit, run, i, j) && Monotone(run)
    ensures |other| == |run| && other[i] == run[i].(samples := limit) && other[j] == run[j].(samples := limit)
    ensures SameTimes(run, other) && Positive(other) && Monotone(other)
  {
  }

  lemma FirstFits(limit: nat, run: seq<Charge>, i: nat, j: nat, other: seq<Charge>)
    requires limit > 0 && i < j < |run| && other == TwoBudgets(limit, run, i, j)
    ensures Fits(RateAfter(limit, other[..i]), limit, run[i].collector, limit, run[i].at)
  {
    Unspent(limit, other[..i], run[i].collector);
    UnspentFits(limit, RateAfter(limit, other[..i]), run[i].collector, run[i].at);
  }

  lemma UnspentFits(limit: nat, rate: map<Id, Window>, who: Id, at: int)
    requires who in rate ==> rate[who].samples == 0
    ensures Fits(rate, limit, who, limit, at)
  {
  }

  lemma OpeningFits(limit: nat, run: seq<Charge>, j: nat)
    requires j < |run| && OpensWindow(limit, run, j) && run[j].samples <= limit
    ensures Fits(RateAfter(limit, run[..j]), limit, run[j].collector, run[j].samples, run[j].at)
  {
  }

  /** A straddled minute can be made to admit two budgets. */
  lemma StraddledAdmitsTwo(limit: nat, run: seq<Charge>, who: Id, t: int) returns (other: seq<Charge>)
    requires limit > 0 && Monotone(run) && Straddled(limit, run, who, t)
    ensures SameTimes(run, other) && Positive(other)
    ensures Admitted(limit, other, who, t, t + MINUTE) == 2 * limit
  {
    var i, j :| 0 <= i < j < |run| && run[i].collector == run[j].collector == who && t <= run[i].at
                && run[j].at < t + MINUTE && OpensWindow(limit, run, j);
    hide RateAfter, Admitted, OpensWindow, Fits, TwoBudgets, Monotone, SameTimes, Positive, Straddled;
    other := TwoBudgets(limit, run, i, j);
    BudgetsAsked(limit, run, i, j, other);
    FirstFits(limit, run, i, j, other);
    SameOpenings(limit, run, other, j);
    OpeningFits(limit, other, j);
    AtLeastBoth(limit, other, who, t, t + MINUTE, i, j);
    AtMostTwice(limit, other, who, t);
  }

  /** Exactly when a minute is bound by a single limit, whatever the samples asked
      for: if and only if no charge of the collector in it opens a window after
      another one in it. */
  lemma SingleBudgetExactly(limit: nat, run: seq<Charge>, who: Id, t: int)
    requires limit > 0 && Monotone(run)
    ensures (forall other | SameTimes(run, other) && Positive(other) ::
               Admitted(limit, other, who, t, t + MINUTE) <= limit)
            <==> !Straddled(limit, run, who, t)
  {
    if Straddled(limit, run, who, t) {
      var other := StraddledAdmitsTwo(limit, run, who, t);
    } else {
      forall other | SameTimes(run, other) ensures Admitted(limit, other, who, t, t + MINUTE) <= limit {
        if Straddled(limit, other, who, t) { SameStraddled(limit, run, other, who, t); }
        AtMostOnce(limit, other, who, t);
      }
    }
  }

  function Straddling(limit: nat, who: Id): seq<Charge> {
    [Charge(who, limit + 1, 0)] + [Charge(who, limit, MINUTE - 1)] + [Charge(who, limit, MINUTE)]
  }

  /** Twice the limit is reached: a refused request opens the window, one full
      budget comes at its end and another at the start of the next. */
  lemma TwiceIsReached(limit: nat, who: Id)
    requires limit > 0
    ensures Monotone(Straddling(limit, who))
    ensures Admitted(limit, Straddling(limit, who), who, MINUTE - 1, MINUTE - 1 + MINUTE) == 2 * limit
  {
    var a, b, c := Charge(who, limit + 1, 0), Charge(who, limit, MINUTE - 1), Charge(who, limit, MINUTE);
    assert [a][..0] == [] && ([a] + [b])[..1] == [a] && ([a] + [b] + [c])[..2] == [a] + [b];
    assert RateAfter(limit, []) == map[];
    assert RateAfter(limit, [a]) == map[who := Window(0, 0)];
    assert RateAfter(limit, [a] + [b]) == map[who := Window(0, limit)];
    assert Admitted(limit, [a], who, MINUTE - 1, MINUTE - 1 + MINUTE) == 0;
    assert Admitted(limit, [a] + [b], who, MINUTE - 1, MINUTE - 1 + MINUTE) == limit;
  }

  // ----- The sliding log

  const MAX_CHECKS := 60

  /** The times after the cutoff, in order. */
  function Recent(times: seq<int>, cutoff: int): seq<int> {
    if times == [] then []
    else Recent(times[..|times| - 1], cutoff) + if times[|times| - 1] > cutoff then [times[|times| - 1]] else []
  }

  predicate Allowed(log: seq<int>, now: int) { |Recent(log, now - MINUTE)| < MAX_CHECKS }

  /** The log after a check decided at `now` and recorded at `later`. */
  function LogAfter(log: seq<int>, now: int, later: int): seq<int> {
    Recent(log, now - MINUTE) + if Allowed(log, now) then [later] else []
  }

  class CheckLimiter {
    var times: array<int>
    var count: nat

    ghost predicate Valid() reads this { count <= times.Length }

    ghost function Log(): seq<int>
      reads this, times
      requires Valid()
    {
      times[..count]
    }

    constructor ()
      ensures Valid() && fresh(times) && Log() == []
    {
      times, count := new int[0], 0;
    }

    /** Moves the times after the cutoff to the front of the array. */
    method Compact(cutoff: int) returns (kept: nat)
      requires Valid()
      modifies times
      ensures kept <= count && times[..kept] == Recent(old(Log()), cutoff)
    {
      kept := 0;
      ghost var was := Log();
      for i := 0 to count
        invariant kept <= i
        invariant times[..kept] == Recent(was[..i], cutoff)
        invariant forall j | i <= j < count :: times[j] == was[j]
      {
        assert was[..i + 1][..i] == was[..i];
        if times[i] > cutoff {
          times[kept] := times[i];
          kept := kept + 1;
        }
      }
      assert was[..count] == was;
    }

    /** Appends in place, or in a larger array when there is no room left. */
    method Append(at: int)
      requires Valid()
      modifies this, times
      ensures Valid() && Log() == old(Log()) + [at] && (times == old(times) || fresh(times))
    {
      if count == times.Length {
        var grown := new int[2 * count + 1];
        forall i | 0 <= i < count { grown[i] := times[i]; }
        assert grown[..count] == times[..count];
        times := grown;
      }
      times[count] := at;
      count := count + 1;
    }

    method Allow(now: int, later: int) returns (ok: bool)
      requires Valid()
      modifies this, times
      ensures Valid() && (times == old(times) || fresh(times))
      ensures ok == old(Allowed(Log(), now))
      ensures Log() == LogAfter(old(Log()), now, later)
    {
      count := Compact(now - MINUTE);
      if count >= MAX_CHECKS { return false; }
      Append(later);
      return true;
    }
  }

  // ----- Runs of checks

  /** One call of `CheckLimiter.Allow`; the clock is read once to prune and once
      more to record. */
  datatype Check = Check(now: int, later: int)

  ghost predicate Ordered(run: seq<Check>) {
    && (forall i | 0 <= i < |run| :: run[i].now <= run[i].later)
    && (forall i, j | 0 <= i < j < |run| :: run[i].later <= run[j].now)
  }

  function LogOf(run: seq<Check>): seq<int> {
    if run == [] then []
    else LogAfter(LogOf(run[..|run| - 1]), run[|run| - 1].now, run[|run| - 1].later)
  }

  /** Every admission of the run, none forgotten. */
  function Admissions(run: seq<Check>): seq<int> {
    if run == [] then []
    else
      var front, c := run[..|run| - 1], run[|run| - 1];
      Admissions(front) + if Allowed(LogOf(front), c.now) then [c.later] else []
  }

  lemma {:induction false} RecentTwice(times: seq<int>, early: int, late: int)
    requires early <= late
    ensures Recent(Recent(times, early), late) == Recent(times, late)
  {
    if times != [] {
      var front, at := times[..|times| - 1], times[|times| - 1];
      RecentTwice(front, early, late);
      assert (Recent(front, early) + [at])[..|Recent(front, early)|] == Recent(front, early);
      assert Recent(front, early) + [] == Recent(front, early);
    }
  }

  lemma RecentPush(times: seq<int>, at: int, cutoff: int)
    ensures Recent(times + [at], cutoff) == Recent(times, cutoff) + if at > cutoff then [at] else []
  {
    assert (times + [at])[..|times|] == times;
  }

  lemma LastCheck(run: seq<Check>)
    requires run != []
    ensures
      var front, c := run[..|run| - 1], run[|run| - 1];
      && LogOf(run) == LogAfter(LogOf(front), c.now, c.later)
      && Admissions(run) == Admissions(front) + if Allowed(LogOf(front), c.now) then [c.later] else []
  {
  }

  /** The log is exactly the recent part of all admissions: pruning forgets
      nothing that a later decision needs. */
  lemma {:induction false} LogIsRecent(run: seq<Check>)
    requires Ordered(run) && run != []
    ensures LogOf(run) == Recent(Admissions(run), run[|run| - 1].now - MINUTE)
    decreases |run|, 0
  {
    hide LogOf, Admissions, Recent;
    var front, c := run[..|run| - 1], run[|run| - 1];
    LastCheck(run);
    PrunedIsRecent(front, c.now);
    RecentPush(Admissions(front), c.later, c.now - MINUTE);
    assert Admissions(front) + [] == Admissions(front);
  }

  lemma {:induction false} PrunedIsRecent(front: seq<Check>, now: int)
    requires Ordered(front) && (front != [] ==> front[|front| - 1].later <= now)
    ensures Recent(LogOf(front), now - MINUTE) == Recent(Admissions(front), now - MINUTE)
    decreases |front|, 1
  {
    if front != [] {
      LogIsRecent(front);
      RecentTwice(Admissions(front), front[|front| - 1].now - MINUTE, now - MINUTE);
    }
  }

  /** A check is admitted exactly when fewer than sixty were in the last minute. */
  lemma AdmittedExactly(front: seq<Check>, c: Check)
    requires Ordered(front + [c])
    ensures Admissions(front + [c])
            == Admissions(front)
               + if |Recent(Admissions(front), c.now - 60 * 1_000_000_000)| < 60 then [c.later] else []
  {
    assert (front + [c])[..|front|] == front && (front + [c])[|front|] == c;
    forall i | 0 <= i < |front| ensures front[i] == (front + [c])[i] {
    }
    PrunedIsRecent(front, c.now);
  }

  function CountIn(times: seq<int>, from: int, until: int): nat {
    if times == [] then 0
    else CountIn(times[..|times| - 1], from, until) + if from <= times[|times| - 1] < until then 1 else 0
  }

  lemma {:induction false} CountAtMostRecent(times: seq<int>, cutoff: int, from: int, until: int)
    requires cutoff < from
    ensures CountIn(times, from, until) <= |Recent(times, cutoff)|
  {
    if times != [] { CountAtMostRecent(times[..|times| - 1], cutoff, from, until); }
  }

  lemma CountPush(times: seq<int>, at: int, from: int, until: int)
    ensures CountIn(times + [at], from, until) == CountIn(times, from, until) + if from <= at < until then 1 else 0
  {
    assert (times + [at])[..|times|] == times;
  }

  lemma NothingCounted(t: int)
    ensures CountIn(Admissions([]), t, t + MINUTE) == 0
  {
  }

  /** No half-open minute of any run admits more than sixty checks. */
  lemma {:induction false} AtMostSixty(run: seq<Check>, t: int)
    requires Ordered(run)
    ensures CountIn(Admissions(run), t, t + 60 * 1_000_000_000) <= 60
  {
    hide Admissions, CountIn, LogOf, Recent;
    if run == [] {
      NothingCounted(t);
    } else {
      var front, c := run[..|run| - 1], run[|run| - 1];
      AtMostSixty(front, t);
      assert run == front + [c];
      AdmittedExactly(front, c);
      assert Admissions(front) + [] == Admissions(front);
      CountPush(Admissions(front), c.later, t, t + MINUTE);
      if t <= c.later < t + MINUTE {
        CountAtMostRecent(Admissions(front), c.now - MINUTE, t, t + MINUTE);
      }
    }
  }
}
