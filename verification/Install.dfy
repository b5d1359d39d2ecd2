/** The service install transaction over files and systemd state, with rollback. */
module Install {
  import opened Outcomes

  /** What a running service was started from. */
  datatype Image = Image(unit: Option<string>, binary: Option<string>)

  /** systemd's view of watchpost.service: enablement links, the loaded unit, and
      the running process, if any. */
  datatype Systemd = Systemd(persistent: bool, runtime: bool, loaded: Option<string>, running: Option<Image>)

  datatype Command = Stop | Disable | Enable | EnableRuntime | Reload | ResetFailed | Restart

  /** The words is-enabled and is-active answer. */
  datatype Word = Enabled | EnabledRuntime | Disabled | Active | Inactive | Other(name: string)

  function EnabledWord(s: Systemd): Word {
    if s.persistent then Enabled else if s.runtime then EnabledRuntime else Disabled
  }

  function ActiveWord(s: Systemd): Word { if s.running.Some? then Active else Inactive }

  /** The effect of a successful command. dropsRuntime says whether this systemd
      removes runtime links on a plain disable. */
  function Applied(s: Systemd, c: Command, unit: Option<string>, binary: Option<string>, dropsRuntime: bool): Systemd {
    match c
    case Stop => s.(running := None)
    case Disable => s.(persistent := false, runtime := s.runtime && !dropsRuntime)
    case Enable => s.(persistent := true)
    case EnableRuntime => s.(runtime := true)
    case Reload => s.(loaded := unit)
    case ResetFailed => s
    case Restart => s.(running := Some(Image(s.loaded, binary)))
  }

  /** What a failed command may leave behind: anything in the part it works on. */
  predicate MayLeave(s: Systemd, c: Command, after: Systemd) {
    match c
    case Stop => after == s.(running := after.running)
    case Disable => after == s.(persistent := after.persistent, runtime := after.runtime)
        && (after.runtime ==> s.runtime)
    case Enable => after == s.(persistent := after.persistent)
    case EnableRuntime => after == s.(runtime := after.runtime)
    case Reload => after == s.(loaded := after.loaded)
    case ResetFailed => after == s
    case Restart => after == s.(running := after.running)
  }

  function AppliedAll(s: Systemd, cs: seq<Command>, unit: Option<string>, binary: Option<string>,
                      dropsRuntime: bool): Systemd
  {
    if cs == [] then s
    else Applied(AppliedAll(s, cs[..|cs| - 1], unit, binary, dropsRuntime), cs[|cs| - 1], unit, binary, dropsRuntime)
  }

  predicate RestorableEnabled(w: Word) { w.Enabled? || w.EnabledRuntime? || w.Disabled? }

  predicate RestorableActive(w: Word) { w.Active? || w.Inactive? }

  /** Normalizes enablement first, then recreates the intended link. */
  function EnableRestoreSteps(w: Word): seq<Command> {
    match w
    case Enabled => [Disable, Enable]
    case EnabledRuntime => [Disable, EnableRuntime]
    case _ => [Disable]
  }

  function ActiveRestoreStep(w: Word): Command { if w.Active? then Restart else Stop }

  /** The forward steps; failure state is cleared right before a restart. */
  function ForwardSteps(hadUnit: bool, unitChanged: bool, enabled: Word, active: Word): seq<Command> {
    var last := if hadUnit then ActiveRestoreStep(active) else Restart;
    (if unitChanged then [Reload] else [])
    + (if hadUnit then EnableRestoreSteps(enabled) else [Enable])
    + (if last.Restart? then [ResetFailed, Restart] else [last])
  }

  lemma AppliedAllConcat(s: Systemd, a: seq<Command>, b: seq<Command>, unit: Option<string>, binary: Option<string>,
                         dropsRuntime: bool)
    ensures AppliedAll(s, a + b, unit, binary, dropsRuntime) ==
            AppliedAll(AppliedAll(s, a, unit, binary, dropsRuntime), b, unit, binary, dropsRuntime)
  {
    if b == [] {
      assert a + b == a;
    } else {
      assert (a + b)[..|a + b| - 1] == a + b[..|b| - 1];
      AppliedAllConcat(s, a, b[..|b| - 1], unit, binary, dropsRuntime);
    }
  }

  /** One command, and two in a row. */
  lemma AppliedFew(s: Systemd, c: Command, d: Command, unit: Option<string>, binary: Option<string>, dropsRuntime: bool)
    ensures AppliedAll(s, [c], unit, binary, dropsRuntime) == Applied(s, c, unit, binary, dropsRuntime)
    ensures AppliedAll(s, [c, d], unit, binary, dropsRuntime) ==
            Applied(Applied(s, c, unit, binary, dropsRuntime), d, unit, binary, dropsRuntime)
  {
    assert [c][..0] == [] && [c, d][..1] == [c];
  }

  lemma RestoreStepsEffect(s: Systemd, w: Word, unit: Option<string>, binary: Option<string>, dropsRuntime: bool)
    requires RestorableEnabled(w)
    ensures
      var after := AppliedAll(s, EnableRestoreSteps(w), unit, binary, dropsRuntime);
      && after.loaded == s.loaded && after.running == s.running
      && after.persistent == w.Enabled?
      && after.runtime == (w.EnabledRuntime? || (s.runtime && !dropsRuntime))
  {
    AppliedFew(s, Disable, if w.Enabled? then Enable else EnableRuntime, unit, binary, dropsRuntime);
  }

  /** The enablement steps reproduce a restorable word from any state, exactly
      unless the word is `disabled`, a runtime link exists, and this systemd's
      disable leaves such links alone. */
  lemma RestoreStepsExact(s: Systemd, w: Word, unit: Option<string>, binary: Option<string>, dropsRuntime: bool)
    requires RestorableEnabled(w)
    ensures EnabledWord(AppliedAll(s, EnableRestoreSteps(w), unit, binary, dropsRuntime)) == w <==>
            !(w.Disabled? && s.runtime && !dropsRuntime)
  {
    RestoreStepsEffect(s, w, unit, binary, dropsRuntime);
  }

  /** What the forward steps establish when all of them succeed. */
  lemma ForwardStepsExact(s: Systemd, hadUnit: bool, unitChanged: bool, enabled: Word, active: Word,
                          unit: Option<string>, binary: Option<string>, dropsRuntime: bool)
    requires hadUnit ==> RestorableEnabled(enabled) && RestorableActive(active) && enabled == EnabledWord(s)
    ensures
      var after := AppliedAll(s, ForwardSteps(hadUnit, unitChanged, enabled, active), unit, binary, dropsRuntime);
      && after.loaded == (if unitChanged then unit else s.loaded)
      && EnabledWord(after) == (if hadUnit then enabled else Enabled)
      && after.running == (if hadUnit && active.Inactive? then None else Some(Image(after.loaded, binary)))
  {
    var first := if unitChanged then [Reload] else [];
    var middle := if hadUnit then EnableRestoreSteps(enabled) else [Enable];
    var step := if hadUnit then ActiveRestoreStep(active) else Restart;
    var last := if step.Restart? then [ResetFailed, Restart] else [step];
    AppliedAllConcat(s, first + middle, last, unit, binary, dropsRuntime);
    AppliedAllConcat(s, first, middle, unit, binary, dropsRuntime);
    var s1 := AppliedAll(s, first, unit, binary, dropsRuntime);
    var s2 := AppliedAll(s1, middle, unit, binary, dropsRuntime);
    AppliedFew(s, Reload, Reload, unit, binary, dropsRuntime);
    AppliedFew(s1, Enable, Enable, unit, binary, dropsRuntime);
    AppliedFew(s2, if step.Restart? then ResetFailed else step, Restart, unit, binary, dropsRuntime);
    if hadUnit { RestoreStepsEffect(s1, enabled, unit, binary, dropsRuntime); }
  }

  /** A restart is the last forward step, and failure state is cleared just before. */
  lemma ClearedBeforeRestart(hadUnit: bool, unitChanged: bool, enabled: Word, active: Word)
    ensures
      var cs := ForwardSteps(hadUnit, unitChanged, enabled, active);
      && |cs| >= 2 && (Restart in cs <==> !hadUnit || active.Active?)
      && (Restart in cs ==> cs[|cs| - 1] == Restart && cs[|cs| - 2] == ResetFailed)
      && (Restart !in cs ==> cs[|cs| - 1] == Stop)
      && (Reload in cs <==> unitChanged) && (unitChanged ==> cs[0] == Reload)
  {
  }

  /** Keeping `disabled` never adds a runtime link. */
  lemma NoRuntimeLink(unitChanged: bool, active: Word)
    ensures EnableRuntime !in ForwardSteps(true, unitChanged, Disabled, active)
  {
  }

  // ----- Steps on the outside world

  /** works(k) says whether the k-th step taken succeeds, and left(k) what a failed
      write leaves in its file. */
  datatype World = World(works: nat -> bool, left: nat -> Option<string>, dropsRuntime: bool)

  predicate AllWork(w: World, from: nat, to: nat) {
    forall k: nat | from <= k < to :: w.works(k)
  }

  /** How many of n steps are taken when the first failure ends them. */
  function Taken(w: World, from: nat, n: nat): nat
    decreases n
  {
    if n == 0 then 0 else if !w.works(from) then 1 else 1 + Taken(w, from + 1, n - 1)
  }

  lemma {:induction false} TakenMore(w: World, from: nat, n: nat, more: nat)
    ensures Taken(w, from, n + more) ==
            if AllWork(w, from, from + n) then n + Taken(w, from + n, more) else Taken(w, from, n)
    decreases n
  {
    if n > 0 && w.works(from) {
      TakenMore(w, from + 1, n - 1, more);
      assert AllWork(w, from, from + n) <==> AllWork(w, from + 1, from + n);
    }
  }

  // ----- What a transaction starts from, and where its steps fall

  datatype Prior = Prior(unit: Option<string>, binary: Option<string>, enabled: Word, active: Word)

  /** The first forward step: a binary that is there is saved before. */
  function ForwardFrom(at: nat, prior: Prior): nat { if prior.binary.Some? then at + 1 else at }

  /** Binary and unit are written, then systemd is told. */
  function ForwardCount(prior: Prior, unit: string): nat {
    2 + |ForwardSteps(prior.unit.Some?, prior.unit != Some(unit), prior.enabled, prior.active)|
  }

  predicate ForwardWorks(w: World, at: nat, prior: Prior, unit: string) {
    AllWork(w, ForwardFrom(at, prior), ForwardFrom(at, prior) + ForwardCount(prior, unit))
  }

  /** The first rollback step. */
  function RollbackFrom(w: World, at: nat, prior: Prior, unit: string): nat {
    ForwardFrom(at, prior) + Taken(w, ForwardFrom(at, prior), ForwardCount(prior, unit))
  }

  function RestoreCount(enabled: Word, active: Word): nat {
    |EnableRestoreSteps(enabled)| + if active.Active? then 2 else 1
  }

  /** The rollback that starts at step b is reported complete: every step worked,
      save those whose failure nobody reports. Steps b + 2 and b + 4 restore the
      binary and the unit, or remove them; b + 3 removes the saved copy. */
  predicate Reported(w: World, b: nat, prior: Prior) {
    && w.works(b) && w.works(b + 1) && (prior.binary.Some? ==> w.works(b + 2)) && (prior.unit.Some? ==> w.works(b + 4))
    && w.works(b + 5) && (prior.unit.Some? ==> AllWork(w, b + 6, b + 6 + RestoreCount(prior.enabled, prior.active)))
  }

  /** The rollback steps whose failure goes unreported: removing the saved copy, and
      a binary or a unit file that was not there before. */
  predicate Unreported(b: nat, prior: Prior, k: nat) {
    k == b + 3 || (k == b + 2 && prior.binary.None?) || (k == b + 4 && prior.unit.None?)
  }

  /** It takes six steps to neutralize, put the files back and reload. Over a prior
      unit, disabling follows, enabling if it was enabled, and then a stop, or
      clearing the failure state and a restart. */
  lemma ReportedExactly(w: World, b: nat, prior: Prior)
    requires prior.unit.Some? ==> RestorableEnabled(prior.enabled)
    ensures
      var restore := (if prior.enabled.Disabled? then 1 else 2) + (if prior.active.Active? then 2 else 1);
      var end := if prior.unit.Some? then b + 6 + restore else b + 6;
      Reported(w, b, prior) <==> forall k: nat | b <= k < end && !Unreported(b, prior, k) :: w.works(k)
  {
  }

  /** The binary and the unit file that a rollback leaves. */
  function BinaryLeft(w: World, at: nat, prior: Prior, unit: string, incoming: Option<string>): Option<string> {
    var f, b := ForwardFrom(at, prior), RollbackFrom(w, at, prior, unit);
    if prior.binary.Some? then (if w.works(b + 2) then prior.binary else w.left(b + 2))
    else if w.works(b + 2) then None
    else if w.works(f) then incoming else w.left(f)
  }

  function UnitLeft(w: World, at: nat, prior: Prior, unit: string): Option<string> {
    var f, b := ForwardFrom(at, prior), RollbackFrom(w, at, prior, unit);
    if prior.unit.Some? then (if w.works(b + 4) then prior.unit else w.left(b + 4))
    else if w.works(b + 4) || !w.works(f) then None
    else if w.works(f + 1) then Some(unit) else w.left(f + 1)
  }

  /** A step fails, and the rollback is reported complete. */
  predicate RollsBackReported(w: World, at: nat, prior: Prior, unit: string) {
    !ForwardWorks(w, at, prior, unit) && Reported(w, RollbackFrom(w, at, prior, unit), prior)
  }

  /** A rollback reported complete has put the binary back, on every host, if and
      only if there was one before: otherwise the removal may have failed. */
  lemma BinaryRestoredExactly(at: nat, prior: Prior, unit: string, incoming: string)
    ensures prior.binary.Some? <==>
            forall w {:trigger BinaryLeft(w, at, prior, unit, Some(incoming))}
                | RollsBackReported(w, at, prior, unit) ::
              BinaryLeft(w, at, prior, unit, Some(incoming)) == prior.binary
  {
    if prior.binary.None? {
      var w := World((k: nat) => k != at + 1 && k != at + 4, _ => None, false);
      assert !w.works(at + 1) && w.works(at) && Taken(w, at, ForwardCount(prior, unit)) == 2;
      assert RollsBackReported(w, at, prior, unit);
      assert BinaryLeft(w, at, prior, unit, Some(incoming)) == Some(incoming);
    }
  }

  /** The same of the unit file: on a fresh host it may be left behind. */
  lemma UnitRestoredExactly(at: nat, prior: Prior, unit: string)
    ensures prior.unit.Some? <==>
            forall w {:trigger UnitLeft(w, at, prior, unit)} | RollsBackReported(w, at, prior, unit) ::
              UnitLeft(w, at, prior, unit) == prior.unit
  {
    if prior.unit.None? {
      var f := ForwardFrom(at, prior);
      var w := World((k: nat) => k != f + 2 && k != f + 7, _ => None, false);
      assert w.works(f) && w.works(f + 1) && !w.works(f + 2) && ForwardCount(prior, unit) >= 3;
      TakenMore(w, f, 2, ForwardCount(prior, unit) - 2);
      assert Taken(w, f, ForwardCount(prior, unit)) == 3;
      assert RollsBackReported(w, at, prior, unit);
      assert UnitLeft(w, at, prior, unit) == Some(unit);
    }
  }

  // ----- The transaction

  /** Refused: nothing touched. Prepared: only the account or data directory, or
      the saved copy of the binary. Installed: all steps succeeded. RolledBack: a
      step failed; complete says that no rollback step was reported to fail. */
  datatype Outcome = Refused | Unchanged | Prepared | Installed | RolledBack(complete: bool)

  /** What the preflight finds besides the files themselves. */
  datatype Preflight = Preflight(validOptions: bool, authenticUnit: bool, enabledQuery: Option<Word>,
                                 activeQuery: Option<Word>, incoming: Option<string>, dataSafe: bool, dataExists: bool)

  /** The preflight refuses before anything is touched. */
  predicate Refuses(p: Preflight, unitFile: Option<string>) {
    || !p.validOptions || p.incoming.None? || !p.dataSafe
    || (unitFile.Some? &&
        (|| !p.authenticUnit
         || p.enabledQuery.None? || !RestorableEnabled(p.enabledQuery.value)
         || p.activeQuery.None? || !RestorableActive(p.activeQuery.value)))
  }

  /** The reasons to refuse, each enough by itself: bad options, an unreadable new
      binary, an unsafe data directory; and, over an existing unit, one that is not
      authentic, or states that were not answered or cannot be restored. */
  lemma RefusesExactly(p: Preflight, unitFile: Option<string>)
    ensures Refuses(p, unitFile) <==>
            || !p.validOptions || p.incoming.None? || !p.dataSafe || (unitFile.Some? && !p.authenticUnit)
            || (unitFile.Some? && p.enabledQuery !in {Some(Enabled), Some(EnabledRuntime), Some(Disabled)})
            || (unitFile.Some? && p.activeQuery !in {Some(Active), Some(Inactive)})
  {
  }

  /** Every step works. */
  ghost predicate Flawless(w: World) { forall k :: w.works(k) }

  lemma FlawlessWorks(w: World, from: nat, to: nat)
    ensures Flawless(w) ==> AllWork(w, from, to)
  {
  }

  lemma InPlaceExactly(unit: string, p: Preflight, prior: Prior)
    ensures InPlace(unit, p, prior) <==> p.incoming.Some? && prior.unit == Some(unit) && prior.binary == p.incoming
  {
  }

  lemma FirstStepWorks(w: World, k: nat)
    ensures Flawless(w) ==> w.works(k)
  {
  }

  /** Unit and binary are already the requested ones. */
  predicate InPlace(unit: string, p: Preflight, prior: Prior) {
    prior.unit == Some(unit) && prior.binary.Some? && prior.binary == p.incoming
  }

  /** The transaction ends before its first forward step, without a rollback. */
  predicate StopsEarly(w: World, at: nat, unit: string, p: Preflight, prior: Prior, accountOk: bool, dataOk: bool) {
    || !accountOk || !dataOk || InPlace(unit, p, prior) || (prior.binary.Some? && !w.works(at))
  }

  class Host {
    const world: World
    var steps: nat
    var unitFile: Option<string>
    var binary: Option<string>
    var preinstall: Option<string>
    var sys: Systemd

    constructor (world: World, unitFile: Option<string>, binary: Option<string>, sys: Systemd)
      ensures this.world == world && steps == 0
      ensures this.unitFile == unitFile && this.binary == binary && this.sys == sys && preinstall == None
    {
      this.world, steps := world, 0;
      this.unitFile, this.binary, this.sys, this.preinstall := unitFile, binary, sys, None;
    }

    function Before(): Prior
      reads this
    {
      Prior(unitFile, binary, EnabledWord(sys), ActiveWord(sys))
    }

    /** The outcome of the next step. */
    method Attempt() returns (ok: bool)
      modifies this`steps
      ensures ok == world.works(old(steps)) && steps == old(steps) + 1
    {
      ok := world.works(steps);
      steps := steps + 1;
    }

    method Systemctl(c: Command) returns (ok: bool)
      modifies this`sys, this`steps
      ensures ok == world.works(old(steps)) && steps == old(steps) + 1
      ensures ok ==> sys == Applied(old(sys), c, unitFile, binary, world.dropsRuntime)
      ensures !ok ==> MayLeave(old(sys), c, sys)
    {
      ok := Attempt();
      if ok {
        sys := Applied(sys, c, unitFile, binary, world.dropsRuntime);
        return;
      }
      var flag: bool := *;
      var image: Option<Image> := *;
      var loaded: Option<string> := *;
      match c
      case Stop => sys := sys.(running := image);
      case Disable =>
        var keep: bool := *;
        sys := sys.(persistent := flag, runtime := sys.runtime && keep);
      case Enable => sys := sys.(persistent := flag);
      case EnableRuntime => sys := sys.(runtime := flag);
      case Reload => sys := sys.(loaded := loaded);
      case ResetFailed =>
      case Restart => sys := sys.(running := image);
    }

    /** Copies and writes. */
    method WriteBinary(content: Option<string>) returns (ok: bool)
      modifies this`binary, this`steps
      ensures ok == world.works(old(steps)) && steps == old(steps) + 1
      ensures binary == if ok then content else world.left(old(steps))
    {
      binary := if world.works(steps) then content else world.left(steps);
      ok := Attempt();
    }

    method WriteUnit(content: Option<string>) returns (ok: bool)
      modifies this`unitFile, this`steps
      ensures ok == world.works(old(steps)) && steps == old(steps) + 1
      ensures unitFile == if ok then content else world.left(old(steps))
    {
      unitFile := if world.works(steps) then content else world.left(steps);
      ok := Attempt();
    }

    method SaveBinary() returns (ok: bool)
      modifies this`preinstall, this`steps
      ensures ok == world.works(old(steps)) && steps == old(steps) + 1
      ensures preinstall == if ok then binary else world.left(old(steps))
    {
      preinstall := if world.works(steps) then binary else world.left(steps);
      ok := Attempt();
    }

    /** Removals, whose failure the program ignores. */
    method RemoveBinary()
      modifies this`binary, this`steps
      ensures steps == old(steps) + 1 && binary == if world.works(old(steps)) then None else old(binary)
    {
      var ok := Attempt();
      if ok { binary := None; }
    }

    method RemoveUnit()
      modifies this`unitFile, this`steps
      ensures steps == old(steps) + 1 && unitFile == if world.works(old(steps)) then None else old(unitFile)
    {
      var ok := Attempt();
      if ok { unitFile := None; }
    }

    method RemoveSaved()
      modifies this`preinstall, this`steps
      ensures steps == old(steps) + 1 && preinstall == if world.works(old(steps)) then None else old(preinstall)
    {
      var ok := Attempt();
      if ok { preinstall := None; }
    }

    /** Runs steps until one fails. */
    method RunSteps(commands: seq<Command>) returns (ok: bool)
      modifies this`sys, this`steps
      ensures ok <==> AllWork(world, old(steps), old(steps) + |commands|)
      ensures steps == old(steps) + Taken(world, old(steps), |commands|)
      ensures ok ==> sys == AppliedAll(old(sys), commands, unitFile, binary, world.dropsRuntime)
      ensures EnableRuntime !in commands && !old(sys.runtime) ==> !sys.runtime
    {
      for i := 0 to |commands|
        invariant steps == old(steps) + i && AllWork(world, old(steps), steps)
        invariant sys == AppliedAll(old(sys), commands[..i], unitFile, binary, world.dropsRuntime)
        invariant EnableRuntime !in commands && !old(sys.runtime) ==> !sys.runtime
      {
        assert commands[..i + 1][..i] == commands[..i];
        TakenMore(world, old(steps), i, |commands| - i);
        var done := Systemctl(commands[i]);
        if !done { return false; }
      }
      assert commands[..|commands|] == commands;
      TakenMore(world, old(steps), |commands|, 0);
      return true;
    }

    /** Recreates a prior enablement and activity, collecting failures. */
    method RestoreStates(enabled: Word, active: Word) returns (complete: bool)
      requires RestorableEnabled(enabled) && RestorableActive(active)
      requires enabled.Disabled? ==> !sys.runtime
      modifies this`sys, this`steps
      ensures complete <==> AllWork(world, old(steps), old(steps) + RestoreCount(enabled, active))
      ensures complete ==>
                && EnabledWord(sys) == enabled && ActiveWord(sys) == active && sys.loaded == old(sys.loaded)
                && (active.Active? ==> sys.running == Some(Image(sys.loaded, binary)))
    {
      complete := RunSteps(EnableRestoreSteps(enabled));
      TakenMore(world, old(steps), |EnableRestoreSteps(enabled)|, 0);
      RestoreStepsEffect(old(sys), enabled, unitFile, binary, world.dropsRuntime);
      if active.Active? {
        var reset := Systemctl(ResetFailed);
        complete := complete && reset;
      }
      var done := Systemctl(ActiveRestoreStep(active));
      complete := complete && done;
    }

    method Neutralize() returns (complete: bool)
      modifies this`sys, this`steps
      ensures steps == old(steps) + 2 && (complete <==> world.works(old(steps)) && world.works(old(steps) + 1))
      ensures complete ==> !sys.persistent && sys.running.None?
      ensures sys.runtime ==> old(sys.runtime)
    {
      complete := Systemctl(Stop);
      var done := Systemctl(Disable);
      complete := complete && done;
    }

    /** Puts binary and unit back; removals that fail are not reported. */
    method RestoreFiles(hadUnit: bool, hadBinary: bool, priorUnit: Option<string>) returns (complete: bool)
      modifies this`unitFile, this`binary, this`preinstall, this`steps
      ensures steps == old(steps) + 3
      ensures complete <==> (hadBinary ==> world.works(old(steps))) && (hadUnit ==> world.works(old(steps) + 2))
      ensures binary == if hadBinary then (if world.works(old(steps)) then old(preinstall) else world.left(old(steps)))
                        else if world.works(old(steps)) then None else old(binary)
      ensures unitFile == if hadUnit then
                            (if world.works(old(steps) + 2) then priorUnit else world.left(old(steps) + 2))
                          else if world.works(old(steps) + 2) then None else old(unitFile)
    {
      complete := true;
      if hadBinary { complete := WriteBinary(preinstall); } else { RemoveBinary(); }
      RemoveSaved();
      if hadUnit {
        var done := WriteUnit(priorUnit);
        complete := complete && done;
      } else {
        RemoveUnit();
      }
    }

    /** Neutralize, put binary and unit back, reload, and recreate the prior
        enablement and activity. Failed removals go unreported. */
    method Rollback(prior: Prior) returns (complete: bool)
      requires prior.unit.Some? ==> RestorableEnabled(prior.enabled) && RestorableActive(prior.active)
      requires prior.unit.Some? && prior.enabled.Disabled? ==> !sys.runtime
      modifies this`unitFile, this`binary, this`preinstall, this`sys, this`steps
      ensures complete <==> Reported(world, old(steps), prior)
      ensures complete && prior.unit.None? ==> !sys.persistent && sys.running.None?
      ensures complete && prior.unit.Some? ==>
                && EnabledWord(sys) == prior.enabled && ActiveWord(sys) == prior.active && sys.loaded == prior.unit
                && (prior.active.Active? ==> sys.running == Some(Image(prior.unit, binary)))
      ensures
        var k := old(steps) + 2;
        binary == if prior.binary.Some? then (if world.works(k) then old(preinstall) else world.left(k))
                  else if world.works(k) then None else old(binary)
      ensures
        var k := old(steps) + 4;
        unitFile == if prior.unit.Some? then (if world.works(k) then prior.unit else world.left(k))
                    else if world.works(k) then None else old(unitFile)
    {
      hide EnabledWord, ActiveWord, RestoreCount, AllWork;
      var neutral := Neutralize();
      complete := RestoreFiles(prior.unit.Some?, prior.binary.Some?, prior.unit);
      var reloaded := Systemctl(Reload);
      complete := neutral && complete && reloaded;
      if prior.unit.Some? {
        var done := RestoreStates(prior.enabled, prior.active);
        complete := complete && done;
      }
    }

    /** The forward steps, in order, until one fails. */
    method Forward(unit: string, incoming: Option<string>, prior: Prior) returns (ok: bool)
      requires prior.unit == unitFile
      requires prior.unit.Some? ==> && RestorableEnabled(prior.enabled) && RestorableActive(prior.active)
                                    && prior.enabled == EnabledWord(sys)
      modifies this`unitFile, this`binary, this`sys, this`steps
      ensures ok <==> AllWork(world, old(steps), old(steps) + ForwardCount(prior, unit))
      ensures steps == old(steps) + Taken(world, old(steps), ForwardCount(prior, unit))
      ensures prior.unit.Some? && prior.enabled.Disabled? ==> !sys.runtime
      ensures binary == if world.works(old(steps)) then incoming else world.left(old(steps))
      ensures unitFile == if !world.works(old(steps)) then prior.unit
                          else if world.works(old(steps) + 1) then Some(unit) else world.left(old(steps) + 1)
      ensures ok ==>
                && unitFile == Some(unit) && binary == incoming
                && sys.loaded == (if prior.unit != Some(unit) then Some(unit) else old(sys.loaded))
                && EnabledWord(sys) == (if prior.unit.Some? then prior.enabled else Enabled)
                && sys.running == (if prior.unit.Some? && prior.active.Inactive? then None
                                   else Some(Image(sys.loaded, incoming)))
    {
      hide ForwardSteps, AppliedAll, Applied;
      var commands := ForwardSteps(prior.unit.Some?, prior.unit != Some(unit), prior.enabled, prior.active);
      TakenMore(world, steps, 2, |commands|);
      ok := WriteBinary(incoming);
      if !ok { return; }
      ok := WriteUnit(Some(unit));
      if !ok { return; }
      ForwardStepsExact(sys, prior.unit.Some?, prior.unit != Some(unit), prior.enabled, prior.active, unitFile, binary,
                        world.dropsRuntime);
      NoRuntimeLink(prior.unit != Some(unit), prior.active);
      ok := RunSteps(commands);
    }

    /** The forward steps, and the rollback if one fails. The transaction began at
        step `at`. */
    method Replace(unit: string, incoming: Option<string>, prior: Prior, ghost at: nat) returns (r: Outcome)
      requires prior == Before() && steps == ForwardFrom(at, prior)
      requires prior.binary.Some? ==> preinstall == prior.binary
      requires prior.unit.Some? ==> RestorableEnabled(prior.enabled)
      modifies this
      ensures r.Installed? || r.RolledBack?
      ensures r.Installed? <==> ForwardWorks(world, at, prior, unit)
      ensures r.RolledBack? ==> (r.complete <==> Reported(world, RollbackFrom(world, at, prior, unit), prior))
      ensures r.Installed? ==>
                && unitFile == Some(unit) && binary == incoming
                && EnabledWord(sys) == (if prior.unit.Some? then prior.enabled else Enabled)
                && ActiveWord(sys) == (if prior.unit.Some? then prior.active else Active)
                && sys.loaded == (if prior.unit != Some(unit) then Some(unit) else old(sys.loaded))
                && (ActiveWord(sys).Active? ==> sys.running == Some(Image(sys.loaded, incoming)))
      ensures r.RolledBack? ==>
                && binary == BinaryLeft(world, at, prior, unit, incoming)
                && unitFile == UnitLeft(world, at, prior, unit)
      ensures r.RolledBack? && r.complete && prior.unit.None? ==> !sys.persistent && sys.running.None?
      ensures r.RolledBack? && r.complete && prior.unit.Some? ==>
                && unitFile == prior.unit && EnabledWord(sys) == prior.enabled && ActiveWord(sys) == prior.active
                && (ActiveWord(sys).Active? ==> sys.running == Some(Image(prior.unit, binary)))
    {
      hide AllWork, ForwardCount, RestoreCount, Taken;
      var ok := Forward(unit, incoming, prior);
      if !ok {
        assert steps == RollbackFrom(world, at, prior, unit);
        var complete := Rollback(prior);
        return RolledBack(complete);
      }
      RemoveSaved();
      return Installed;
    }

    /** Installs or reinstalls the unit and binary. */
    method InstallOptions(unit: string, p: Preflight, accountOk: bool, dataOk: bool) returns (r: Outcome)
      requires p.enabledQuery.Some? && RestorableEnabled(p.enabledQuery.value) ==>
                 p.enabledQuery.value == EnabledWord(sys)
      requires p.activeQuery.Some? && RestorableActive(p.activeQuery.value) ==> p.activeQuery.value == ActiveWord(sys)
      modifies this
      ensures old(unitFile).Some? && !p.authenticUnit ==> r.Refused?
      ensures !accountOk || !dataOk ==> r.Refused? || r.Unchanged? || r.Prepared?
      ensures r.Unchanged? ==> unitFile == Some(unit) && binary == p.incoming && p.dataExists
      ensures Flawless(world) && accountOk && dataOk && !r.Refused? ==>
                !r.RolledBack? && unitFile == Some(unit) && binary == p.incoming && p.incoming.Some?
      ensures r.Refused? <==> old(Refuses(p, unitFile))
      ensures r.Unchanged? <==> old(!Refuses(p, unitFile) && InPlace(unit, p, Before())) && p.dataExists
      ensures r.Prepared? <==>
                !r.Refused? && !r.Unchanged? && StopsEarly(world, old(steps), unit, p, old(Before()), accountOk, dataOk)
      ensures r.Installed? <==>
                && !r.Refused? && !r.Unchanged? && !r.Prepared?
                && ForwardWorks(world, old(steps), old(Before()), unit)
      ensures r.RolledBack? ==>
                (r.complete <==> Reported(world, RollbackFrom(world, old(steps), old(Before()), unit), old(Before())))
      ensures r.Refused? || r.Unchanged? ==> preinstall == old(preinstall)
      ensures r.Refused? || r.Unchanged? || r.Prepared? ==>
                unitFile == old(unitFile) && binary == old(binary) && sys == old(sys)
      ensures r.Installed? ==>
                && unitFile == Some(unit) && binary == p.incoming
                && (old(unitFile).None? ==> EnabledWord(sys) == Enabled && ActiveWord(sys) == Active)
                && (old(unitFile).Some? ==>
                      EnabledWord(sys) == EnabledWord(old(sys)) && ActiveWord(sys) == ActiveWord(old(sys)))
                && sys.loaded == (if old(unitFile) != Some(unit) then Some(unit) else old(sys.loaded))
                && (ActiveWord(sys).Active? ==> sys.running == Some(Image(sys.loaded, p.incoming)))
      ensures r.RolledBack? ==>
                && binary == BinaryLeft(world, old(steps), old(Before()), unit, p.incoming)
                && unitFile == UnitLeft(world, old(steps), old(Before()), unit)
      ensures r.RolledBack? && r.complete && old(unitFile).None? ==> !sys.persistent && sys.running.None?
      ensures r.RolledBack? && r.complete && old(unitFile).Some? ==>
                && unitFile == old(unitFile)
                && EnabledWord(sys) == EnabledWord(old(sys)) && ActiveWord(sys) == ActiveWord(old(sys))
                && (ActiveWord(sys).Active? ==> sys.running == Some(Image(old(unitFile), binary)))
    {
      hide AllWork, ForwardCount, RestoreCount, Taken, Flawless, Reported, RollbackFrom, BinaryLeft, UnitLeft;
      var prior, at := Before(), steps;
      if !p.validOptions { return Refused; }
      var hadUnit := unitFile.Some?;
      if hadUnit && !p.authenticUnit { return Refused; }
      if hadUnit {
        if p.enabledQuery.None? || !RestorableEnabled(p.enabledQuery.value) { return Refused; }
        if p.activeQuery.None? || !RestorableActive(p.activeQuery.value) { return Refused; }
      }
      if p.incoming.None? { return Refused; }
      var hadBinary := binary.Some?;
      var binaryChanged := !hadBinary || p.incoming != binary;
      if !p.dataSafe { return Refused; }
      if hadUnit && prior.unit == Some(unit) && !binaryChanged && p.dataExists { return Unchanged; }
      if !accountOk || !dataOk { return Prepared; }
      if hadUnit && prior.unit == Some(unit) && !binaryChanged { return Prepared; }
      if hadBinary {
        var saved := SaveBinary();
        if !saved {
          FirstStepWorks(world, at);
          return Prepared;
        }
      }
      FlawlessWorks(world, steps, steps + ForwardCount(prior, unit));
      r := Replace(unit, p.incoming, prior, at);
    }
  }

  // ----- Hosts on which a rollback reported complete leaves a file behind

  /** An existing installation without its binary: the unit file cannot be written,
      and then the new binary cannot be removed. */
  method BinaryLeftBehind(oldUnit: string, newUnit: string, incoming: string)
    returns (r: Outcome, binary: Option<string>, unitFile: Option<string>)
    ensures r == RolledBack(true) && binary == Some(incoming) && unitFile == Some(oldUnit)
  {
    var world := World((k: nat) => k != 1 && k != 4, _ => None, false);
    var host := new Host(world, Some(oldUnit), None, Systemd(true, false, Some(oldUnit), None));
    var prior := Prior(Some(oldUnit), None, Enabled, Inactive);
    assert Taken(world, 0, ForwardCount(prior, newUnit)) == 2 && !world.works(1);
    var found := Preflight(true, true, Some(Enabled), Some(Inactive), Some(incoming), true, true);
    r := host.InstallOptions(newUnit, found, true, true);
    binary, unitFile := host.binary, host.unitFile;
  }

  /** A fresh host: systemd cannot be reloaded, and then the unit file cannot be
      removed. */
  method UnitLeftBehind(unit: string, incoming: string)
    returns (r: Outcome, binary: Option<string>, unitFile: Option<string>)
    ensures r == RolledBack(true) && binary == None && unitFile == Some(unit)
  {
    var world := World((k: nat) => k != 2 && k != 7, _ => None, false);
    var host := new Host(world, None, None, Systemd(false, false, None, None));
    var prior := Prior(None, None, Disabled, Inactive);
    TakenMore(world, 0, 2, ForwardCount(prior, unit) - 2);
    assert Taken(world, 0, ForwardCount(prior, unit)) == 3 && !world.works(2);
    r := host.InstallOptions(unit, Preflight(true, true, None, None, Some(incoming), true, false), true, true);
    binary, unitFile := host.binary, host.unitFile;
  }
}
