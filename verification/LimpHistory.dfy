/** What limp_manager.cpp should answer, stated over everything that has happened: which latches,
    timers and faults hold after a history of updates and reports, and which cut wins. */
module LimpHistory {
  import opened Util

  datatype ClearReason =
    NoReason | Fatal | Settings | HardLimit | FaultRevLimit | BoostCut | OilPressure | StopRequested |
    EtbProblem | LaunchCut | InjectorDutyCycle | FloodClear | EnginePhase | KickStart | IgnitionOff |
    Lua | ACR | LambdaProtection

  datatype OperationMode =
    Unknown | TwoStroke | FourStrokeCrank | FourStrokeCam | FourStrokeSymmetricalCrank |
    FourStrokeThreeTimesCrank | FourStrokeTwelveTimesCrank

  /** Everything one update reads: the settings, the sensors and the two clock samples. The clock is
      read again inside the timers, so `timeNowNt` may be later than `nowNt`. */
  datatype Inputs = Inputs(
    rpm: real, nowNt: int, timeNowNt: int,
    isInjectionEnabled: bool, isIgnitionEnabled: bool,
    directSelfStimulation: bool, luaIgnCut: bool, acrActive: bool, lambdaCut: bool,
    useCltBasedRpmLimit: bool, cltRevLimit: real, rpmHardLimit: real, rpmHardLimitHyst: real,
    cutFuelOnHardLimit: bool, cutSparkOnHardLimit: bool,
    boostCutPressure: real, manifoldPressure: real,
    vvtMapVTwin: bool, isPhaseSyncRequiredForIgnition: bool, operationMode: OperationMode,
    hasSynchronizedPhase: bool,
    isRunning: bool, engineRunTime: real,
    hasOilpSensor: bool, oilp: Option<real>, minOilPressureAfterStart: nat,
    enableOilPressureProtect: bool, oilPressureProtectionStartDelay: real,
    useOilPressureSwitch: bool, oilSwitchState: bool, minPressure: real, minimumOilPressureTimeout: real,
    isEngineStop: bool,
    injDutyCycle: real, maxInjectorDutyInstant: real, maxInjectorDutySustained: real,
    maxInjectorDutySustainedTimeout: real,
    isCylinderCleanupEnabled: bool, driverThrottleIntent: real,
    launchFuelRetard: bool, launchSparkRetard: bool)

  datatype Event = Update(inp: Inputs) | ReportEtbProblem | FatalError | IgnitionState(on: bool)

  type History = seq<Event>

  function Before(h: History): History
    requires h != []
  {
    h[..|h| - 1]
  }

  predicate IsUpdate(h: History) {
    h != [] && h[|h| - 1].Update?
  }

  function Last(h: History): Inputs
    requires IsUpdate(h)
  {
    h[|h| - 1].inp
  }

  // ---------- latches ----------

  /** Set at some moment, and at no later one cleared without being set. */
  ghost predicate Latch(h: History, rise: History -> bool, fall: History -> bool) {
    exists i :: 0 < i <= |h| && rise(h[..i]) && forall j :: i < j <= |h| ==> rise(h[..j]) || !fall(h[..j])
  }

  lemma {:induction false} LatchStep(h: History, rise: History -> bool, fall: History -> bool)
    requires h != []
    ensures Latch(h, rise, fall) == (rise(h) || (!fall(h) && Latch(Before(h), rise, fall)))
  {
    var b := Before(h);
    assert h[..|h|] == h;
    assert forall k :: 0 <= k <= |b| ==> b[..k] == h[..k];
    if Latch(b, rise, fall) && !fall(h) {
      var i :| 0 < i <= |b| && rise(b[..i]) && forall j :: i < j <= |b| ==> rise(b[..j]) || !fall(b[..j]);
      forall j | i < j <= |h| ensures rise(h[..j]) || !fall(h[..j]) {
        if j < |h| { assert b[..j] == h[..j]; }
      }
      assert rise(h[..i]);
    }
    if Latch(h, rise, fall) && !rise(h) {
      var i :| 0 < i <= |h| && rise(h[..i]) && forall j :: i < j <= |h| ==> rise(h[..j]) || !fall(h[..j]);
      assert i < |h| && rise(b[..i]);
      forall j | i < j <= |b| ensures rise(b[..j]) || !fall(b[..j]) {
        assert b[..j] == h[..j];
      }
    }
  }

  // ---------- timers ----------

  const NEVER := -0x1000_0000_0000_0000          // INT64_MIN / 8
  const CLOCK_32_MAX := 0xFFFF_FFFE
  const TICKS_PER_SECOND := 4_000_000.0          // 1000 * 1000 * US_TO_NT_MULTIPLIER

  function Now(h: History): int {
    if IsUpdate(h) then Last(h).nowNt else 0
  }

  ghost function LastReset(h: History, reset: History -> bool): int {
    if h == [] then NEVER
    else if reset(h) then Now(h)
    else LastReset(Before(h), reset)
  }

  /** Timer::hasElapsedSec; the cast keeps the low 32 bits. */
  predicate HasElapsed(lastReset: int, now: int, seconds: real) {
    var delta := now - lastReset;
    delta >= CLOCK_32_MAX || (delta % 0x1_0000_0000) as real > seconds * TICKS_PER_SECOND
  }

  predicate LongAgo(delta: int, seconds: real) {
    delta >= CLOCK_32_MAX || delta as real > seconds * TICKS_PER_SECOND
  }

  /** The clock does not go back, and is read by a timer no earlier than by its update. */
  ghost predicate Chronological(h: History) {
    && (forall i :: 0 < i <= |h| && IsUpdate(h[..i]) ==> 0 <= Now(h[..i]) <= Last(h[..i]).timeNowNt)
    && (forall i, j :: 0 < i <= j <= |h| && IsUpdate(h[..i]) && IsUpdate(h[..j]) ==> Now(h[..i]) <= Now(h[..j]))
  }

  lemma {:induction false} LastResetIs(h: History, reset: History -> bool)
    requires Chronological(h) && forall g :: reset(g) ==> IsUpdate(g)
    ensures LastReset(h, reset) == NEVER || exists i :: 0 < i <= |h| && reset(h[..i]) && LastReset(h, reset) == Now(h[..i])
    ensures forall i :: 0 < i <= |h| && reset(h[..i]) ==> Now(h[..i]) <= LastReset(h, reset)
    ensures IsUpdate(h) ==> LastReset(h, reset) <= Now(h)
  {
    if h != [] {
      var b := Before(h);
      assert h[..|h|] == h;
      assert forall k :: 0 <= k <= |b| ==> b[..k] == h[..k];
      LastResetIs(b, reset);
      if reset(h) {
        assert reset(h[..|h|]);
      }
    }
  }

  /** A timer has elapsed exactly when everything that could have reset it is long ago. */
  lemma {:induction false} ElapsedIff(h: History, reset: History -> bool, seconds: real)
    requires Chronological(h) && IsUpdate(h) && forall g :: reset(g) ==> IsUpdate(g)
    ensures HasElapsed(LastReset(h, reset), Last(h).timeNowNt, seconds) <==>
            forall i :: 0 < i <= |h| && reset(h[..i]) ==> LongAgo(Last(h).timeNowNt - Now(h[..i]), seconds)
  {
    LastResetIs(h, reset);
    assert h[..|h|] == h;
    var last := LastReset(h, reset);
    var delta := Last(h).timeNowNt - last;
    assert delta >= 0;
    assert HasElapsed(last, Last(h).timeNowNt, seconds) <==> LongAgo(delta, seconds);
    forall i | 0 < i <= |h| && reset(h[..i]) ensures 0 <= Now(h[..i]) <= last {
      assert IsUpdate(h[..i]);
    }
  }

  // ---------- the conditions ----------

  function HardRevLimit(inp: Inputs): real {
    if inp.useCltBasedRpmLimit then inp.cltRevLimit else inp.rpmHardLimit
  }

  predicate RevRise(h: History) {
    IsUpdate(h) && Last(h).rpm > HardRevLimit(Last(h))
  }

  predicate RevFall(h: History) {
    IsUpdate(h) && Last(h).rpm < HardRevLimit(Last(h)) - Last(h).rpmHardLimitHyst
  }

  predicate BoostRise(h: History) {
    IsUpdate(h) && Last(h).boostCutPressure != 0.0 && Last(h).manifoldPressure > Last(h).boostCutPressure
  }

  predicate BoostFall(h: History) {
    IsUpdate(h) && Last(h).boostCutPressure != 0.0 && Last(h).manifoldPressure < Last(h).boostCutPressure - 20.0
  }

  predicate DutyInSustainedLimit(h: History) {
    IsUpdate(h) && Last(h).injDutyCycle <= Last(h).maxInjectorDutySustained
  }

  /** The duty cycle has been over the sustained limit for the whole timeout. */
  ghost predicate SustainedTimedOut(h: History) {
    IsUpdate(h) && HasElapsed(DutyTimer(h), Last(h).timeNowNt, Last(h).maxInjectorDutySustainedTimeout)
  }

  ghost predicate DutyRise(h: History) {
    IsUpdate(h) && (Last(h).injDutyCycle > Last(h).maxInjectorDutyInstant || SustainedTimedOut(h))
  }

  predicate DutyFall(h: History) {
    IsUpdate(h) && Last(h).injDutyCycle < 20.0
  }

  predicate OilStartChecked(inp: Inputs) {
    inp.isRunning && inp.minOilPressureAfterStart > 0 && inp.hasOilpSensor
  }

  predicate OilSeen(h: History) {
    && IsUpdate(h) && OilStartChecked(Last(h)) && Last(h).engineRunTime <= 5.0
    && Last(h).oilp.Some? && Last(h).oilp.value > Last(h).minOilPressureAfterStart as real
  }

  predicate EngineStalled(h: History) {
    IsUpdate(h) && !Last(h).isRunning
  }

  /** Five seconds after the start, with no pressure seen in those seconds. */
  ghost predicate OilNeverCame(h: History) {
    && IsUpdate(h) && OilStartChecked(Last(h)) && Last(h).engineRunTime > 5.0
    && !OilWasSeen(h)
  }

  predicate PressureSufficient(inp: Inputs) {
    if inp.engineRunTime < inp.oilPressureProtectionStartDelay then true
    else if inp.useOilPressureSwitch then inp.oilSwitchState
    else inp.oilp.Some? ==> inp.oilp.value > inp.minPressure
  }

  predicate OilFine(h: History) {
    && IsUpdate(h)
    && (Last(h).isRunning ==> Last(h).enableOilPressureProtect && PressureSufficient(Last(h)))
  }

  ghost predicate OilLow(h: History) {
    && IsUpdate(h) && Last(h).isRunning && Last(h).enableOilPressureProtect
    && HasElapsed(OilTimer(h), Last(h).timeNowNt, Last(h).minimumOilPressureTimeout)
  }

  predicate NoFiringUntilVvtSync(inp: Inputs) {
    || inp.vvtMapVTwin || inp.isPhaseSyncRequiredForIgnition
    || inp.operationMode.FourStrokeSymmetricalCrank?
    || inp.operationMode.FourStrokeThreeTimesCrank?
    || inp.operationMode.FourStrokeTwelveTimesCrank?
  }

  predicate PhaseMissing(inp: Inputs) {
    NoFiringUntilVvtSync(inp) && !inp.hasSynchronizedPhase
  }

  predicate FloodClearing(inp: Inputs) {
    !inp.isRunning && inp.isCylinderCleanupEnabled && inp.driverThrottleIntent > 90.0
  }

  predicate IgnitionOn(h: History) {
    if h == [] then false
    else if h[|h| - 1].IgnitionState? then h[|h| - 1].on
    else IgnitionOn(Before(h))
  }

  /** The limit of the worst fault so far. */
  function FaultLimit(h: History): int {
    if FatalError in h then 0 else if ReportEtbProblem in h then 1500 else 0x7FFF_FFFF
  }

  ghost predicate OverRevLimit(h: History) {
    Latch(h, RevRise, RevFall)
  }

  ghost predicate BoostLatched(h: History) {
    Latch(h, BoostRise, BoostFall)
  }

  ghost predicate OverBoost(h: History) {
    IsUpdate(h) && Last(h).boostCutPressure != 0.0 && BoostLatched(h)
  }

  ghost predicate OverDuty(h: History) {
    Latch(h, DutyRise, DutyFall)
  }

  ghost predicate OilWasSeen(h: History) {
    Latch(h, OilSeen, EngineStalled)
  }

  ghost function DutyTimer(h: History): int {
    LastReset(h, DutyInSustainedLimit)
  }

  ghost function OilTimer(h: History): int {
    LastReset(h, OilFine)
  }

  predicate IgnitionIsOff(h: History) {
    IsUpdate(h) && !IgnitionOn(h) && !Last(h).directSelfStimulation
  }

  // ---------- which cut wins ----------

  datatype LimpState = LimpState(value: bool, reason: ClearReason)

  datatype Cut = Cut(reason: ClearReason, active: bool)

  const ALLOWED := LimpState(true, NoReason)

  /** Clearing works once: the reason of the first clear stays. */
  function Apply(s: LimpState, c: Cut): LimpState {
    if s.value && c.active then LimpState(false, c.reason) else s
  }

  function Through(s: LimpState, cuts: seq<Cut>): LimpState
    decreases |cuts|
  {
    if cuts == [] then s else Through(Apply(s, cuts[0]), cuts[1..])
  }

  lemma {:induction false} ThroughConcat(s: LimpState, a: seq<Cut>, b: seq<Cut>)
    ensures Through(s, a + b) == Through(Through(s, a), b)
    decreases |a|
  {
    if a == [] {
      assert a + b == b;
    } else {
      ThroughConcat(Apply(s, a[0]), a[1..], b);
      assert (a + b)[1..] == a[1..] + b;
    }
  }

  /** Allowed exactly when nothing is active; otherwise the first active cut gives the reason. */
  lemma {:induction false} FirstActiveWins(cuts: seq<Cut>)
    ensures var v := Through(ALLOWED, cuts);
            && (v.value <==> forall k :: 0 <= k < |cuts| ==> !cuts[k].active)
            && (v.value ==> v == ALLOWED)
            && forall k :: 0 <= k < |cuts| && cuts[k].active && (forall j :: 0 <= j < k ==> !cuts[j].active) ==>
                 v == LimpState(false, cuts[k].reason)
    decreases |cuts|
  {
    if cuts != [] {
      var init, last := cuts[..|cuts| - 1], cuts[|cuts| - 1];
      FirstActiveWins(init);
      ThroughConcat(ALLOWED, init, [last]);
      assert cuts == init + [last] && [last][1..] == [];
    }
  }

  ghost function BasicFuelCuts(h: History): seq<Cut>
    requires IsUpdate(h)
  {
    var inp := Last(h);
    [ Cut(Settings, !inp.isInjectionEnabled),
      Cut(IgnitionOff, IgnitionIsOff(h)),
      Cut(ACR, inp.acrActive),
      Cut(HardLimit, OverRevLimit(h) && inp.cutFuelOnHardLimit),
      Cut(FaultRevLimit, inp.rpm > FaultLimit(h) as real),
      Cut(LambdaProtection, inp.lambdaCut),
      Cut(BoostCut, OverBoost(h)) ]
  }

  ghost function ShaftFuelCuts(h: History): seq<Cut>
    requires IsUpdate(h)
  {
    var inp := Last(h);
    [ Cut(EnginePhase, PhaseMissing(inp)),
      Cut(OilPressure, OilNeverCame(h)),
      Cut(OilPressure, OilLow(h)),
      Cut(StopRequested, inp.isEngineStop),
      Cut(InjectorDutyCycle, OverDuty(h)),
      Cut(FloodClear, FloodClearing(inp)) ]
  }

  /** Everything that can cut fuel, in the order it is looked at. */
  ghost function FuelCuts(h: History): seq<Cut>
    requires IsUpdate(h)
  {
    BasicFuelCuts(h) + ShaftFuelCuts(h) + [Cut(LaunchCut, Last(h).launchFuelRetard)]
  }

  ghost function SparkCuts(h: History): seq<Cut>
    requires IsUpdate(h)
  {
    var inp := Last(h);
    [ Cut(Settings, !inp.isIgnitionEnabled),
      Cut(IgnitionOff, IgnitionIsOff(h)),
      Cut(Lua, inp.luaIgnCut),
      Cut(HardLimit, OverRevLimit(h) && inp.cutSparkOnHardLimit),
      Cut(EnginePhase, PhaseMissing(inp)),
      Cut(LaunchCut, inp.launchSparkRetard) ]
  }

  function Verdict(cuts: seq<Cut>): LimpState {
    Through(ALLOWED, cuts)
  }

  /** The history up to its latest update; empty if there was none. */
  function LatestUpdate(h: History): (u: History)
    ensures |u| <= |h| && (u == [] || (IsUpdate(u) && u == h[..|u|]))
  {
    if h == [] || IsUpdate(h) then h else LatestUpdate(Before(h))
  }

  ghost function TransientInjection(h: History): LimpState {
    var u := LatestUpdate(h);
    if u == [] then ALLOWED else Verdict(FuelCuts(u))
  }

  ghost function TransientIgnition(h: History): LimpState {
    var u := LatestUpdate(h);
    if u == [] then ALLOWED else Verdict(SparkCuts(u))
  }

  predicate ThrottleAllowed(h: History) {
    FatalError !in h && ReportEtbProblem !in h
  }

  function LatchedFault(h: History): LimpState {
    if FatalError in h then LimpState(false, Fatal) else ALLOWED
  }

  ghost function Injection(h: History): LimpState {
    if FatalError in h then LatchedFault(h) else TransientInjection(h)
  }

  ghost function Ignition(h: History): LimpState {
    if FatalError in h then LatchedFault(h) else TransientIgnition(h)
  }

  ghost predicate AnyCut(h: History) {
    IsUpdate(h) && (!Verdict(FuelCuts(h)).value || !Verdict(SparkCuts(h)).value)
  }

  ghost function CutTimer(h: History): int {
    LastReset(h, AnyCut)
  }

  // ---------- what has to be remembered ----------

  datatype Memory = Memory(
    overRevLimit: bool, boostLatched: bool, overDuty: bool, oilWasSeen: bool, dutyTimer: int, oilTimer: int)

  ghost function MemoryOf(h: History): Memory {
    Memory(OverRevLimit(h), BoostLatched(h), OverDuty(h), OilWasSeen(h), DutyTimer(h), OilTimer(h))
  }

  datatype Faults = Faults(
    faultRevLimit: int, throttleAllowed: bool, injection: LimpState, ignition: LimpState, trigger: LimpState,
    ignitionOn: bool)

  function FaultsOf(h: History): Faults {
    Faults(FaultLimit(h), ThrottleAllowed(h), LatchedFault(h), LatchedFault(h), LatchedFault(h), IgnitionOn(h))
  }

  datatype Answers = Answers(injection: LimpState, ignition: LimpState, cutTimer: int)

  ghost function AnswersOf(h: History): Answers {
    Answers(TransientInjection(h), TransientIgnition(h), CutTimer(h))
  }

  // ---------- faults ----------

  /** What a fatal error stops stays stopped, whatever follows. */
  lemma {:induction false} FatalIsForever(h: History, later: History)
    requires FatalError in h
    ensures Injection(h + later) == Ignition(h + later) == LimpState(false, Fatal)
    ensures FaultLimit(h + later) == 0
  {
    assert FatalError in h + later;
  }

  // ---------- the cuts one after another ----------

  lemma {:induction false} ThroughStep(s: LimpState, cuts: seq<Cut>, c: Cut)
    ensures Through(s, cuts + [c]) == Apply(Through(s, cuts), c)
  {
    ThroughConcat(s, cuts, [c]);
    assert [c][1..] == [];
  }

  lemma {:induction false} Through6(s: LimpState, c0: Cut, c1: Cut, c2: Cut, c3: Cut, c4: Cut, c5: Cut)
    ensures Through(s, [c0, c1, c2, c3, c4, c5]) ==
            Apply(Apply(Apply(Apply(Apply(Apply(s, c0), c1), c2), c3), c4), c5)
  {
    ThroughStep(s, [], c0);
    ThroughStep(s, [c0], c1);
    ThroughStep(s, [c0, c1], c2);
    ThroughStep(s, [c0, c1, c2], c3);
    ThroughStep(s, [c0, c1, c2, c3], c4);
    ThroughStep(s, [c0, c1, c2, c3, c4], c5);
    assert [] + [c0] == [c0] && [c0] + [c1] == [c0, c1] && [c0, c1] + [c2] == [c0, c1, c2];
    assert [c0, c1, c2] + [c3] == [c0, c1, c2, c3] && [c0, c1, c2, c3] + [c4] == [c0, c1, c2, c3, c4];
    assert [c0, c1, c2, c3, c4] + [c5] == [c0, c1, c2, c3, c4, c5];
    hide Apply;
  }

  lemma {:induction false} Through7(s: LimpState, c0: Cut, c1: Cut, c2: Cut, c3: Cut, c4: Cut, c5: Cut, c6: Cut)
    ensures Through(s, [c0, c1, c2, c3, c4, c5, c6]) ==
            Apply(Apply(Apply(Apply(Apply(Apply(Apply(s, c0), c1), c2), c3), c4), c5), c6)
  {
    Through6(s, c0, c1, c2, c3, c4, c5);
    ThroughStep(s, [c0, c1, c2, c3, c4, c5], c6);
    assert [c0, c1, c2, c3, c4, c5] + [c6] == [c0, c1, c2, c3, c4, c5, c6];
    hide Apply;
  }

  // ---------- one more event ----------

  lemma {:induction false} RevStep(h: History)
    requires IsUpdate(h)
    ensures OverRevLimit(h) == (RevRise(h) || (!RevFall(h) && OverRevLimit(Before(h))))
  {
    LatchStep(h, RevRise, RevFall);
  }

  lemma {:induction false} BoostStep(h: History)
    requires IsUpdate(h)
    ensures BoostLatched(h) == (BoostRise(h) || (!BoostFall(h) && BoostLatched(Before(h))))
  {
    LatchStep(h, BoostRise, BoostFall);
  }

  lemma {:induction false} DutyStep(h: History)
    requires IsUpdate(h)
    ensures OverDuty(h) == (DutyRise(h) || (!DutyFall(h) && OverDuty(Before(h))))
    ensures DutyTimer(h) == if DutyInSustainedLimit(h) then Now(h) else DutyTimer(Before(h))
  {
    LatchStep(h, DutyRise, DutyFall);
  }

  lemma {:induction false} OilStep(h: History)
    requires IsUpdate(h)
    ensures OilWasSeen(h) == (OilSeen(h) || (!EngineStalled(h) && OilWasSeen(Before(h))))
    ensures OilTimer(h) == if OilFine(h) then Now(h) else OilTimer(Before(h))
  {
    LatchStep(h, OilSeen, EngineStalled);
  }

  lemma {:induction false} ReportKeeps(h: History, e: Event, rise: History -> bool, fall: History -> bool)
    requires !e.Update? && forall g :: rise(g) || fall(g) ==> IsUpdate(g)
    ensures Latch(h + [e], rise, fall) == Latch(h, rise, fall)
    ensures LastReset(h + [e], rise) == LastReset(h, rise)
  {
    assert Before(h + [e]) == h;
    LatchStep(h + [e], rise, fall);
  }

  /** A report changes no latch, no timer and not the answer of the last update. */
  lemma {:induction false} ReportKeepsAll(h: History, e: Event)
    requires !e.Update?
    ensures MemoryOf(h + [e]) == MemoryOf(h) && AnswersOf(h + [e]) == AnswersOf(h)
    ensures IgnitionOn(h + [e]) == if e.IgnitionState? then e.on else IgnitionOn(h)
  {
    assert Before(h + [e]) == h;
    ReportKeeps(h, e, RevRise, RevFall);
    ReportKeeps(h, e, BoostRise, BoostFall);
    ReportKeeps(h, e, DutyRise, DutyFall);
    ReportKeeps(h, e, OilSeen, EngineStalled);
    ReportKeeps(h, e, DutyInSustainedLimit, DutyInSustainedLimit);
    ReportKeeps(h, e, OilFine, OilFine);
    ReportKeeps(h, e, AnyCut, AnyCut);
    hide Latch, LastReset, FuelCuts, SparkCuts, Through;
  }

  /** A fatal error stops everything, whatever was reported before. */
  function FatalFaults(f: Faults): Faults {
    var fatal := Cut(Fatal, true);
    f.(faultRevLimit := Min(f.faultRevLimit, 0), throttleAllowed := false,
       injection := Apply(f.injection, fatal), ignition := Apply(f.ignition, fatal), trigger := Apply(f.trigger, fatal))
  }

  lemma {:induction false} ClearedIsOff(s: LimpState)
    ensures !Apply(s, Cut(Fatal, true)).value
  {
  }

  /** Before anything happened. */
  lemma {:induction false} NothingYet()
    ensures MemoryOf([]) == Memory(false, false, false, false, NEVER, NEVER)
    ensures FaultsOf([]) == Faults(0x7FFF_FFFF, true, ALLOWED, ALLOWED, ALLOWED, false)
    ensures AnswersOf([]) == Answers(ALLOWED, ALLOWED, NEVER)
  {
  }

  /** What each report changes; the worst fault decides the limit, in whichever order they come. */
  lemma {:induction false} FaultSteps(h: History, on: bool)
    ensures var f := FaultsOf(h);
            && FaultsOf(h + [IgnitionState(on)]) == f.(ignitionOn := on)
            && FaultsOf(h + [ReportEtbProblem]) == f.(faultRevLimit := Min(f.faultRevLimit, 1500), throttleAllowed := false)
            && FaultsOf(h + [FatalError]) == FatalFaults(f)
  {
    assert Before(h + [IgnitionState(on)]) == Before(h + [ReportEtbProblem]) == Before(h + [FatalError]) == h;
  }

  /** An update is not a report: faults and the ignition switch stay as they were. */
  lemma {:induction false} UpdateKeepsFaults(h: History, inp: Inputs)
    ensures var g := h + [Update(inp)];
            IsUpdate(g) && Last(g) == inp && Before(g) == h && FaultsOf(g) == FaultsOf(h)
  {
    assert Before(h + [Update(inp)]) == h;
  }

  lemma {:induction false} VerdictReason(h: History)
    ensures TransientInjection(h).value ==> TransientInjection(h) == ALLOWED
    ensures TransientIgnition(h).value ==> TransientIgnition(h) == ALLOWED
  {
    var u := LatestUpdate(h);
    if u != [] {
      FirstActiveWins(FuelCuts(u));
      FirstActiveWins(SparkCuts(u));
    }
  }

  lemma {:induction false} BasicVerdict(h: History)
    requires IsUpdate(h)
    ensures var inp := Last(h);
            Verdict(BasicFuelCuts(h)) == Apply(Apply(Apply(Apply(Apply(Apply(Apply(ALLOWED,
              Cut(Settings, !inp.isInjectionEnabled)), Cut(IgnitionOff, IgnitionIsOff(h))), Cut(ACR, inp.acrActive)),
              Cut(HardLimit, OverRevLimit(h) && inp.cutFuelOnHardLimit)),
              Cut(FaultRevLimit, inp.rpm > FaultLimit(h) as real)), Cut(LambdaProtection, inp.lambdaCut)),
              Cut(BoostCut, OverBoost(h)))
  {
    var c := BasicFuelCuts(h);
    Through7(ALLOWED, c[0], c[1], c[2], c[3], c[4], c[5], c[6]);
    hide Through, Apply, IgnitionIsOff, OverRevLimit, OverBoost, FaultLimit;
  }

  lemma {:induction false} ShaftVerdict(s: LimpState, h: History)
    requires IsUpdate(h)
    ensures var inp := Last(h);
            Through(s, ShaftFuelCuts(h)) == Apply(Apply(Apply(Apply(Apply(Apply(s,
              Cut(EnginePhase, PhaseMissing(inp))), Cut(OilPressure, OilNeverCame(h))), Cut(OilPressure, OilLow(h))),
              Cut(StopRequested, inp.isEngineStop)), Cut(InjectorDutyCycle, OverDuty(h))),
              Cut(FloodClear, FloodClearing(inp)))
  {
    var c := ShaftFuelCuts(h);
    Through6(s, c[0], c[1], c[2], c[3], c[4], c[5]);
    hide Through, Apply, PhaseMissing, OilNeverCame, OilLow, OverDuty, FloodClearing;
  }

  lemma {:induction false} VerdictsSplit(h: History)
    requires IsUpdate(h)
    ensures var inp := Last(h);
            && TransientInjection(h) == Apply(Through(Verdict(BasicFuelCuts(h)), ShaftFuelCuts(h)),
                                              Cut(LaunchCut, inp.launchFuelRetard))
            && TransientIgnition(h) == Apply(Apply(Apply(Apply(Apply(Apply(ALLOWED,
                 Cut(Settings, !inp.isIgnitionEnabled)), Cut(IgnitionOff, IgnitionIsOff(h))), Cut(Lua, inp.luaIgnCut)),
                 Cut(HardLimit, OverRevLimit(h) && inp.cutSparkOnHardLimit)), Cut(EnginePhase, PhaseMissing(inp))),
                 Cut(LaunchCut, inp.launchSparkRetard))
            && CutTimer(h) == if !TransientInjection(h).value || !TransientIgnition(h).value then inp.nowNt else CutTimer(Before(h))
  {
    var inp := Last(h);
    var launch := Cut(LaunchCut, inp.launchFuelRetard);
    ThroughStep(ALLOWED, BasicFuelCuts(h) + ShaftFuelCuts(h), launch);
    ThroughConcat(ALLOWED, BasicFuelCuts(h), ShaftFuelCuts(h));
    Through6(ALLOWED, Cut(Settings, !inp.isIgnitionEnabled), Cut(IgnitionOff, IgnitionIsOff(h)), Cut(Lua, inp.luaIgnCut),
             Cut(HardLimit, OverRevLimit(h) && inp.cutSparkOnHardLimit), Cut(EnginePhase, PhaseMissing(inp)),
             Cut(LaunchCut, inp.launchSparkRetard));
    hide Through, IgnitionIsOff, OverRevLimit, PhaseMissing, Apply, BasicFuelCuts, ShaftFuelCuts;
  }

  lemma {:induction false} CutTimerStep(h: History)
    requires IsUpdate(h)
    ensures CutTimer(h) == if !TransientInjection(h).value || !TransientIgnition(h).value then Last(h).nowNt else CutTimer(Before(h))
  {
    VerdictsSplit(h);
  }
}
