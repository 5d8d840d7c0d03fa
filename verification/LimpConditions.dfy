/** The main results about the limp manager: when fuel and spark are allowed, and for which reason they
    are not, in terms of the inputs of all updates so far. */
module LimpConditions {
  import opened Util
  import opened LimpHistory

  // ---------- the latches ----------

  /** The first condition held at some update, and at none since did the second without the first. */
  ghost predicate Held(h: History, high: Inputs -> bool, low: Inputs -> bool) {
    exists i :: 0 <= i < |h| && h[i].Update? && high(h[i].inp)
                && forall j :: i < j < |h| && h[j].Update? ==> high(h[j].inp) || !low(h[j].inp)
  }

  lemma {:induction false} HeldIff(h: History, rise: History -> bool, fall: History -> bool, high: Inputs -> bool, low: Inputs -> bool)
    requires forall g :: rise(g) <==> IsUpdate(g) && high(Last(g))
    requires forall g :: fall(g) <==> IsUpdate(g) && low(Last(g))
    ensures Held(h, high, low) <==> Latch(h, rise, fall)
  {
    if Latch(h, rise, fall) {
      var i :| 0 < i <= |h| && rise(h[..i]) && forall j :: i < j <= |h| ==> rise(h[..j]) || !fall(h[..j]);
      assert h[i - 1].Update? && high(h[i - 1].inp);
      forall j | i - 1 < j < |h| && h[j].Update? ensures high(h[j].inp) || !low(h[j].inp) {
        assert rise(h[..j + 1]) || !fall(h[..j + 1]);
      }
    }
    if Held(h, high, low) {
      var i :| 0 <= i < |h| && h[i].Update? && high(h[i].inp)
               && forall j :: i < j < |h| && h[j].Update? ==> high(h[j].inp) || !low(h[j].inp);
      assert rise(h[..i + 1]);
      forall j | i + 1 < j <= |h| ensures rise(h[..j]) || !fall(h[..j]) {
        if h[j - 1].Update? { assert high(h[j - 1].inp) || !low(h[j - 1].inp); }
      }
    }
  }

  predicate SpeedIsHigh(inp: Inputs) {
    inp.rpm > if inp.useCltBasedRpmLimit then inp.cltRevLimit else inp.rpmHardLimit
  }

  predicate SpeedIsLow(inp: Inputs) {
    inp.rpm < (if inp.useCltBasedRpmLimit then inp.cltRevLimit else inp.rpmHardLimit) - inp.rpmHardLimitHyst
  }

  /** Over the rev limit, and not back at the resume speed since. */
  ghost predicate OverSpeed(h: History) {
    Held(h, SpeedIsHigh, SpeedIsLow)
  }

  lemma {:induction false} OverSpeedIff(h: History)
    ensures OverSpeed(h) <==> OverRevLimit(h)
  {
    HeldIff(h, RevRise, RevFall, SpeedIsHigh, SpeedIsLow);
    hide Held, Latch;
  }

  predicate BoostIsHigh(inp: Inputs) {
    inp.boostCutPressure != 0.0 && inp.manifoldPressure > inp.boostCutPressure
  }

  predicate BoostIsLow(inp: Inputs) {
    inp.boostCutPressure != 0.0 && inp.manifoldPressure < inp.boostCutPressure - 20.0
  }

  /** Over the boost limit, and not 20 kPa below it since; updates with the cut disabled do not count. */
  ghost predicate BoostTooHigh(h: History) {
    Held(h, BoostIsHigh, BoostIsLow)
  }

  lemma {:induction false} BoostTooHighIff(h: History)
    ensures BoostTooHigh(h) <==> BoostLatched(h)
  {
    HeldIff(h, BoostRise, BoostFall, BoostIsHigh, BoostIsLow);
    hide Held, Latch;
  }

  /** The duty cycle was over the instant limit, or over the sustained one for too long, at some update,
      and at none since below 20 percent with neither. */
  ghost predicate DutyTooHigh(h: History) {
    exists i :: 0 <= i < |h| && h[i].Update? && DutyIsHigh(h, i)
                && forall j :: i < j < |h| && h[j].Update? ==> DutyIsHigh(h, j) || h[j].inp.injDutyCycle >= 20.0
  }

  ghost predicate DutyIsHigh(h: History, i: nat)
    requires i < |h| && h[i].Update?
  {
    h[i].inp.injDutyCycle > h[i].inp.maxInjectorDutyInstant || SustainedTimedOut(h[..i + 1])
  }

  lemma {:induction false} DutyAt(h: History, i: nat)
    requires i < |h|
    ensures DutyRise(h[..i + 1]) <==> h[i].Update? && DutyIsHigh(h, i)
    ensures DutyFall(h[..i + 1]) <==> h[i].Update? && h[i].inp.injDutyCycle < 20.0
  {
    hide SustainedTimedOut;
  }

  lemma {:induction false} DutyLatched(h: History)
    requires OverDuty(h)
    ensures DutyTooHigh(h)
  {
    hide DutyRise, DutyFall, DutyIsHigh;
    var i :| 0 < i <= |h| && DutyRise(h[..i]) && forall j :: i < j <= |h| ==> DutyRise(h[..j]) || !DutyFall(h[..j]);
    DutyAt(h, i - 1);
    forall j | i - 1 < j < |h| && h[j].Update? ensures DutyIsHigh(h, j) || h[j].inp.injDutyCycle >= 20.0 {
      DutyAt(h, j);
      assert DutyRise(h[..j + 1]) || !DutyFall(h[..j + 1]);
    }
  }

  lemma {:induction false} DutyTooHighIff(h: History)
    ensures DutyTooHigh(h) <==> OverDuty(h)
  {
    if OverDuty(h) {
      DutyLatched(h);
    }
    hide DutyRise, DutyFall, DutyIsHigh;
    if DutyTooHigh(h) {
      var i :| 0 <= i < |h| && h[i].Update? && DutyIsHigh(h, i)
               && forall j :: i < j < |h| && h[j].Update? ==> DutyIsHigh(h, j) || h[j].inp.injDutyCycle >= 20.0;
      DutyAt(h, i);
      assert DutyRise(h[..i + 1]);
      forall j | i + 1 < j <= |h| ensures DutyRise(h[..j]) || !DutyFall(h[..j]) {
        DutyAt(h, j - 1);
      }
    }
  }

  /** Pressure over the limit within the first five seconds, at an update that checks for it. */
  predicate SawPressure(inp: Inputs) {
    && inp.isRunning && inp.minOilPressureAfterStart > 0 && inp.hasOilpSensor && inp.engineRunTime <= 5.0
    && inp.oilp.Some? && inp.oilp.value > inp.minOilPressureAfterStart as real
  }

  /** Each time pressure was seen, the engine stalled again afterwards. */
  ghost predicate NoPressureSinceStart(h: History) {
    forall i :: 0 <= i < |h| && h[i].Update? && SawPressure(h[i].inp) ==>
      exists j :: i < j < |h| && h[j].Update? && !h[j].inp.isRunning
  }

  predicate Stalled(inp: Inputs) {
    !inp.isRunning
  }

  lemma {:induction false} NoPressureIff(h: History)
    ensures NoPressureSinceStart(h) <==> !OilWasSeen(h)
  {
    HeldIff(h, OilSeen, EngineStalled, SawPressure, Stalled);
    hide Latch;
    if !NoPressureSinceStart(h) {
      var i :| 0 <= i < |h| && h[i].Update? && SawPressure(h[i].inp)
               && forall j :: i < j < |h| && h[j].Update? ==> h[j].inp.isRunning;
      assert forall j :: i < j < |h| && h[j].Update? ==> SawPressure(h[j].inp) || !Stalled(h[j].inp);
    }
  }

  /** The start check cuts exactly when it is on, the five seconds are over, and no pressure was seen in
      those of this start. */
  lemma {:induction false} OilNeverCameIff(h: History)
    requires IsUpdate(h)
    ensures var inp := Last(h);
            OilNeverCame(h) <==>
              && inp.isRunning && inp.minOilPressureAfterStart > 0 && inp.hasOilpSensor && inp.engineRunTime > 5.0
              && NoPressureSinceStart(h)
  {
    NoPressureIff(h);
    hide OilWasSeen, NoPressureSinceStart;
  }

  // ---------- the timers ----------

  /** Longer than `seconds`, at four million ticks each; a delta of 2^32 - 2 ticks is always long. */
  predicate IsLong(delta: int, seconds: real) {
    delta >= 0xFFFF_FFFE || delta as real > seconds * 4_000_000.0
  }

  /** The sustained-duty condition holds exactly when no update within the timeout saw a duty in the limit. */
  lemma {:induction false} SustainedIff(h: History)
    requires Chronological(h) && IsUpdate(h)
    ensures var inp := Last(h);
            SustainedTimedOut(h) <==>
            forall i :: 0 <= i < |h| && h[i].Update? && h[i].inp.injDutyCycle <= h[i].inp.maxInjectorDutySustained ==>
              IsLong(inp.timeNowNt - h[i].inp.nowNt, inp.maxInjectorDutySustainedTimeout)
  {
    ElapsedIff(h, DutyInSustainedLimit, Last(h).maxInjectorDutySustainedTimeout);
    hide HasElapsed, LastReset, Chronological;
    var inp := Last(h);
    if SustainedTimedOut(h) {
      forall i | 0 <= i < |h| && h[i].Update? && h[i].inp.injDutyCycle <= h[i].inp.maxInjectorDutySustained
        ensures IsLong(inp.timeNowNt - h[i].inp.nowNt, inp.maxInjectorDutySustainedTimeout)
      {
        assert DutyInSustainedLimit(h[..i + 1]);
      }
    }
    if forall i :: 0 <= i < |h| && h[i].Update? && h[i].inp.injDutyCycle <= h[i].inp.maxInjectorDutySustained ==>
              IsLong(inp.timeNowNt - h[i].inp.nowNt, inp.maxInjectorDutySustainedTimeout) {
      forall i | 0 < i <= |h| && DutyInSustainedLimit(h[..i])
        ensures LongAgo(Last(h).timeNowNt - Now(h[..i]), Last(h).maxInjectorDutySustainedTimeout)
      {
        assert h[i - 1].Update?;
      }
    }
  }

  /** The oil pressure is fine while the engine stands, and with the protection on: during the start delay,
      when the switch says so, when the sensor is dead, or above the limit for this speed. */
  predicate PressureIsFine(inp: Inputs) {
    || !inp.isRunning
    || (&& inp.enableOilPressureProtect
        && (|| inp.engineRunTime < inp.oilPressureProtectionStartDelay
            || (inp.useOilPressureSwitch && inp.oilSwitchState)
            || (!inp.useOilPressureSwitch && inp.oilp.None?)
            || (!inp.useOilPressureSwitch && inp.oilp.Some? && inp.oilp.value > inp.minPressure)))
  }

  lemma {:induction false} OilLowIff(h: History)
    requires Chronological(h) && IsUpdate(h)
    ensures var inp := Last(h);
            OilLow(h) <==>
            && inp.isRunning && inp.enableOilPressureProtect
            && forall i :: 0 <= i < |h| && h[i].Update? && PressureIsFine(h[i].inp) ==>
                 IsLong(inp.timeNowNt - h[i].inp.nowNt, inp.minimumOilPressureTimeout)
  {
    ElapsedIff(h, OilFine, Last(h).minimumOilPressureTimeout);
    FineIff(h);
    hide HasElapsed, LastReset, Chronological, OilFine, PressureIsFine;
    var inp := Last(h);
    if forall i :: 0 < i <= |h| && OilFine(h[..i]) ==> LongAgo(Last(h).timeNowNt - Now(h[..i]), inp.minimumOilPressureTimeout) {
      forall i | 0 <= i < |h| && h[i].Update? && PressureIsFine(h[i].inp)
        ensures IsLong(inp.timeNowNt - h[i].inp.nowNt, inp.minimumOilPressureTimeout)
      {
        assert OilFine(h[..i + 1]);
      }
    }
    if forall i :: 0 <= i < |h| && h[i].Update? && PressureIsFine(h[i].inp) ==>
                 IsLong(inp.timeNowNt - h[i].inp.nowNt, inp.minimumOilPressureTimeout) {
      forall i | 0 < i <= |h| && OilFine(h[..i]) ensures LongAgo(Last(h).timeNowNt - Now(h[..i]), inp.minimumOilPressureTimeout) {
        assert h[i - 1].Update? && PressureIsFine(h[i - 1].inp);
      }
    }
  }

  lemma {:induction false} FineIff(h: History)
    ensures forall i :: 0 <= i < |h| ==> (OilFine(h[..i + 1]) <==> h[i].Update? && PressureIsFine(h[i].inp))
  {
  }

  /** A timer stands at the latest update that reset it, if there was one. */
  lemma {:induction false} LatestReset(h: History, reset: History -> bool)
    ensures || (LastReset(h, reset) == NEVER && forall i :: 0 < i <= |h| ==> !reset(h[..i]))
            || exists i :: 0 < i <= |h| && reset(h[..i]) && LastReset(h, reset) == Now(h[..i])
                           && forall j :: i < j <= |h| ==> !reset(h[..j])
  {
    if h != [] {
      var b := Before(h);
      assert h[..|h|] == h && forall k :: 0 <= k <= |b| ==> b[..k] == h[..k];
      if reset(h) {
        assert reset(h[..|h|]);
      } else {
        LatestReset(b, reset);
      }
    }
  }

  // ---------- switches and limits ----------

  lemma {:induction false} IgnitionOnIff(h: History)
    ensures IgnitionOn(h) <==> exists i :: 0 <= i < |h| && h[i] == IgnitionState(true) && IgnitionState(false) !in h[i..]
  {
    if h != [] {
      var b := Before(h);
      IgnitionOnIff(b);
      var last := h[|h| - 1];
      if last == IgnitionState(true) {
        assert h[|h| - 1..] == [last];
      } else if last != IgnitionState(false) {
        assert forall i :: 0 <= i <= |b| ==> h[i..] == b[i..] + [last];
      } else {
        assert forall i :: 0 <= i < |h| ==> h[i..][|h| - 1 - i] == last;
      }
    }
  }

  /** Fourteen conditions that cut fuel, in the order they are looked at, in terms of the inputs. */
  lemma {:induction false} FuelCutsAre(h: History)
    requires IsUpdate(h)
    ensures var inp := Last(h);
            FuelCuts(h) ==
            [ Cut(Settings, !inp.isInjectionEnabled),
              Cut(IgnitionOff, !IgnitionOn(h) && !inp.directSelfStimulation),
              Cut(ACR, inp.acrActive),
              Cut(HardLimit, OverSpeed(h) && inp.cutFuelOnHardLimit),
              Cut(FaultRevLimit, inp.rpm > if FatalError in h then 0.0 else if ReportEtbProblem in h then 1500.0 else 2147483647.0),
              Cut(LambdaProtection, inp.lambdaCut),
              Cut(BoostCut, inp.boostCutPressure != 0.0 && BoostTooHigh(h)),
              Cut(EnginePhase, NeedsPhase(inp) && !inp.hasSynchronizedPhase),
              Cut(OilPressure, inp.isRunning && inp.minOilPressureAfterStart > 0 && inp.hasOilpSensor
                               && inp.engineRunTime > 5.0 && NoPressureSinceStart(h)),
              Cut(OilPressure, OilLow(h)),
              Cut(StopRequested, inp.isEngineStop),
              Cut(InjectorDutyCycle, DutyTooHigh(h)),
              Cut(FloodClear, !inp.isRunning && inp.isCylinderCleanupEnabled && inp.driverThrottleIntent > 90.0),
              Cut(LaunchCut, inp.launchFuelRetard) ]
  {
    LatchesAre(h);
    ConditionsAre(h);
    hide *;
    FuelCutsList(h);
  }

  lemma {:induction false} FuelCutsList(h: History)
    requires IsUpdate(h)
    ensures var inp := Last(h);
            FuelCuts(h) ==
            [ Cut(Settings, !inp.isInjectionEnabled), Cut(IgnitionOff, IgnitionIsOff(h)), Cut(ACR, inp.acrActive),
              Cut(HardLimit, OverRevLimit(h) && inp.cutFuelOnHardLimit),
              Cut(FaultRevLimit, inp.rpm > FaultLimit(h) as real), Cut(LambdaProtection, inp.lambdaCut),
              Cut(BoostCut, OverBoost(h)), Cut(EnginePhase, PhaseMissing(inp)), Cut(OilPressure, OilNeverCame(h)),
              Cut(OilPressure, OilLow(h)), Cut(StopRequested, inp.isEngineStop), Cut(InjectorDutyCycle, OverDuty(h)),
              Cut(FloodClear, FloodClearing(inp)), Cut(LaunchCut, inp.launchFuelRetard) ]
  {
    hide IgnitionIsOff, OverRevLimit, FaultLimit, OverBoost, PhaseMissing, OilNeverCame, OilLow, OverDuty, FloodClearing;
  }

  lemma {:induction false} LatchesAre(h: History)
    requires IsUpdate(h)
    ensures OverRevLimit(h) == OverSpeed(h) && OverDuty(h) == DutyTooHigh(h)
    ensures OverBoost(h) == (Last(h).boostCutPressure != 0.0 && BoostTooHigh(h))
    ensures var inp := Last(h);
            OilNeverCame(h) == (inp.isRunning && inp.minOilPressureAfterStart > 0 && inp.hasOilpSensor
                                && inp.engineRunTime > 5.0 && NoPressureSinceStart(h))
  {
    OverSpeedIff(h);
    BoostTooHighIff(h);
    DutyTooHighIff(h);
    OilNeverCameIff(h);
    hide OverSpeed, OverRevLimit, BoostTooHigh, BoostLatched, DutyTooHigh, OverDuty, OilNeverCame, NoPressureSinceStart;
  }

  lemma {:induction false} ConditionsAre(h: History)
    requires IsUpdate(h)
    ensures var inp := Last(h);
            && IgnitionIsOff(h) == (!IgnitionOn(h) && !inp.directSelfStimulation)
            && FaultLimit(h) as real == (if FatalError in h then 0.0 else if ReportEtbProblem in h then 1500.0 else 2147483647.0)
            && PhaseMissing(inp) == (NeedsPhase(inp) && !inp.hasSynchronizedPhase)
            && FloodClearing(inp) == (!inp.isRunning && inp.isCylinderCleanupEnabled && inp.driverThrottleIntent > 90.0)
  {
  }

  /** Camshaft information is needed before anything fires. */
  predicate NeedsPhase(inp: Inputs) {
    || inp.vvtMapVTwin || inp.isPhaseSyncRequiredForIgnition
    || inp.operationMode in {FourStrokeSymmetricalCrank, FourStrokeThreeTimesCrank, FourStrokeTwelveTimesCrank}
  }

  lemma {:induction false} SparkCutsAre(h: History)
    requires IsUpdate(h)
    ensures var inp := Last(h);
            SparkCuts(h) ==
            [ Cut(Settings, !inp.isIgnitionEnabled),
              Cut(IgnitionOff, !IgnitionOn(h) && !inp.directSelfStimulation),
              Cut(Lua, inp.luaIgnCut),
              Cut(HardLimit, OverSpeed(h) && inp.cutSparkOnHardLimit),
              Cut(EnginePhase, NeedsPhase(inp) && !inp.hasSynchronizedPhase),
              Cut(LaunchCut, inp.launchSparkRetard) ]
  {
    OverSpeedIff(h);
    hide OverSpeed, OverRevLimit, IgnitionOn;
  }

  // ---------- main results ----------

  /** No fuel cut at an update, every condition spelled out over the history. */
  ghost predicate NothingCutsFuel(h: History)
    requires IsUpdate(h)
  {
    var inp := Last(h);
    && inp.isInjectionEnabled
    && (IgnitionOn(h) || inp.directSelfStimulation)
    && !inp.acrActive
    && !(OverSpeed(h) && inp.cutFuelOnHardLimit)
    && inp.rpm <= (if ReportEtbProblem in h then 1500.0 else 2147483647.0)
    && !inp.lambdaCut
    && !(inp.boostCutPressure != 0.0 && BoostTooHigh(h))
    && (NeedsPhase(inp) ==> inp.hasSynchronizedPhase)
    && !(inp.isRunning && inp.minOilPressureAfterStart > 0 && inp.hasOilpSensor && inp.engineRunTime > 5.0
         && NoPressureSinceStart(h))
    && !OilLow(h)
    && !inp.isEngineStop
    && !DutyTooHigh(h)
    && (inp.isRunning || !inp.isCylinderCleanupEnabled || inp.driverThrottleIntent <= 90.0)
    && !inp.launchFuelRetard
  }

  predicate NoneActive(cuts: seq<Cut>) {
    forall k :: 0 <= k < |cuts| ==> !cuts[k].active
  }

  lemma {:induction false} NoneOf14(c: seq<Cut>)
    requires |c| == 14
    ensures NoneActive(c) <==> && !c[0].active && !c[1].active && !c[2].active && !c[3].active && !c[4].active
                               && !c[5].active && !c[6].active && !c[7].active && !c[8].active && !c[9].active
                               && !c[10].active && !c[11].active && !c[12].active && !c[13].active
  {
  }

  lemma {:induction false} NoneOf6(c: seq<Cut>)
    requires |c| == 6
    ensures NoneActive(c) <==> !c[0].active && !c[1].active && !c[2].active && !c[3].active && !c[4].active && !c[5].active
  {
  }

  /** Injection is allowed exactly when no fatal error was ever reported and, at the latest update,
      nothing cut it. */
  lemma {:induction false} InjectionAllowedIff(h: History)
    ensures var u := LatestUpdate(h);
            Injection(h).value <==> FatalError !in h && (u == [] || NothingCutsFuel(u))
  {
    var u := LatestUpdate(h);
    if u != [] && FatalError !in h {
      assert FatalError !in u;
      FirstActiveWins(FuelCuts(u));
      FuelCutsAre(u);
      NoneOf14(FuelCuts(u));
    }
    hide NoneActive, FaultLimit, OverSpeed, BoostTooHigh, DutyTooHigh, OilLow, NoPressureSinceStart, IgnitionOn, NeedsPhase, Through, FuelCuts;
  }

  ghost predicate NothingCutsSpark(h: History)
    requires IsUpdate(h)
  {
    var inp := Last(h);
    && inp.isIgnitionEnabled
    && (IgnitionOn(h) || inp.directSelfStimulation)
    && !inp.luaIgnCut
    && !(OverSpeed(h) && inp.cutSparkOnHardLimit)
    && (NeedsPhase(inp) ==> inp.hasSynchronizedPhase)
    && !inp.launchSparkRetard
  }

  lemma {:induction false} IgnitionAllowedIff(h: History)
    ensures var u := LatestUpdate(h);
            Ignition(h).value <==> FatalError !in h && (u == [] || NothingCutsSpark(u))
  {
    var u := LatestUpdate(h);
    if u != [] {
      FirstActiveWins(SparkCuts(u));
      SparkCutsAre(u);
      NoneOf6(SparkCuts(u));
    }
    hide OverSpeed, IgnitionOn, NeedsPhase, Through, SparkCuts;
  }

  /** The reported reason: the fatal error if there was one, else the first active cut in order. */
  lemma {:induction false} InjectionReason(h: History, k: nat)
    requires var u := LatestUpdate(h);
             && u != [] && k < |FuelCuts(u)| && FuelCuts(u)[k].active
             && forall j :: 0 <= j < k ==> !FuelCuts(u)[j].active
    ensures Injection(h) == LimpState(false, if FatalError in h then Fatal else FuelCuts(LatestUpdate(h))[k].reason)
  {
    FirstActiveWins(FuelCuts(LatestUpdate(h)));
  }

  lemma {:induction false} IgnitionReason(h: History, k: nat)
    requires var u := LatestUpdate(h);
             && u != [] && k < |SparkCuts(u)| && SparkCuts(u)[k].active
             && forall j :: 0 <= j < k ==> !SparkCuts(u)[j].active
    ensures Ignition(h) == LimpState(false, if FatalError in h then Fatal else SparkCuts(LatestUpdate(h))[k].reason)
  {
    FirstActiveWins(SparkCuts(LatestUpdate(h)));
  }

  /** Without a fatal error, an update cuts something exactly when one of the conditions holds for fuel or for
      spark; so the timer of the latest cut, by `LatestReset`, stands at the latest such update. */
  lemma {:induction false} AnyCutIff(h: History)
    requires FatalError !in h
    ensures AnyCut(h) <==> IsUpdate(h) && !(NothingCutsFuel(h) && NothingCutsSpark(h))
  {
    if IsUpdate(h) {
      InjectionAllowedIff(h);
      IgnitionAllowedIff(h);
      assert LatestUpdate(h) == h;
    }
    hide NothingCutsFuel, NothingCutsSpark, FuelCuts, SparkCuts, Through;
  }

  lemma {:induction false} CutTimerIs(h: History)
    ensures || (CutTimer(h) == NEVER && forall i :: 0 < i <= |h| ==> !AnyCut(h[..i]))
            || exists i :: 0 < i <= |h| && AnyCut(h[..i]) && CutTimer(h) == Now(h[..i])
                           && forall j :: i < j <= |h| ==> !AnyCut(h[..j])
  {
    LatestReset(h, AnyCut);
    hide AnyCut, LastReset;
  }
}
