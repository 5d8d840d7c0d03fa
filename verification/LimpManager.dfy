/** LimpManager of limp_manager.cpp: the object the rest of the firmware updates and asks. Its state
    is tied to the history of updates and reports, so every answer is the one LimpHistory gives. */
module LimpManagers {
  import opened Util
  import opened LimpHistory

  /** Only allows clearing the value, never setting it again. */
  class Clearable {
    var m_value: bool
    var m_clearReason: ClearReason

    function State(): LimpState
      reads this
    {
      LimpState(m_value, m_clearReason)
    }

    constructor (value: bool)
      ensures State() == Apply(ALLOWED, Cut(Settings, !value))
    {
      m_value := value;
      m_clearReason := if value then NoReason else Settings;
    }

    method Clear(reason: ClearReason)
      modifies this
      ensures State() == Apply(old(State()), Cut(reason, true))
    {
      if m_value {
        m_value := false;
        m_clearReason := reason;
      }
    }

    method ClearWhen(condition: bool, reason: ClearReason)
      modifies this
      ensures State() == Apply(old(State()), Cut(reason, condition))
    {
      if condition {
        Clear(reason);
      }
    }

    method Assign(other: Clearable)
      modifies this
      ensures State() == old(other.State())
    {
      m_value, m_clearReason := other.m_value, other.m_clearReason;
    }
  }

  class Hysteresis {
    var m_state: bool

    constructor ()
      ensures !m_state
    {
      m_state := false;
    }

    method Test(risingCondition: bool, fallingCondition: bool) returns (state: bool)
      modifies this
      ensures state == m_state == (risingCondition || (!fallingCondition && old(m_state)))
    {
      if risingCondition {
        m_state := true;
      } else if fallingCondition {
        m_state := false;
      }
      return m_state;
    }

    method TestValue(value: real, rising: real, falling: real) returns (state: bool)
      modifies this
      ensures state == m_state == (value > rising || (!(value < falling) && old(m_state)))
    {
      state := Test(value > rising, value < falling);
    }
  }

  class Timer {
    var m_lastReset: int

    constructor ()
      ensures m_lastReset == NEVER
    {
      m_lastReset := NEVER;
    }

    method Reset(nowNt: int)
      modifies this
      ensures m_lastReset == nowNt
    {
      m_lastReset := nowNt;
    }

    method HasElapsedSec(seconds: real, timeNowNt: int) returns (elapsed: bool)
      ensures elapsed == HasElapsed(m_lastReset, timeNowNt, seconds)
    {
      var delta := timeNowNt - m_lastReset;
      if delta >= CLOCK_32_MAX {
        return true;
      }
      var delta32 := delta % 0x1_0000_0000;
      return delta32 as real > seconds * TICKS_PER_SECOND;
    }
  }

  class LimpManager {
    const m_revLimitHysteresis: Hysteresis
    const m_boostCutHysteresis: Hysteresis
    const m_injectorDutyCutHysteresis: Hysteresis
    const m_allowEtb: Clearable
    const m_allowInjection: Clearable
    const m_allowIgnition: Clearable
    const m_allowTriggerInput: Clearable
    const m_transientAllowInjection: Clearable
    const m_transientAllowIgnition: Clearable
    const m_lastCutTime: Timer
    const m_injectorDutySustainedTimer: Timer
    const m_lowOilPressureTimer: Timer
    var m_hardRevLimit: real
    var m_faultRevLimit: int
    var m_hadOilPressureAfterStart: bool
    var m_ignitionOn: bool
    ghost var history: History          // everything that happened since construction

    ghost predicate Separate() {
      && m_revLimitHysteresis != m_boostCutHysteresis
      && m_boostCutHysteresis != m_injectorDutyCutHysteresis
      && m_injectorDutyCutHysteresis != m_revLimitHysteresis
      && m_lastCutTime != m_injectorDutySustainedTimer
      && m_injectorDutySustainedTimer != m_lowOilPressureTimer
      && m_lowOilPressureTimer != m_lastCutTime
      && m_allowEtb != m_allowInjection && m_allowEtb != m_allowIgnition && m_allowEtb != m_allowTriggerInput
      && m_allowEtb != m_transientAllowInjection && m_allowEtb != m_transientAllowIgnition
      && m_allowInjection != m_allowIgnition && m_allowInjection != m_allowTriggerInput
      && m_allowInjection != m_transientAllowInjection && m_allowInjection != m_transientAllowIgnition
      && m_allowIgnition != m_allowTriggerInput && m_allowIgnition != m_transientAllowInjection
      && m_allowIgnition != m_transientAllowIgnition
      && m_allowTriggerInput != m_transientAllowInjection && m_allowTriggerInput != m_transientAllowIgnition
      && m_transientAllowInjection != m_transientAllowIgnition
    }

    ghost function Remembered(): Memory
      reads this`m_hadOilPressureAfterStart, m_revLimitHysteresis, m_boostCutHysteresis, m_injectorDutyCutHysteresis,
        m_injectorDutySustainedTimer, m_lowOilPressureTimer
    {
      Memory(m_revLimitHysteresis.m_state, m_boostCutHysteresis.m_state, m_injectorDutyCutHysteresis.m_state,
             m_hadOilPressureAfterStart, m_injectorDutySustainedTimer.m_lastReset, m_lowOilPressureTimer.m_lastReset)
    }

    ghost function Reported(): Faults
      reads this`m_faultRevLimit, this`m_ignitionOn, m_allowEtb, m_allowInjection, m_allowIgnition, m_allowTriggerInput
    {
      Faults(m_faultRevLimit, m_allowEtb.m_value, m_allowInjection.State(), m_allowIgnition.State(),
             m_allowTriggerInput.State(), m_ignitionOn)
    }

    ghost function Answered(): Answers
      reads m_transientAllowInjection, m_transientAllowIgnition, m_lastCutTime
    {
      Answers(m_transientAllowInjection.State(), m_transientAllowIgnition.State(), m_lastCutTime.m_lastReset)
    }

    /** Everything the object knows is what the history says it should know. */
    ghost predicate Valid()
      reads this, m_revLimitHysteresis, m_boostCutHysteresis, m_injectorDutyCutHysteresis,
        m_allowEtb, m_allowInjection, m_allowIgnition, m_allowTriggerInput,
        m_transientAllowInjection, m_transientAllowIgnition,
        m_lastCutTime, m_injectorDutySustainedTimer, m_lowOilPressureTimer
    {
      Separate() && Remembered() == MemoryOf(history) && Reported() == FaultsOf(history) && Answered() == AnswersOf(history)
    }

    constructor ()
      ensures Valid() && history == []
    {
      hide Valid, Clearable.State, Apply;
      m_revLimitHysteresis := new Hysteresis();
      m_boostCutHysteresis := new Hysteresis();
      m_injectorDutyCutHysteresis := new Hysteresis();
      var etb, injection, ignition := ThreeAllowed();
      m_allowEtb, m_allowInjection, m_allowIgnition := etb, injection, ignition;
      var trigger, transientInjection, transientIgnition := ThreeAllowed();
      m_allowTriggerInput := trigger;
      m_transientAllowInjection, m_transientAllowIgnition := transientInjection, transientIgnition;
      m_lastCutTime := new Timer();
      m_injectorDutySustainedTimer := new Timer();
      m_lowOilPressureTimer := new Timer();
      m_hardRevLimit, m_faultRevLimit := 0.0, 0x7FFF_FFFF;
      m_hadOilPressureAfterStart, m_ignitionOn := false, false;
      history := [];
      new;
      assert Separate();
      hide *;
      StartsValid();
    }

    static method ThreeAllowed() returns (a: Clearable, b: Clearable, c: Clearable)
      ensures fresh({a, b, c}) && a != b && b != c && c != a
      ensures a.State() == b.State() == c.State() == Apply(ALLOWED, Cut(Settings, false))
    {
      a := new Clearable(true);
      b := new Clearable(true);
      c := new Clearable(true);
    }

    lemma {:induction false} StartsValid()
      requires Separate() && history == []
      requires !m_revLimitHysteresis.m_state && !m_boostCutHysteresis.m_state && !m_injectorDutyCutHysteresis.m_state
      requires m_allowEtb.State() == m_allowInjection.State() == m_allowIgnition.State() == m_allowTriggerInput.State()
      requires m_transientAllowInjection.State() == m_transientAllowIgnition.State() == m_allowEtb.State()
      requires m_allowEtb.State() == Apply(ALLOWED, Cut(Settings, false))
      requires m_lastCutTime.m_lastReset == m_injectorDutySustainedTimer.m_lastReset == NEVER
      requires m_lowOilPressureTimer.m_lastReset == NEVER
      requires m_faultRevLimit == 0x7FFF_FFFF && !m_hadOilPressureAfterStart && !m_ignitionOn
      ensures Valid()
    {
      NothingYet();
      hide MemoryOf, FaultsOf, AnswersOf, Separate;
    }

    // ---------- one update ----------

    method IsHardRevLimit(inp: Inputs, ghost h: History) returns (limited: bool)
      requires IsUpdate(h) && Last(h) == inp
      requires m_revLimitHysteresis.m_state == OverRevLimit(Before(h))
      modifies this`m_hardRevLimit, m_revLimitHysteresis
      ensures limited == m_revLimitHysteresis.m_state == OverRevLimit(h)
      ensures m_hardRevLimit == if inp.useCltBasedRpmLimit then inp.cltRevLimit else inp.rpmHardLimit
    {
      RevStep(h);
      hide OverRevLimit;
      m_hardRevLimit := if inp.useCltBasedRpmLimit then inp.cltRevLimit else inp.rpmHardLimit;
      var resumeRpm := m_hardRevLimit - inp.rpmHardLimitHyst;
      limited := m_revLimitHysteresis.TestValue(inp.rpm, m_hardRevLimit, resumeRpm);
    }

    method UpdateCutsHardRevLimit(inp: Inputs, allowFuel: Clearable, allowSpark: Clearable, ghost h: History)
      requires IsUpdate(h) && Last(h) == inp && m_faultRevLimit == FaultLimit(h) && allowFuel != allowSpark
      requires m_revLimitHysteresis.m_state == OverRevLimit(Before(h))
      modifies this`m_hardRevLimit, m_revLimitHysteresis, allowFuel, allowSpark
      ensures m_revLimitHysteresis.m_state == OverRevLimit(h)
      ensures allowFuel.State() == Apply(Apply(old(allowFuel.State()),
                Cut(HardLimit, OverRevLimit(h) && inp.cutFuelOnHardLimit)),
                Cut(FaultRevLimit, inp.rpm > FaultLimit(h) as real))
      ensures allowSpark.State() == Apply(old(allowSpark.State()), Cut(HardLimit, OverRevLimit(h) && inp.cutSparkOnHardLimit))
    {
      hide OverRevLimit, FaultLimit, Apply;
      var limited := IsHardRevLimit(inp, h);
      allowFuel.ClearWhen(limited && inp.cutFuelOnHardLimit, HardLimit);
      allowSpark.ClearWhen(limited && inp.cutSparkOnHardLimit, HardLimit);
      allowFuel.ClearWhen(inp.rpm > m_faultRevLimit as real, FaultRevLimit);
    }

    method UpdateCutsBoostCut(inp: Inputs, allowFuel: Clearable, ghost h: History)
      requires IsUpdate(h) && Last(h) == inp
      requires m_boostCutHysteresis.m_state == BoostLatched(Before(h))
      modifies m_boostCutHysteresis, allowFuel
      ensures m_boostCutHysteresis.m_state == BoostLatched(h)
      ensures allowFuel.State() == Apply(old(allowFuel.State()), Cut(BoostCut, OverBoost(h)))
    {
      BoostStep(h);
      hide BoostLatched;
      var mapCut := inp.boostCutPressure;
      if mapCut != 0.0 {
        var cut := m_boostCutHysteresis.TestValue(inp.manifoldPressure, mapCut, mapCut - 20.0);
        if cut {
          allowFuel.Clear(BoostCut);
        }
      }
    }

    method UpdateCutsEngineSync(inp: Inputs, allowFuel: Clearable, allowSpark: Clearable, ghost h: History)
      requires IsUpdate(h) && Last(h) == inp && allowFuel != allowSpark
      modifies allowFuel, allowSpark
      ensures allowFuel.State() == Apply(old(allowFuel.State()), Cut(EnginePhase, PhaseMissing(inp)))
      ensures allowSpark.State() == Apply(old(allowSpark.State()), Cut(EnginePhase, PhaseMissing(inp)))
    {
      if NoFiringUntilVvtSync(inp) && !inp.hasSynchronizedPhase {
        allowFuel.Clear(EnginePhase);
        allowSpark.Clear(EnginePhase);
      }
    }

    /** Has pressure come within five seconds of the start? */
    method UpdateOilStart(inp: Inputs, allowFuel: Clearable, ghost h: History)
      requires IsUpdate(h) && Last(h) == inp && inp.isRunning
      requires m_hadOilPressureAfterStart == OilWasSeen(Before(h))
      modifies this`m_hadOilPressureAfterStart, allowFuel
      ensures m_hadOilPressureAfterStart == OilWasSeen(h)
      ensures allowFuel.State() == Apply(old(allowFuel.State()), Cut(OilPressure, OilNeverCame(h)))
    {
      OilStep(h);
      hide OilWasSeen, OilTimer, HasElapsed;
      if inp.minOilPressureAfterStart > 0 && inp.hasOilpSensor {
        var isTimedOut := inp.engineRunTime > 5.0;
        if !isTimedOut {
          if inp.oilp.Some? {
            if inp.oilp.value > inp.minOilPressureAfterStart as real {
              m_hadOilPressureAfterStart := true;
            }
          }
        }
        if isTimedOut && !m_hadOilPressureAfterStart {
          allowFuel.Clear(OilPressure);
        }
      }
    }

    /** Has pressure been low for the whole timeout? */
    method UpdateOilProtect(inp: Inputs, allowFuel: Clearable, ghost h: History)
      requires IsUpdate(h) && Last(h) == inp && inp.isRunning
      requires m_lowOilPressureTimer.m_lastReset == OilTimer(Before(h))
      modifies m_lowOilPressureTimer, allowFuel
      ensures m_lowOilPressureTimer.m_lastReset == OilTimer(h)
      ensures allowFuel.State() == Apply(old(allowFuel.State()), Cut(OilPressure, OilLow(h)))
    {
      OilStep(h);
      hide OilWasSeen, OilTimer, HasElapsed;
      if inp.enableOilPressureProtect {
        var isPressureSufficient;
        if inp.engineRunTime < inp.oilPressureProtectionStartDelay {
          isPressureSufficient := true;
        } else if inp.useOilPressureSwitch {
          isPressureSufficient := inp.oilSwitchState;
        } else {
          isPressureSufficient := if inp.oilp.Some? then inp.oilp.value > inp.minPressure else true;
        }
        if isPressureSufficient {
          m_lowOilPressureTimer.Reset(inp.nowNt);
        }
        var elapsed := m_lowOilPressureTimer.HasElapsedSec(inp.minimumOilPressureTimeout, inp.timeNowNt);
        if elapsed {
          allowFuel.Clear(OilPressure);
        }
      }
    }

    method UpdateCutsOilPressure(inp: Inputs, allowFuel: Clearable, ghost h: History)
      requires IsUpdate(h) && Last(h) == inp
      requires m_hadOilPressureAfterStart == OilWasSeen(Before(h))
      requires m_lowOilPressureTimer.m_lastReset == OilTimer(Before(h))
      modifies this`m_hadOilPressureAfterStart, m_lowOilPressureTimer, allowFuel
      ensures m_hadOilPressureAfterStart == OilWasSeen(h)
      ensures m_lowOilPressureTimer.m_lastReset == OilTimer(h)
      ensures allowFuel.State() == Apply(Apply(old(allowFuel.State()), Cut(OilPressure, OilNeverCame(h))), Cut(OilPressure, OilLow(h)))
    {
      hide OilWasSeen, OilTimer, HasElapsed;
      if inp.isRunning {
        UpdateOilStart(inp, allowFuel, h);
        UpdateOilProtect(inp, allowFuel, h);
      } else {
        OilStep(h);
        m_hadOilPressureAfterStart := false;
        m_lowOilPressureTimer.Reset(inp.nowNt);
      }
    }

    method UpdateCutsInjectorDuty(inp: Inputs, allowFuel: Clearable, ghost h: History)
      requires IsUpdate(h) && Last(h) == inp
      requires m_injectorDutyCutHysteresis.m_state == OverDuty(Before(h))
      requires m_injectorDutySustainedTimer.m_lastReset == DutyTimer(Before(h))
      modifies m_injectorDutyCutHysteresis, m_injectorDutySustainedTimer, allowFuel
      ensures m_injectorDutyCutHysteresis.m_state == OverDuty(h)
      ensures m_injectorDutySustainedTimer.m_lastReset == DutyTimer(h)
      ensures allowFuel.State() == Apply(old(allowFuel.State()), Cut(InjectorDutyCycle, OverDuty(h)))
    {
      DutyStep(h);
      hide OverDuty, DutyTimer, HasElapsed;
      var isOverInstantDutyCycle := inp.injDutyCycle > inp.maxInjectorDutyInstant;
      var isOverSustainedDutyCycle := inp.injDutyCycle > inp.maxInjectorDutySustained;
      var isUnderLowDuty := inp.injDutyCycle < 20.0;
      if !isOverSustainedDutyCycle {
        m_injectorDutySustainedTimer.Reset(inp.nowNt);
      }
      var sustainedLimitTimedOut :=
        m_injectorDutySustainedTimer.HasElapsedSec(inp.maxInjectorDutySustainedTimeout, inp.timeNowNt);
      var someLimitTripped := isOverInstantDutyCycle || sustainedLimitTimedOut;
      var cut := m_injectorDutyCutHysteresis.Test(someLimitTripped, isUnderLowDuty);
      if cut {
        allowFuel.Clear(InjectorDutyCycle);
      }
    }

    method UpdateCutsFloodClear(inp: Inputs, allowFuel: Clearable, ghost h: History)
      requires IsUpdate(h) && Last(h) == inp
      modifies allowFuel
      ensures allowFuel.State() == Apply(old(allowFuel.State()), Cut(FloodClear, FloodClearing(inp)))
    {
      if !inp.isRunning && inp.isCylinderCleanupEnabled && inp.driverThrottleIntent > 90.0 {
        allowFuel.Clear(FloodClear);
      }
    }

    /** The part that needs a shaft position input. */
    method UpdateCutsShaft(inp: Inputs, allowFuel: Clearable, allowSpark: Clearable, ghost h: History)
      requires IsUpdate(h) && Last(h) == inp && allowFuel != allowSpark
      requires m_hadOilPressureAfterStart == OilWasSeen(Before(h))
      requires m_lowOilPressureTimer.m_lastReset == OilTimer(Before(h))
      requires m_injectorDutyCutHysteresis.m_state == OverDuty(Before(h))
      requires m_injectorDutySustainedTimer.m_lastReset == DutyTimer(Before(h))
      requires m_lowOilPressureTimer != m_injectorDutySustainedTimer
      modifies this`m_hadOilPressureAfterStart, m_lowOilPressureTimer, m_injectorDutyCutHysteresis,
        m_injectorDutySustainedTimer, allowFuel, allowSpark
      ensures m_hadOilPressureAfterStart == OilWasSeen(h)
      ensures m_lowOilPressureTimer.m_lastReset == OilTimer(h)
      ensures m_injectorDutyCutHysteresis.m_state == OverDuty(h)
      ensures m_injectorDutySustainedTimer.m_lastReset == DutyTimer(h)
      ensures allowFuel.State() == Through(old(allowFuel.State()), ShaftFuelCuts(h))
      ensures allowSpark.State() == Apply(old(allowSpark.State()), Cut(EnginePhase, PhaseMissing(inp)))
    {
      hide OverRevLimit, BoostLatched, OverDuty, OilWasSeen, DutyTimer, OilTimer, OilNeverCame, OilLow,
        PhaseMissing, FloodClearing, Through, ShaftFuelCuts, Before, Apply;
      ghost var was := allowFuel.State();
      UpdateCutsEngineSync(inp, allowFuel, allowSpark, h);
      UpdateCutsOilPressure(inp, allowFuel, h);
      allowFuel.ClearWhen(inp.isEngineStop, StopRequested);
      UpdateCutsInjectorDuty(inp, allowFuel, h);
      UpdateCutsFloodClear(inp, allowFuel, h);
      ShaftVerdict(was, h);
    }

    /** The cuts every build has; `allowFuel` and `allowSpark` start from the settings. */
    method UpdateCutsBasic(inp: Inputs, allowFuel: Clearable, allowSpark: Clearable, ghost h: History)
      requires IsUpdate(h) && Last(h) == inp && allowFuel != allowSpark
      requires allowFuel.State() == Apply(ALLOWED, Cut(Settings, !inp.isInjectionEnabled))
      requires allowSpark.State() == Apply(ALLOWED, Cut(Settings, !inp.isIgnitionEnabled))
      requires m_faultRevLimit == FaultLimit(h) && m_ignitionOn == IgnitionOn(h)
      requires m_revLimitHysteresis.m_state == OverRevLimit(Before(h))
      requires m_boostCutHysteresis.m_state == BoostLatched(Before(h))
      requires m_revLimitHysteresis != m_boostCutHysteresis
      modifies this`m_hardRevLimit, m_revLimitHysteresis, m_boostCutHysteresis, allowFuel, allowSpark
      ensures m_revLimitHysteresis.m_state == OverRevLimit(h)
      ensures m_boostCutHysteresis.m_state == BoostLatched(h)
      ensures allowFuel.State() == Verdict(BasicFuelCuts(h))
      ensures allowSpark.State() == Apply(Apply(Apply(Apply(ALLOWED,
                Cut(Settings, !inp.isIgnitionEnabled)), Cut(IgnitionOff, IgnitionIsOff(h))), Cut(Lua, inp.luaIgnCut)),
                Cut(HardLimit, OverRevLimit(h) && inp.cutSparkOnHardLimit))
    {
      assert IgnitionIsOff(h) == (!m_ignitionOn && !inp.directSelfStimulation);
      hide OverRevLimit, BoostLatched, OverDuty, OilWasSeen, DutyTimer, OilTimer, OverBoost, FaultLimit,
        IgnitionOn, IgnitionIsOff, Through, BasicFuelCuts, Before, Apply;
      var ignitionOff := !m_ignitionOn && !inp.directSelfStimulation;
      allowFuel.ClearWhen(ignitionOff, IgnitionOff);
      allowSpark.ClearWhen(ignitionOff, IgnitionOff);
      allowSpark.ClearWhen(inp.luaIgnCut, Lua);
      allowFuel.ClearWhen(inp.acrActive, ACR);
      UpdateCutsHardRevLimit(inp, allowFuel, allowSpark, h);
      allowFuel.ClearWhen(inp.lambdaCut, LambdaProtection);
      UpdateCutsBoostCut(inp, allowFuel, h);
      BasicVerdict(h);
    }

    /** All the cuts, in the order they are looked at. */
    method MakeCuts(inp: Inputs, allowFuel: Clearable, allowSpark: Clearable, ghost h: History)
      requires IsUpdate(h) && Last(h) == inp && allowFuel != allowSpark
      requires m_faultRevLimit == FaultLimit(h) && m_ignitionOn == IgnitionOn(h)
      requires m_revLimitHysteresis.m_state == OverRevLimit(Before(h))
      requires m_boostCutHysteresis.m_state == BoostLatched(Before(h))
      requires m_hadOilPressureAfterStart == OilWasSeen(Before(h))
      requires m_lowOilPressureTimer.m_lastReset == OilTimer(Before(h))
      requires m_injectorDutyCutHysteresis.m_state == OverDuty(Before(h))
      requires m_injectorDutySustainedTimer.m_lastReset == DutyTimer(Before(h))
      requires m_revLimitHysteresis != m_boostCutHysteresis && m_boostCutHysteresis != m_injectorDutyCutHysteresis
      requires m_injectorDutyCutHysteresis != m_revLimitHysteresis
      requires m_lowOilPressureTimer != m_injectorDutySustainedTimer
      requires allowFuel.State() == Apply(ALLOWED, Cut(Settings, !inp.isInjectionEnabled))
      requires allowSpark.State() == Apply(ALLOWED, Cut(Settings, !inp.isIgnitionEnabled))
      modifies this`m_hardRevLimit, this`m_hadOilPressureAfterStart, m_revLimitHysteresis, m_boostCutHysteresis,
        m_injectorDutyCutHysteresis, m_injectorDutySustainedTimer, m_lowOilPressureTimer, allowFuel, allowSpark
      ensures m_revLimitHysteresis.m_state == OverRevLimit(h)
      ensures m_boostCutHysteresis.m_state == BoostLatched(h)
      ensures m_hadOilPressureAfterStart == OilWasSeen(h)
      ensures m_lowOilPressureTimer.m_lastReset == OilTimer(h)
      ensures m_injectorDutyCutHysteresis.m_state == OverDuty(h)
      ensures m_injectorDutySustainedTimer.m_lastReset == DutyTimer(h)
      ensures allowFuel.State() == TransientInjection(h) && allowSpark.State() == TransientIgnition(h)
    {
      hide *;
      UpdateCutsBasic(inp, allowFuel, allowSpark, h);
      UpdateCutsShaft(inp, allowFuel, allowSpark, h);
      allowFuel.ClearWhen(inp.launchFuelRetard, LaunchCut);
      allowSpark.ClearWhen(inp.launchSparkRetard, LaunchCut);
      VerdictsSplit(h);
    }

    method UpdateCuts(inp: Inputs, ghost h: History) returns (allowFuel: Clearable, allowSpark: Clearable)
      requires Separate() && IsUpdate(h) && Last(h) == inp
      requires Remembered() == MemoryOf(Before(h)) && Reported() == FaultsOf(h)
      modifies this`m_hardRevLimit, this`m_hadOilPressureAfterStart, m_revLimitHysteresis, m_boostCutHysteresis,
        m_injectorDutyCutHysteresis, m_injectorDutySustainedTimer, m_lowOilPressureTimer
      ensures fresh({allowFuel, allowSpark}) && allowFuel != allowSpark
      ensures Remembered() == MemoryOf(h)
      ensures allowFuel.State() == TransientInjection(h) && allowSpark.State() == TransientIgnition(h)
    {
      hide OverRevLimit, BoostLatched, OverDuty, OilWasSeen, DutyTimer, OilTimer, FaultLimit, IgnitionOn,
        ThrottleAllowed, LatchedFault, TransientInjection, TransientIgnition, Apply, Before;
      allowFuel := new Clearable(inp.isInjectionEnabled);
      allowSpark := new Clearable(inp.isIgnitionEnabled);
      MakeCuts(inp, allowFuel, allowSpark, h);
    }

    method SetAnswers(allowFuel: Clearable, allowSpark: Clearable)
      requires Separate() && {allowFuel, allowSpark} !! {m_transientAllowInjection, m_transientAllowIgnition}
      modifies m_transientAllowInjection, m_transientAllowIgnition
      ensures Answered() == Answers(old(allowFuel.State()), old(allowSpark.State()), m_lastCutTime.m_lastReset)
      ensures Reported() == old(Reported()) && Remembered() == old(Remembered())
    {
      m_transientAllowInjection.Assign(allowFuel);
      m_transientAllowIgnition.Assign(allowSpark);
    }

    method Publish(inp: Inputs, allowFuel: Clearable, allowSpark: Clearable, ghost h: History)
      requires IsUpdate(h) && Last(h) == inp && Separate()
      requires {allowFuel, allowSpark} !! {m_transientAllowInjection, m_transientAllowIgnition}
      requires allowFuel.State() == TransientInjection(h) && allowSpark.State() == TransientIgnition(h)
      requires Answered() == AnswersOf(Before(h))
      modifies m_transientAllowInjection, m_transientAllowIgnition, m_lastCutTime
      ensures Answered() == AnswersOf(h)
      ensures Remembered() == old(Remembered()) && Reported() == old(Reported())
    {
      CutTimerStep(h);
      hide CutTimer, TransientInjection, TransientIgnition, Before, Reported, Remembered, Separate;
      SetAnswers(allowFuel, allowSpark);
      if !m_transientAllowInjection.m_value || !m_transientAllowIgnition.m_value {
        NoteCutTime(inp);
      }
    }

    method NoteCutTime(inp: Inputs)
      requires Separate()
      modifies m_lastCutTime
      ensures m_lastCutTime.m_lastReset == inp.nowNt
      ensures Reported() == old(Reported()) && Remembered() == old(Remembered())
    {
      hide Reported;
      m_lastCutTime.Reset(inp.nowNt);
    }

    /** One periodic update: afterwards every latch, timer and answer is right for the longer history. */
    method UpdateState(inp: Inputs)
      requires Valid()
      modifies this, m_revLimitHysteresis, m_boostCutHysteresis, m_injectorDutyCutHysteresis,
        m_transientAllowInjection, m_transientAllowIgnition,
        m_lastCutTime, m_injectorDutySustainedTimer, m_lowOilPressureTimer
      ensures Valid() && history == old(history) + [Update(inp)]
    {
      ghost var h := history + [Update(inp)];
      UpdateKeepsFaults(history, inp);
      hide MemoryOf, FaultsOf, AnswersOf, TransientInjection, TransientIgnition, Before, IsUpdate, Last,
        Remembered, Reported, Answered;
      var allowFuel, allowSpark := UpdateCuts(inp, h);
      Publish(inp, allowFuel, allowSpark, h);
      history := h;
    }

    // ---------- reports and questions ----------

    method SwitchIgnition(ignitionOn: bool)
      requires Valid()
      modifies this`m_ignitionOn
      ensures Separate() && Reported() == FaultsOf(history + [IgnitionState(ignitionOn)])
      ensures Remembered() == old(Remembered()) && Answered() == old(Answered())
    {
      FaultSteps(history, ignitionOn);
      hide MemoryOf, AnswersOf, FaultsOf, Remembered, Answered, Separate;
      m_ignitionOn := ignitionOn;
    }

    method SetFaultRevLimit(limit: int)
      modifies this`m_faultRevLimit
      ensures m_faultRevLimit == Min(old(m_faultRevLimit), limit)
    {
      m_faultRevLimit := Min(m_faultRevLimit, limit);
    }

    method RaiseEtbProblem()
      requires Valid()
      modifies this`m_faultRevLimit, m_allowEtb
      ensures Separate() && Reported() == FaultsOf(history + [ReportEtbProblem])
      ensures Remembered() == old(Remembered()) && Answered() == old(Answered())
    {
      FaultSteps(history, false);
      hide MemoryOf, AnswersOf, FaultsOf, Remembered, Answered;
      m_allowEtb.Clear(EtbProblem);
      SetFaultRevLimit(1500);
    }

    method RaiseFatal()
      requires Valid()
      modifies this`m_faultRevLimit, m_allowEtb, m_allowIgnition, m_allowInjection, m_allowTriggerInput
      ensures Separate() && Reported() == FaultsOf(history + [FatalError])
      ensures Remembered() == old(Remembered()) && Answered() == old(Answered())
    {
      FaultSteps(history, false);
      hide MemoryOf, AnswersOf, FaultsOf, Remembered, Answered, Apply;
      m_allowEtb.Clear(Fatal);
      assert !m_allowEtb.m_value by { ClearedIsOff(old(m_allowEtb.State())); }
      m_allowIgnition.Clear(Fatal);
      m_allowInjection.Clear(Fatal);
      m_allowTriggerInput.Clear(Fatal);
      SetFaultRevLimit(0);
    }

    /** A report touches neither the latches nor the answers of the last update. */
    twostate lemma {:induction false} Recorded(e: Event)
      requires old(Valid()) && Separate() && !e.Update? && history == old(history) + [e]
      requires Reported() == FaultsOf(history)
      requires Remembered() == old(Remembered()) && Answered() == old(Answered())
      ensures Valid()
    {
      ReportKeepsAll(old(history), e);
      hide MemoryOf, AnswersOf, FaultsOf, Remembered, Answered, Reported, Separate;
    }

    method OnIgnitionStateChanged(ignitionOn: bool)
      requires Valid()
      modifies this
      ensures Valid() && history == old(history) + [IgnitionState(ignitionOn)]
    {
      hide *;
      SwitchIgnition(ignitionOn);
      history := history + [IgnitionState(ignitionOn)];
      Recorded(IgnitionState(ignitionOn));
    }

    method ReportEtbProblemNow()
      requires Valid()
      modifies this, m_allowEtb
      ensures Valid() && history == old(history) + [ReportEtbProblem]
    {
      hide *;
      RaiseEtbProblem();
      history := history + [ReportEtbProblem];
      Recorded(ReportEtbProblem);
    }

    method FatalErrorNow()
      requires Valid()
      modifies this, m_allowEtb, m_allowInjection, m_allowIgnition, m_allowTriggerInput
      ensures Valid() && history == old(history) + [FatalError]
    {
      hide *;
      RaiseFatal();
      history := history + [FatalError];
      Recorded(FatalError);
    }

    method AllowElectronicThrottle() returns (allowed: bool)
      requires Valid()
      ensures allowed <==> FatalError !in history && ReportEtbProblem !in history
    {
      return m_allowEtb.m_value;
    }

    method AllowTriggerInput() returns (allowed: bool)
      requires Valid()
      ensures allowed <==> FatalError !in history
    {
      return m_allowTriggerInput.m_value;
    }

    method AllowInjection() returns (s: LimpState)
      requires Valid()
      ensures s == Injection(history)
    {
      VerdictReason(history);
      if !m_allowInjection.m_value {
        return LimpState(false, m_allowInjection.m_clearReason);
      }
      if !m_transientAllowInjection.m_value {
        return LimpState(false, m_transientAllowInjection.m_clearReason);
      }
      return LimpState(true, NoReason);
    }

    method AllowIgnition() returns (s: LimpState)
      requires Valid()
      ensures s == Ignition(history)
    {
      VerdictReason(history);
      if !m_allowIgnition.m_value {
        return LimpState(false, m_allowIgnition.m_clearReason);
      }
      if !m_transientAllowIgnition.m_value {
        return LimpState(false, m_transientAllowIgnition.m_clearReason);
      }
      return LimpState(true, NoReason);
    }
  }
}
