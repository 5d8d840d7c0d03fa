/** stepper.cpp: an idle valve driven open loop. The program counts the steps it has made and
    keeps the count in battery-backed memory; parking against the closed stop restores it. */
module Stepper {
  import opened Util

  const STEPPER_PARKING_TPS := 90.0

  /** round(): halves go away from zero. */
  function Round(x: real): (r: int)
    ensures if x >= 0.0 then r as real - 0.5 <= x < r as real + 0.5 else r as real - 0.5 < x <= r as real + 0.5
  {
    if x >= 0.0 then (x + 0.5).Floor else -((-x + 0.5).Floor)
  }

  function Distance(a: int, b: int): nat {
    if a <= b then b - a else a - b
  }

  /** The motor with the valve on it. `working` is how many more steps will be made before the main
      relay goes; a step that is made moves the valve unless it is at a stop. */
  class StepperHw {
    const travel: nat
    var valve: nat
    var working: nat

    constructor (t: nat, position: nat, steps: nat)
      requires position <= t
      ensures travel == t && valve == position && working == steps
    {
      travel, valve, working := t, position, steps;
    }

    method Step(positive: bool) returns (ok: bool)
      requires valve <= travel
      modifies this
      ensures valve <= travel && ok == (old(working) > 0)
      ensures working == if ok then old(working) - 1 else 0
      ensures valve == if !ok then old(valve)
                       else if positive then Min(old(valve) + 1, travel) else Max(old(valve) - 1, 0)
    {
      if working == 0 {
        return false;
      }
      working := working - 1;
      valve := if positive then Min(valve + 1, travel) else Max(valve - 1, 0);
      return true;
    }
  }

  /** What the program reads from the rest of the firmware. */
  datatype Inputs = Inputs(
    mainRelayOn: bool,
    batteryVoltage: real,
    minStepperVoltage: real,
    engineRunning: bool,
    throttle: real,
    forceParkingEveryRestart: bool)

  predicate Powered(inp: Inputs) {
    inp.mainRelayOn && inp.batteryVoltage >= inp.minStepperVoltage
  }

  datatype Outcome = Paused | Initialised | ParkingInterrupted | Slept | Stepped(ok: bool)

  class StepperMotor {
    const m_hw: StepperHw
    const m_totalSteps: int
    const parkingExtraSteps: int       // percent
    var m_currentPosition: int
    var m_targetPosition: real
    var initialPositionSet: bool
    var m_isBusy: bool
    var backup: int                    // backup memory: position + 1, or 0 for none

    /** The steps of the travel and as many percent more, to the nearest whole step. */
    function ParkingSteps(): (n: int)
      ensures -50 <= 100 * n - (100 + parkingExtraSteps) * m_totalSteps <= 50
    {
      Round((1.0 + parkingExtraSteps as real / 100.0) * m_totalSteps as real)
    }

    ghost function State(): Track
      reads this, m_hw
    {
      Track(m_hw.travel, m_hw.valve, backup, if initialPositionSet then Some(m_currentPosition) else None)
    }

    /** Between iterations, also after a power loss at the worst moment: once initialised the count is
        what the backup says. The mechanical travel is one parking can cross. */
    ghost predicate Sound()
      reads this, m_hw
    {
      m_hw.travel <= ParkingSteps() && Consistent(State())
    }

    /** And the backup knows the valve's position or says it does not. */
    ghost predicate Valid()
      reads this, m_hw
    {
      Sound() && Right(State())
    }

    constructor (hw: StepperHw, totalSteps: int, extra: int, saved: int)
      requires hw.valve <= hw.travel && 0 <= saved <= hw.travel + 1
      requires hw.travel <= Round((1.0 + extra as real / 100.0) * Max(3, totalSteps) as real)
      ensures Sound() && m_hw == hw && State() == Track(hw.travel, hw.valve, saved, None)
    {
      m_hw, m_totalSteps, parkingExtraSteps, backup := hw, Max(3, totalSteps), extra, saved;
      m_currentPosition, m_targetPosition, initialPositionSet, m_isBusy := 0, 0.0, false, false;
    }

    /** The power goes and comes back: memory is lost, the backup and the valve are not. */
    method Restart()
      requires Sound()
      modifies this
      ensures Sound() && State() == After(old(State()), PowerLoss)
      ensures old(Valid()) ==> Valid()
    {
      m_currentPosition, m_targetPosition, initialPositionSet, m_isBusy := 0, 0.0, false, false;
    }

    method SetTargetPosition(targetPositionSteps: real)
      modifies this`m_targetPosition
      ensures m_targetPosition == if -1.0 < old(m_targetPosition) - targetPositionSteps < 1.0 then old(m_targetPosition)
                                  else targetPositionSteps
    {
      var d := m_targetPosition - targetPositionSteps;
      if d >= 1.0 || d <= -1.0 {
        m_targetPosition := targetPositionSteps;
      }
    }

    method SaveStepperPos(pos: int)
      modifies this`backup
      ensures backup == pos + 1
    {
      backup := pos + 1;
    }

    method LoadStepperPos() returns (pos: int)
      ensures pos == backup - 1
    {
      return backup - 1;
    }

    method ChangeCurrentPosition(positive: bool)
      modifies this`m_currentPosition
      ensures m_currentPosition == old(m_currentPosition) + if positive then 1 else -1
    {
      m_currentPosition := m_currentPosition + if positive then 1 else -1;
    }

    /** Closing the valve all the way. While it is under way the backup says the position is
        unknown, so an interruption at any step leads to another parking. */
    method Park() returns (finished: bool)
      requires Sound() && !initialPositionSet
      modifies this, m_hw
      ensures Sound() && !initialPositionSet && m_targetPosition == old(m_targetPosition)
      ensures finished <==> ParkingSteps() <= old(m_hw.working)
      ensures finished ==> m_hw.valve == m_currentPosition == 0 && backup == 1
      ensures !finished ==> State() == After(old(State()), ParkLost(old(m_hw.working)))
    {
      SaveStepperPos(-1);
      var numParkingSteps := ParkingSteps();
      for i := 0 to numParkingSteps
        invariant Sound() && backup == 0 && !initialPositionSet && m_targetPosition == old(m_targetPosition)
        invariant m_hw.valve == Max(old(m_hw.valve) - i, 0) && m_hw.working == old(m_hw.working) - i
      {
        var ok := m_hw.Step(false);
        if !ok {
          return false;
        }
        ChangeCurrentPosition(false);
      }
      m_currentPosition := 0;
      SaveStepperPos(m_currentPosition);
      return true;
    }

    /** A start: without a usable position, or when forced, the valve is parked; otherwise the saved
        position is believed, right or wrong. */
    method SetInitialPosition(inp: Inputs) returns (done: bool)
      requires Sound() && !initialPositionSet
      modifies this, m_hw
      ensures Sound() && initialPositionSet == done
      ensures old(Valid()) ==> Valid()
      ensures var parking := old(backup) == 0 || inp.forceParkingEveryRestart || (!inp.engineRunning && inp.throttle > 90.0);
              && (done <==> parking ==> ParkingSteps() <= old(m_hw.working))
              && State() == After(old(State()), if !parking then Resume
                                                else if done then Parked
                                                else ParkLost(old(m_hw.working)))
              && (!parking ==> -1.0 < m_targetPosition - m_currentPosition as real < 1.0)
    {
      m_currentPosition := LoadStepperPos();
      var forceStepperParking := !inp.engineRunning && inp.throttle > STEPPER_PARKING_TPS;
      if inp.forceParkingEveryRestart {
        forceStepperParking := true;
      }
      if m_currentPosition < 0 || forceStepperParking {
        done := Park();
        if !done {
          return;
        }
      } else {
        SetTargetPosition(m_currentPosition as real);
      }
      initialPositionSet := true;
      done := true;
    }

    /** One round of the stepper thread. */
    method DoIteration(inp: Inputs) returns (outcome: Outcome)
      requires Sound() && 0 <= Round(m_targetPosition) <= m_hw.travel
      modifies this, m_hw
      ensures Sound() && (old(Valid()) ==> Valid())
      ensures outcome == Paused <==> !inp.mainRelayOn || inp.batteryVoltage < inp.minStepperVoltage
      ensures outcome == Paused ==> State() == old(State())
      ensures Powered(inp) && !old(initialPositionSet) ==>
                var parking := old(backup) == 0 || inp.forceParkingEveryRestart || (!inp.engineRunning && inp.throttle > 90.0);
                && outcome == (if parking && old(m_hw.working) < ParkingSteps() then ParkingInterrupted else Initialised)
                && State() == After(old(State()), if !parking then Resume
                                                  else if outcome == Initialised then Parked
                                                  else ParkLost(old(m_hw.working)))
      ensures Powered(inp) && old(initialPositionSet) ==>
                var count, target := old(m_currentPosition), Round(m_targetPosition);
                && m_targetPosition == old(m_targetPosition)
                && outcome == (if target == count then Slept else Stepped(old(m_hw.working) > 0))
                && m_isBusy == outcome.Stepped?
                && State() == (if outcome == Stepped(true) then After(old(State()), Move(target > count)) else old(State()))
                && m_hw.working == Max(old(m_hw.working) - (if outcome.Stepped? then 1 else 0), 0)
    {
      hide Round;
      var targetPosition := Round(m_targetPosition);
      var currentPosition := m_currentPosition;
      if !inp.mainRelayOn || inp.batteryVoltage < inp.minStepperVoltage {
        return Paused;
      }
      if !initialPositionSet {
        var done := SetInitialPosition(inp);
        return if done then Initialised else ParkingInterrupted;
      }
      if targetPosition == currentPosition {
        m_isBusy := false;
        return Slept;
      }
      m_isBusy := true;
      var isIncrementing := targetPosition > currentPosition;
      var ok := StepAndSave(isIncrementing);
      return Stepped(ok);
    }

    /** One step, if the power is there, and the count saved in any case. */
    method StepAndSave(isIncrementing: bool) returns (ok: bool)
      requires Sound() && initialPositionSet && 0 <= m_currentPosition + (if isIncrementing then 1 else -1) <= m_hw.travel
      modifies this`m_currentPosition, this`backup, m_hw
      ensures Sound() && (old(Valid()) ==> Valid())
      ensures ok == (old(m_hw.working) > 0) && m_hw.working == Max(old(m_hw.working) - 1, 0)
      ensures State() == if ok then After(old(State()), Move(isIncrementing)) else old(State())
    {
      ok := m_hw.Step(isIncrementing);
      if ok {
        ChangeCurrentPosition(isIncrementing);
      }
      SaveStepperPos(m_currentPosition);
    }

    /** The same round when the power goes after the pulse and before the position is saved. */
    method DoIterationCutShort()
      requires Sound() && initialPositionSet && 0 <= Round(m_targetPosition) <= m_hw.travel
      requires Round(m_targetPosition) != m_currentPosition && 0 < m_hw.working
      modifies this, m_hw
      ensures Sound()
      ensures State() == After(old(State()), LostPulse(Round(old(m_targetPosition)) > old(m_currentPosition)))
    {
      m_isBusy := true;
      var ok := m_hw.Step(Round(m_targetPosition) > m_currentPosition);
      Restart();
    }

    /** A round with enough power sleeps at the target, and anywhere else comes one step closer to it. */
    method SettleRound(inp: Inputs) returns (outcome: Outcome)
      requires Valid() && initialPositionSet && Powered(inp) && 0 <= Round(m_targetPosition) <= m_hw.travel
      requires Distance(Round(m_targetPosition), m_hw.valve) <= m_hw.working
      modifies this, m_hw
      ensures Valid() && initialPositionSet && m_targetPosition == old(m_targetPosition)
      ensures Distance(Round(m_targetPosition), m_hw.valve) <= m_hw.working
      ensures outcome == Slept <==> old(m_hw.valve) == Round(m_targetPosition)
      ensures Distance(Round(m_targetPosition), m_hw.valve)
           == Distance(Round(m_targetPosition), old(m_hw.valve)) - if outcome == Slept then 0 else 1
    {
      hide Round;
      outcome := DoIteration(inp);
    }

    /** With an unchanged target and enough power the valve reaches it in exactly as many
        iterations as it is steps away, and the next one sleeps. */
    method Settle(inp: Inputs) returns (iterations: nat, last: Outcome)
      requires Valid() && initialPositionSet && Powered(inp) && 0 <= Round(m_targetPosition) <= m_hw.travel
      requires Distance(Round(m_targetPosition), m_hw.valve) <= m_hw.working
      modifies this, m_hw
      ensures Valid() && m_hw.valve == m_currentPosition == Round(m_targetPosition)
      ensures iterations == Distance(Round(m_targetPosition), old(m_hw.valve)) && last == Slept
      ensures m_targetPosition == old(m_targetPosition)
    {
      hide Round;
      iterations := 0;
      last := SettleRound(inp);
      while last != Slept
        invariant Valid() && initialPositionSet && m_targetPosition == old(m_targetPosition)
        invariant last == Slept ==> m_hw.valve == Round(m_targetPosition)
                                    && iterations == Distance(Round(m_targetPosition), old(m_hw.valve))
        invariant last != Slept ==> iterations + 1 + Distance(Round(m_targetPosition), m_hw.valve)
                                    == Distance(Round(m_targetPosition), old(m_hw.valve))
        invariant Distance(Round(m_targetPosition), m_hw.valve) <= m_hw.working
        decreases last != Slept, Distance(Round(m_targetPosition), m_hw.valve)
      {
        iterations := iterations + 1;
        last := SettleRound(inp);
      }
    }
  }

  // ---------- what happens to the position, power losses included ----------

  /** The valve, the backup memory, and the count once there is one. */
  datatype Track = Track(travel: nat, valve: int, backup: int, count: Option<int>)

  datatype Action =
    | Parked                  // a parking that ended
    | ParkLost(steps: nat)    // a parking cut short after so many steps
    | Resume                  // a start that believes the backup
    | Move(up: bool)          // a step, made and saved
    | LostPulse(up: bool)     // a step made, and the power gone before it was saved
    | PowerLoss               // at any other moment

  predicate Consistent(t: Track) {
    && 0 <= t.valve <= t.travel && 0 <= t.backup <= t.travel + 1
    && (t.count.Some? ==> 0 <= t.count.value && t.backup == t.count.value + 1)
  }

  function Pushed(t: Track, up: bool): int {
    if up then Min(t.valve + 1, t.travel) else Max(t.valve - 1, 0)
  }

  /** The valve is at the stop it is pushed against. */
  predicate Blocked(t: Track, up: bool) {
    t.valve == if up then t.travel else 0
  }

  /** Targets are within the travel, so a step never takes the count out of it. */
  predicate Enabled(t: Track, a: Action) {
    match a
    case Parked => t.count == None
    case ParkLost(_) => t.count == None
    case Resume => t.count == None && 0 < t.backup
    case Move(up) => t.count.Some? && 0 <= t.count.value + (if up then 1 else -1) <= t.travel
    case LostPulse(up) => t.count.Some? && 0 <= t.count.value + (if up then 1 else -1) <= t.travel
    case PowerLoss => true
  }

  function After(t: Track, a: Action): Track {
    match a
    case Parked => t.(valve := 0, backup := 1, count := Some(0))
    case ParkLost(steps) => t.(valve := Max(t.valve - steps, 0), backup := 0, count := None)
    case Resume => t.(count := Some(t.backup - 1))
    case Move(up) =>
      var count := (if t.count.Some? then t.count.value else 0) + if up then 1 else -1;
      t.(valve := Pushed(t, up), backup := count + 1, count := Some(count))
    case LostPulse(up) => t.(valve := Pushed(t, up), count := None)
    case PowerLoss => t.(count := None)
  }

  /** What is remembered is where the valve is, or nothing is remembered. */
  predicate Right(t: Track) {
    t.backup == 0 || t.backup == t.valve + 1
  }

  /** How far what is remembered is from where the valve is. */
  function Offset(t: Track): int {
    t.backup - 1 - t.valve
  }

  lemma {:induction false} StepConsistent(t: Track, a: Action)
    requires Consistent(t) && Enabled(t, a)
    ensures Consistent(After(t, a))
  {
  }

  /** Starting from the truth, only a lost pulse that moved the valve loses it. */
  lemma {:induction false} RightIff(t: Track, a: Action)
    requires Consistent(t) && Enabled(t, a) && Right(t)
    ensures Right(After(t, a)) <==> !a.LostPulse? || Blocked(t, a.up)
  {
  }

  /** A start after a lost pulse is right exactly when parking is forced or the pulse did not move the
      valve; otherwise the count is one step behind it. */
  lemma {:induction false} StartAfterLostPulse(t: Track, up: bool, forced: bool)
    requires Consistent(t) && Enabled(t, LostPulse(up)) && Right(t)
    ensures var lost := After(t, LostPulse(up));
            var start := if forced then Parked else Resume;
            && Enabled(lost, start)
            && var started := After(lost, start);
               && started.count.Some?
               && (started.count.value == started.valve <==> forced || Blocked(t, up))
               && (!forced && !Blocked(t, up) ==> started.count.value == started.valve - if up then 1 else -1)
  {
  }

  /** Five steps open, one more pulse, no save: the program goes on with five while the valve is at six. */
  lemma {:induction false} OneStepOff()
    ensures var t := Track(10, 5, 6, Some(5));
            && Consistent(t) && Right(t) && Enabled(t, LostPulse(true))
            && After(After(t, LostPulse(true)), Resume) == Track(10, 6, 6, Some(5))
  {
  }

  function AfterAll(t: Track, actions: seq<Action>): Track
    decreases |actions|
  {
    if actions == [] then t else AfterAll(After(t, actions[0]), actions[1..])
  }

  predicate IsRun(t: Track, actions: seq<Action>)
    decreases |actions|
  {
    actions == [] || (Enabled(t, actions[0]) && IsRun(After(t, actions[0]), actions[1..]))
  }

  function Sign(up: bool): int {
    if up then 1 else -1
  }

  /** How far one action takes what is remembered from the valve: a step that is counted but does not
      move the valve, or one that moves it and is not counted. */
  function Slip(t: Track, a: Action): int {
    match a
    case Move(up) => if Blocked(t, up) then Sign(up) else 0
    case LostPulse(up) => if Blocked(t, up) then 0 else -Sign(up)
    case _ => 0
  }

  function Slips(t: Track, actions: seq<Action>): int
    decreases |actions|
  {
    if actions == [] then 0 else Slip(t, actions[0]) + Slips(After(t, actions[0]), actions[1..])
  }

  predicate IsParking(a: Action) {
    a.Parked? || a.ParkLost?
  }

  /** As long as no parking begins, what is remembered is off by what it was off plus every slip since:
      for any power losses, lost pulses and steps against a stop. */
  lemma {:induction false} OffsetLaw(t: Track, actions: seq<Action>)
    requires Consistent(t) && 0 < t.backup && IsRun(t, actions) && forall a <- actions :: !IsParking(a)
    ensures Consistent(AfterAll(t, actions)) && 0 < AfterAll(t, actions).backup
    ensures Offset(AfterAll(t, actions)) == Offset(t) + Slips(t, actions)
    decreases |actions|
  {
    if actions != [] {
      assert !IsParking(actions[0]);
      StepConsistent(t, actions[0]);
      OffsetLaw(After(t, actions[0]), actions[1..]);
    }
  }

  /** Until a parking begins, the remembered position is right if and only if the slips make up for what
      it was off; a parking that ends makes it right. */
  lemma {:induction false} RightAfterIff(t: Track, actions: seq<Action>)
    requires Consistent(t) && 0 < t.backup && IsRun(t, actions) && forall a <- actions :: !IsParking(a)
    ensures Right(AfterAll(t, actions)) <==> Slips(t, actions) == -Offset(t)
    ensures Enabled(AfterAll(t, actions), Parked) ==> Right(After(AfterAll(t, actions), Parked))
  {
    OffsetLaw(t, actions);
  }

  /** The steps counted although the valve was against the stop. */
  function BlockedMoves(t: Track, actions: seq<Action>): nat
    decreases |actions|
  {
    if actions == [] then 0 else
      (if actions[0].Move? && Blocked(t, actions[0].up) then 1 else 0) + BlockedMoves(After(t, actions[0]), actions[1..])
  }

  function Abs(x: int): nat {
    if x < 0 then -x else x
  }

  lemma {:induction false} StepSlips(t: Track, a: Action)
    requires Consistent(t) && 0 < t.backup && Enabled(t, a) && !IsParking(a)
    ensures 0 < After(t, a).backup && Offset(After(t, a)) == Offset(t) + Slip(t, a)
    ensures !a.LostPulse? ==>
              Abs(Offset(After(t, a))) == Abs(Offset(t)) - if a.Move? && Blocked(t, a.up) then 1 else 0
  {
  }

  /** A step against a stop always takes the count closer: it is counted towards a target that the valve
      has already reached or passed. */
  lemma {:induction false} BlockedMovesHeal(t: Track, actions: seq<Action>)
    requires Consistent(t) && 0 < t.backup && IsRun(t, actions)
    requires forall a <- actions :: !IsParking(a) && !a.LostPulse?
    ensures Abs(Offset(t) + Slips(t, actions)) == Abs(Offset(t)) - BlockedMoves(t, actions)
    decreases |actions|
  {
    if actions != [] {
      var a := actions[0];
      assert !IsParking(a) && !a.LostPulse?;
      StepConsistent(t, a);
      StepSlips(t, a);
      hide After, Enabled, Offset, Consistent, Abs, Slip, Blocked;
      BlockedMovesHeal(After(t, a), actions[1..]);
    }
  }

  /** While no pulse is lost, a wrong count stays wrong until a parking, or until exactly as many steps
      were counted against a stop as it was off. */
  lemma {:induction false} WrongUntil(t: Track, actions: seq<Action>)
    requires Consistent(t) && 0 < t.backup && IsRun(t, actions)
    requires forall a <- actions :: !IsParking(a) && !a.LostPulse?
    ensures Right(AfterAll(t, actions)) <==> BlockedMoves(t, actions) == Abs(Offset(t))
  {
    OffsetLaw(t, actions);
    BlockedMovesHeal(t, actions);
  }

  /** A second lost pulse can undo the first. */
  lemma {:induction false} TwoLostPulses()
    ensures var t := Track(10, 6, 6, Some(5));
            && Consistent(t) && !Right(t) && Enabled(t, LostPulse(false)) && Slip(t, LostPulse(false)) == 1
            && Right(After(t, LostPulse(false)))
  {
  }

  // ---------- whole runs, parkings included ----------

  lemma {:induction false} RunSnoc(t: Track, actions: seq<Action>)
    requires actions != [] && IsRun(t, actions)
    ensures var init, last := actions[..|actions| - 1], actions[|actions| - 1];
            && IsRun(t, init) && Enabled(AfterAll(t, init), last)
            && AfterAll(t, actions) == After(AfterAll(t, init), last)
    decreases |actions|
  {
    if |actions| > 1 {
      var rest := actions[1..];
      RunSnoc(After(t, actions[0]), rest);
      assert rest[..|rest| - 1] == actions[..|actions| - 1][1..];
      assert actions[..|actions| - 1][0] == actions[0];
    }
  }

  /** The slips since the last parking; before the first one, on top of what was off at the start. */
  function Drift(t: Track, actions: seq<Action>): int
    decreases |actions|
  {
    if actions == [] then (if t.backup == 0 then 0 else Offset(t))
    else
      var init, last := actions[..|actions| - 1], actions[|actions| - 1];
      if IsParking(last) then 0 else Drift(t, init) + Slip(AfterAll(t, init), last)
  }

  /** In every run, with any number of power losses and parkings, what is remembered is right if and only
      if the slips since the last parking add up to nothing. */
  lemma {:induction false} RightRunIff(t: Track, actions: seq<Action>)
    requires Consistent(t) && IsRun(t, actions)
    ensures var s := AfterAll(t, actions);
            && Consistent(s) && (s.backup == 0 ==> Drift(t, actions) == 0)
            && (s.backup > 0 ==> Offset(s) == Drift(t, actions))
            && (Right(s) <==> Drift(t, actions) == 0)
    decreases |actions|
  {
    if actions != [] {
      var init, last := actions[..|actions| - 1], actions[|actions| - 1];
      RunSnoc(t, actions);
      RightRunIff(t, init);
      StepConsistent(AfterAll(t, init), last);
      hide AfterAll, IsRun;
      assert Drift(t, actions) == if IsParking(last) then 0 else Drift(t, init) + Slip(AfterAll(t, init), last);
    }
  }

  /** Some pulse was lost that moved the valve, and no parking was begun since. */
  predicate Misled(t: Track, actions: seq<Action>)
    decreases |actions|
  {
    if actions == [] then false
    else
      var init, last := actions[..|actions| - 1], actions[|actions| - 1];
      if IsParking(last) then false
      else (last.LostPulse? && !Blocked(AfterAll(t, init), last.up)) || Misled(t, init)
  }

  /** In particular, without such a pulse it is right. */
  lemma {:induction false} RightUnlessMisled(t: Track, actions: seq<Action>)
    requires Consistent(t) && Right(t) && IsRun(t, actions)
    ensures !Misled(t, actions) ==> Right(AfterAll(t, actions))
    decreases |actions|
  {
    if actions != [] {
      var init, last := actions[..|actions| - 1], actions[|actions| - 1];
      RunSnoc(t, actions);
      RightUnlessMisled(t, init);
      RightRunIff(t, init);
      if Right(AfterAll(t, init)) {
        RightIff(AfterAll(t, init), last);
      }
    }
  }
}
