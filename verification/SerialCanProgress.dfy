/** The calls of the two peers as runs of the step system, and that every call can be completed:
    from every reachable state the bytes added can all be brought to the reader. */
module SerialCanProgress {
  import opened Util
  import opened IsoTp
  import opened SerialCan
  import opened SerialCanStream
  import opened SerialCanSystem

  /** The steps lead from one state to the other. */
  ghost predicate Reaches(s: System, steps: seq<Step>, t: System)
    decreases |steps|
  {
    if steps == [] then s == t
    else Sound(s.receiver) && |s.tx| <= s.size && Enabled(s, steps[0]) && Reaches(Apply(s, steps[0]), steps[1..], t)
  }

  lemma {:induction false} OneStep(s: System, step: Step)
    requires Sound(s.receiver) && |s.tx| <= s.size && Enabled(s, step)
    ensures Reaches(s, [step], Apply(s, step))
  {
    assert [step][1..] == [];
  }

  lemma {:induction false} ReachesConcat(s: System, a: seq<Step>, t: System, b: seq<Step>, u: System)
    requires Reaches(s, a, t) && Reaches(t, b, u)
    ensures Reaches(s, a + b, u)
    decreases |a|
  {
    if a == [] {
      assert a + b == b;
    } else {
      assert (a + b)[0] == a[0] && (a + b)[1..] == a[1..] + b;
      ReachesConcat(Apply(s, a[0]), a[1..], t, b, u);
    }
  }

  lemma {:induction false} ReachesInv(s: System, steps: seq<Step>, t: System)
    requires Inv(s) && Reaches(s, steps, t)
    ensures Inv(t)
    decreases |steps|
  {
    if steps != [] {
      StepInv(s, steps[0]);
      ReachesInv(Apply(s, steps[0]), steps[1..], t);
    }
  }

  lemma {:induction false} RunSnoc(states: seq<System>, steps: seq<Step>, step: Step)
    requires IsRun(states, steps)
    requires var s := states[|steps|]; Sound(s.receiver) && |s.tx| <= s.size && Enabled(s, step)
    ensures IsRun(states + [Apply(states[|steps|], step)], steps + [step])
  {
    hide Apply, Enabled, Init, Sound;
    var states', steps' := states + [Apply(states[|steps|], step)], steps + [step];
    forall i | 0 <= i < |steps'|
      ensures Sound(states'[i].receiver) && |states'[i].tx| <= states'[i].size
              && Enabled(states'[i], steps'[i]) && states'[i + 1] == Apply(states'[i], steps'[i])
    {
      assert states'[i] == states[i];
      if i < |steps| {
        assert steps'[i] == steps[i] && states'[i + 1] == states[i + 1];
      }
    }
  }

  /** A run up to some state, and steps from there, are a run. */
  lemma {:induction false} RunGoesOn(states: seq<System>, steps: seq<Step>, more: seq<Step>, t: System)
    returns (states': seq<System>)
    requires IsRun(states, steps) && Reaches(states[|steps|], more, t)
    ensures IsRun(states', steps + more) && states'[|steps + more|] == t
    decreases |more|
  {
    if more == [] {
      states' := states;
      assert steps + more == steps;
    } else {
      var next := Apply(states[|steps|], more[0]);
      RunSnoc(states, steps, more[0]);
      hide IsRun, Apply, Enabled;
      states' := RunGoesOn(states + [next], steps + [more[0]], more[1..], t);
      assert steps + [more[0]] + more[1..] == steps + more;
    }
  }

  // ---------- a read is a run ----------

  /** What a reader's call does to the system. */
  ghost function AfterReading(s: System, l: Link, bytes: seq<byte>): System {
    s.(receiver := l, returned := s.returned + bytes)
  }

  lemma {:induction false} PullIsRun(s: System, space: nat) returns (steps: seq<Step>)
    requires Sound(s.receiver) && |s.tx| <= s.size && (s.receiver.rxFifo == [] || space == 0)
    ensures var (bytes, l) := Pull(s.receiver, space); Reaches(s, steps, AfterReading(s, l, bytes))
    decreases |s.receiver.inbox|
  {
    hide Next, Reaches;
    if space == 0 || s.receiver.inbox == [] {
      steps := [];
      NoStep(s);
      assert s.returned + [] == s.returned;
    } else {
      NextConserves(s.receiver, space);
      OneStep(s, ReadFrame(space));
      var (bytes, l) := Next(s.receiver, space);
      var s1 := AfterReading(s, l, bytes);
      if |bytes| < 1 {
        steps := [ReadFrame(space)];
      } else {
        var rest := PullIsRun(s1, space - |bytes|);
        var (more, l2) := Pull(l, space - |bytes|);
        steps := [ReadFrame(space)] + rest;
        assert s.returned + bytes + more == s.returned + (bytes + more);
        ReachesConcat(s, [ReadFrame(space)], s1, rest, AfterReading(s1, l2, more));
      }
    }
  }

  lemma {:induction false} NoStep(s: System)
    ensures Reaches(s, [], s)
  {
  }

  /** streamReceiveTimeout, of which the function Read is the contract, is a run of single-frame steps. */
  lemma {:induction false} ReadIsRun(s: System, num: nat) returns (steps: seq<Step>)
    requires Sound(s.receiver) && |s.tx| <= s.size
    ensures var (bytes, l) := Read(s.receiver, num); Reaches(s, steps, AfterReading(s, l, bytes))
  {
    hide Pull, Reaches;
    var n := Min(num, |s.receiver.rxFifo|);
    OneStep(s, ReadLeftover(n));
    var s1 := Apply(s, ReadLeftover(n));
    var rest := PullIsRun(s1, num - n);
    var (more, l) := Pull(s1.receiver, num - n);
    steps := [ReadLeftover(n)] + rest;
    assert s.returned + s.receiver.rxFifo[..n] + more == s.returned + (s.receiver.rxFifo[..n] + more);
    ReachesConcat(s, [ReadLeftover(n)], s1, rest, AfterReading(s1, l, more));
  }

  // ---------- a message, an add and a flush are runs ----------

  /** The two states differ only in what the reader did. */
  predicate SameSender(s: System, t: System) {
    && t.size == s.size && t.tx == s.tx && t.offered == s.offered && t.unsent == s.unsent
    && t.awaiting == s.awaiting && t.taken == s.taken && t.added == s.added
  }

  /** A reader that keeps reading empties its queues, whatever the sender is doing. */
  lemma {:induction false} DrainRun(s: System) returns (steps: seq<Step>, t: System)
    requires Inv(s)
    ensures Reaches(s, steps, t) && Inv(t) && SameSender(s, t)
    ensures t.receiver.inbox == [] && t.receiver.rxFifo == []
    decreases |s.receiver.inbox|, |s.receiver.rxFifo|
  {
    hide Next, Reaches, Conserved, Handshake, Productive;
    if s.receiver.rxFifo != [] {
      steps, t := DrainAfter(s, ReadLeftover(|s.receiver.rxFifo|));
    } else if s.receiver.inbox != [] {
      steps, t := DrainAfter(s, ReadFrame(7));
    } else {
      NoStep(s);
      steps, t := [], s;
    }
  }

  lemma {:induction false} DrainAfter(s: System, step: Step) returns (steps: seq<Step>, t: System)
    requires Inv(s) && Enabled(s, step)
    requires (step.ReadLeftover? && s.receiver.rxFifo != [] && step.n == |s.receiver.rxFifo|) || step.ReadFrame?
    ensures Reaches(s, steps, t) && Inv(t) && SameSender(s, t)
    ensures t.receiver.inbox == [] && t.receiver.rxFifo == []
    decreases |s.receiver.inbox|, |s.receiver.rxFifo|, 0
  {
    StepInv(s, step);
    OneStep(s, step);
    hide Next, Reaches, Conserved, Handshake, Productive;
    var rest;
    rest, t := DrainRun(Apply(s, step));
    steps := [step] + rest;
    ReachesConcat(s, [step], Apply(s, step), rest, t);
  }

  /** What a message leaves as it was. */
  predicate SameCall(s: System, t: System) {
    t.size == s.size && t.tx == s.tx && t.offered == s.offered && t.added == s.added
  }

  /** One frame, once the reader has made room for it. */
  lemma {:induction false} FrameRun(s: System) returns (steps: seq<Step>, t: System)
    requires Inv(s) && !s.awaiting && s.unsent != []
    ensures Reaches(s, steps, t) && Inv(t) && SameCall(s, t)
    ensures t.unsent == s.unsent[1..] && t.awaiting == IsFirst(s.unsent[0])
  {
    hide Reaches, Conserved, Productive;
    var a, s1 := DrainRun(s);
    assert s1.unsent[0] == Wire(s1)[|s1.receiver.inbox|];
    StepInv(s1, Transmit);
    OneStep(s1, Transmit);
    t := Apply(s1, Transmit);
    steps := a + [Transmit];
    ReachesConcat(s, a, s1, [Transmit], t);
  }

  lemma {:induction false} TransmitRun(s: System) returns (steps: seq<Step>, t: System)
    requires Inv(s) && !s.awaiting && Firsts(s.unsent) == 0
    ensures Reaches(s, steps, t) && Inv(t) && SameCall(s, t) && Idle(t)
    decreases |s.unsent|
  {
    hide Reaches, Inv;
    if s.unsent == [] {
      NoStep(s);
      steps, t := [], s;
    } else {
      var a, s1 := FrameRun(s);
      var rest;
      rest, t := TransmitRun(s1);
      steps := a + rest;
      ReachesConcat(s, a, s1, rest, t);
    }
  }

  /** A message that has its permission on the way: the reader reads, answers, and the rest follows. */
  lemma {:induction false} AwaitRun(s: System) returns (steps: seq<Step>, t: System)
    requires Inv(s) && s.awaiting
    ensures Reaches(s, steps, t) && Inv(t) && SameCall(s, t) && Idle(t)
  {
    hide Reaches, Conserved, Productive;
    var a, s1 := DrainRun(s);
    assert Enabled(s1, TakeFlowControl);
    TakeFlowControlInv(s1);
    OneStep(s1, TakeFlowControl);
    var s2 := Apply(s1, TakeFlowControl);
    var b;
    b, t := TransmitRun(s2);
    ReachesConcat(s1, [TakeFlowControl], s2, b, t);
    ReachesConcat(s, a, s1, [TakeFlowControl] + b, t);
    steps := a + ([TakeFlowControl] + b);
  }

  /** sendDataTimeout, with a peer that reads: whatever stage it is at, it can be completed. */
  lemma {:induction false} MessageRun(s: System) returns (steps: seq<Step>, t: System)
    requires Inv(s)
    ensures Reaches(s, steps, t) && Inv(t) && SameCall(s, t) && Idle(t)
  {
    hide Reaches, Conserved, Productive;
    if s.awaiting {
      steps, t := AwaitRun(s);
    } else if s.unsent == [] {
      NoStep(s);
      steps, t := [], s;
    } else {
      var a, s1 := FrameRun(s);
      assert Handshake(s);
      var rest;
      if s1.awaiting {
        rest, t := AwaitRun(s1);
      } else {
        rest, t := TransmitRun(s1);
      }
      steps := a + rest;
      ReachesConcat(s, a, s1, rest, t);
    }
  }

  /** streamAddToTxTimeout, with a peer that reads: it ends with the pending bytes that Blocks, and so
      Add, leaves. */
  lemma {:induction false} AddRun(s: System) returns (steps: seq<Step>, t: System)
    requires Inv(s) && Idle(s) && s.offered.Some?
    ensures Reaches(s, steps, t) && Inv(t) && Idle(t) && t.offered == None && t.added == s.added && t.size == s.size
    ensures |s.tx| < s.size && t.tx == Blocks(s.tx, s.offered.value, s.size).1
    decreases |s.offered.value|, |s.tx|
  {
    hide Reaches, Conserved, Productive, Handshake;
    if |s.offered.value| < s.size - |s.tx| {
      StepInv(s, Park);
      OneStep(s, Park);
      steps, t := [Park], Apply(s, Park);
    } else {
      StepInv(s, Fill);
      OneStep(s, Fill);
      var s1 := Apply(s, Fill);
      var a, s2 := MessageRun(s1);
      var b;
      b, t := AddRun(s2);
      ReachesConcat(s1, a, s2, b, t);
      ReachesConcat(s, [Fill], s1, a + b, t);
      steps := [Fill] + (a + b);
    }
  }

  /** One whole add: the state it leaves, and that it can always be brought to its end. */
  lemma {:induction false} AddCompletes(s: System, data: seq<byte>) returns (steps: seq<Step>, t: System)
    requires Inv(s) && Idle(s) && s.offered == None
    ensures Reaches(s, steps, t) && Inv(t) && Idle(t) && t.offered == None
    ensures t.added == s.added + data && |s.tx| < s.size && t.tx == Blocks(s.tx, data, s.size).1
  {
    StepInv(s, Offer(data));
    OneStep(s, Offer(data));
    hide Reaches, Conserved, Productive, Handshake;
    var s1 := Apply(s, Offer(data));
    var rest;
    rest, t := AddRun(s1);
    ReachesConcat(s, [Offer(data)], s1, rest, t);
    steps := [Offer(data)] + rest;
  }

  lemma {:induction false} FlushCompletes(s: System) returns (steps: seq<Step>, t: System)
    requires Inv(s) && Idle(s) && s.offered == None
    ensures Reaches(s, steps, t) && Inv(t) && Idle(t) && t.offered == None && t.tx == [] && t.added == s.added
  {
    StepInv(s, Flush);
    OneStep(s, Flush);
    hide Reaches, Conserved, Productive, Handshake;
    var s1 := Apply(s, Flush);
    var rest;
    rest, t := MessageRun(s1);
    ReachesConcat(s, [Flush], s1, rest, t);
    steps := [Flush] + rest;
  }

  /** Wherever the two peers are, the calls in progress can be completed, what is pending flushed, and
      everything read: the reader then has exactly the bytes that were added. */
  lemma {:induction false} EveryByteCanArrive(states: seq<System>, steps: seq<Step>) returns (more: seq<Step>, t: System)
    requires IsRun(states, steps)
    ensures Reaches(states[|steps|], more, t) && Drained(t)
    ensures t.returned == t.added == states[|steps|].added
  {
    RunInv(states, steps, |steps|);
    hide Reaches, Conserved, Productive, Handshake;
    var s := states[|steps|];
    var a, s1 := MessageRun(s);
    var b, s2 := [], s1;
    NoStep(s1);
    if s1.offered.Some? {
      b, s2 := AddRun(s1);
    }
    var c, s3 := FlushCompletes(s2);
    var d;
    d, t := DrainRun(s3);
    ReachesConcat(s2, c, s3, d, t);
    ReachesConcat(s1, b, s2, c + d, t);
    ReachesConcat(s, a, s1, b + (c + d), t);
    more := a + (b + (c + d));
    DrainedHasAll(t);
  }

  lemma {:induction false} DrainedHasAll(t: System)
    requires Inv(t) && Drained(t)
    ensures t.returned == t.added
  {
    assert Wire(t) == [];
  }
}
