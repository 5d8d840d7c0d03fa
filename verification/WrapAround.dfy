/** WrapAround62 of efitime.h: a 62-bit clock from a 32-bit counter that wraps. */
module WrapAround {

  const TWO_30 := 0x4000_0000
  const TWO_32 := 0x1_0000_0000
  const TWO_62 := 0x4000_0000_0000_0000

  /** A 32-bit value read as a signed one. */
  function Signed32(x: int): int {
    var w := x % TWO_32;
    if w < TWO_32 / 2 then w else w - TWO_32
  }

  /** The new upper part: 32-bit subtraction and an arithmetic shift, which rounds down. */
  function NextUpper(upper: nat, source: nat): (u: nat)
    ensures u < TWO_32
  {
    (upper + Signed32(source - upper * TWO_30 % TWO_32) / TWO_30) % TWO_32
  }

  function Combine(upper: nat, source: nat): nat {
    upper / 4 * TWO_32 + source
  }

  class WrapAround62 {
    var m_upper: nat

    constructor ()
      ensures m_upper == 0
    {
      m_upper := 0;
    }

    method Update(source: nat) returns (time: nat)
      requires source < TWO_32
      modifies this
      ensures m_upper == NextUpper(old(m_upper), source) && time == Combine(m_upper, source)
    {
      var upper := m_upper;
      var relative_unsigned := (source - upper * TWO_30 % TWO_32) % TWO_32;
      upper := (upper + Signed32(relative_unsigned) / TWO_30) % TWO_32;
      m_upper := upper;
      return upper / 4 * TWO_32 + source;
    }
  }

  // ---------- which times are reconstructed ----------

  /** The 2^30-tick block a time lies in. */
  function Block(time: nat): nat {
    time / TWO_30
  }

  function UpperOf(time: nat): nat {
    Block(time) % TWO_32
  }

  /** The block distance that looks like `d` in two bits, between two back and one ahead. */
  function Nearest(d: int): (e: int)
    ensures -2 <= e <= 1 && (d - e) % 4 == 0
  {
    (d + 2) % 4 - 2
  }

  lemma {:induction false} Mod32(x: int, y: int, k: int)
    requires 0 <= y < TWO_32 && x == y + TWO_32 * k
    ensures x % TWO_32 == y
  {
  }

  lemma {:induction false} Mod62(x: int, y: int, k: int)
    requires 0 <= y < TWO_62 && x == y + TWO_62 * k
    ensures x % TWO_62 == y
  {
  }

  /** The signed distance the code computes, for any two times. */
  lemma {:induction false} RelativeDistance(origin: nat, time: nat)
    ensures var e := Nearest(Block(time) - Block(origin));
            && Signed32(time % TWO_32 - UpperOf(origin) * TWO_30 % TWO_32) == e * TWO_30 + time % TWO_30
            && Signed32(time % TWO_32 - UpperOf(origin) * TWO_30 % TWO_32) / TWO_30 == e
  {
    var d := Block(time) - Block(origin);
    var e := Nearest(d);
    var x := time % TWO_32 - UpperOf(origin) * TWO_30 % TWO_32;
    var s := e * TWO_30 + time % TWO_30;
    assert time == TWO_32 * (time / TWO_32) + time % TWO_32;
    assert time == TWO_30 * Block(time) + time % TWO_30;
    assert Block(origin) == TWO_32 * (Block(origin) / TWO_32) + UpperOf(origin);
    var a := UpperOf(origin) * TWO_30;
    assert a == TWO_32 * (a / TWO_32) + a % TWO_32;
    assert d - e == 4 * ((d - e) / 4);
    var k := (d - e) / 4 - time / TWO_32 + a / TWO_32 + TWO_30 * (Block(origin) / TWO_32);
    assert x == s + TWO_32 * k;
    assert -(TWO_32 / 2) <= s < TWO_32 / 2;
    if s >= 0 {
      Mod32(x, s, k);
    } else {
      Mod32(x, s + TWO_32, k - 1);
    }
  }

  /** For any stored time and any new one, the new upper part is that of the nearest block
      with the right low bits. */
  lemma {:induction false} UpperExact(origin: nat, time: nat)
    ensures NextUpper(UpperOf(origin), time % TWO_32)
         == (Block(origin) + Nearest(Block(time) - Block(origin))) % TWO_32
  {
    RelativeDistance(origin, time);
    var e := Nearest(Block(time) - Block(origin));
    assert Block(origin) == TWO_32 * (Block(origin) / TWO_32) + UpperOf(origin);
    var y := (Block(origin) + e) % TWO_32;
    Mod32(UpperOf(origin) + e, y, (Block(origin) + e) / TWO_32 - Block(origin) / TWO_32);
  }

  lemma {:induction false} CombineExact(time: nat)
    ensures Combine(UpperOf(time), time % TWO_32) == time % TWO_62
  {
    var b := Block(time);
    assert time == TWO_30 * b + time % TWO_30;
    assert b == TWO_32 * (b / TWO_32) + UpperOf(time);
    var r := Combine(UpperOf(time), time % TWO_32);
    assert time / TWO_32 == b / 4;
    assert b / 4 == TWO_30 * (b / TWO_32) + UpperOf(time) / 4;
    Mod62(time, r, b / TWO_32);
  }

  /** Two blocks back to one block ahead of the stored time. */
  predicate InReach(origin: nat, time: nat) {
    -2 <= Block(time) - Block(origin) <= 1
  }

  /** Every time in reach is stored and returned exactly; in particular all times within 2^30
      ticks of the stored one, in either direction. */
  lemma {:induction false} InReachExact(origin: nat, time: nat)
    requires InReach(origin, time)
    ensures NextUpper(UpperOf(origin), time % TWO_32) == UpperOf(time)
    ensures Combine(NextUpper(UpperOf(origin), time % TWO_32), time % TWO_32) == time % TWO_62
  {
    UpperExact(origin, time);
    CombineExact(time);
  }

  lemma {:induction false} NearIsInReach(origin: nat, time: nat)
    requires origin - TWO_30 <= time <= origin + TWO_30
    ensures InReach(origin, time)
  {
  }

  /** And no other time is, as long as the clock itself does not wrap between the two. */
  lemma {:induction false} ExactIff(origin: nat, time: nat)
    requires origin - TWO_62 / 2 < time < origin + TWO_62 / 2
    ensures Combine(NextUpper(UpperOf(origin), time % TWO_32), time % TWO_32) == time % TWO_62
        <==> InReach(origin, time)
  {
    hide NextUpper, Combine, Nearest;
    var d := Block(time) - Block(origin);
    var e := Nearest(d);
    UpperExact(origin, time);
    CombineExact(time);
    CombineSame(NextUpper(UpperOf(origin), time % TWO_32), UpperOf(time), time % TWO_32);
    SameUpperIff(Block(origin) + e, Block(time));
    NearestIff(d);
    assert -(TWO_32 / 2) <= d <= TWO_32 / 2 by { BlocksApart(origin, time); }
    assert (e - d) % TWO_32 == 0 <==> e == d by { SmallMultiple(e - d); }
  }

  lemma {:induction false} CombineSame(u: nat, v: nat, source: nat)
    ensures Combine(u, source) == Combine(v, source) <==> u / 4 == v / 4
  {
  }

  lemma {:induction false} NearestIff(d: int)
    ensures Nearest(d) == d <==> -2 <= d <= 1
  {
  }

  lemma {:induction false} BlocksApart(origin: nat, time: nat)
    requires origin - TWO_62 / 2 < time < origin + TWO_62 / 2
    ensures -(TWO_32 / 2) <= Block(time) - Block(origin) <= TWO_32 / 2
  {
  }

  lemma {:induction false} SmallMultiple(x: int)
    requires -TWO_32 < x < TWO_32
    ensures x % TWO_32 == 0 <==> x == 0
  {
  }

  /** Block numbers with the same low two bits have the same upper part but for these bits only if they
      are a multiple of 2^32 apart. */
  lemma {:induction false} SameUpperIff(a: int, b: int)
    requires (a - b) % 4 == 0
    ensures a % TWO_32 / 4 == b % TWO_32 / 4 <==> (a - b) % TWO_32 == 0
  {
    SameLowBits(a, b);
    var u, v := a % TWO_32, b % TWO_32;
    assert u / 4 == v / 4 <==> u == v;
    assert a == TWO_32 * (a / TWO_32) + u && b == TWO_32 * (b / TWO_32) + v;
    assert a - b == u - v + TWO_32 * (a / TWO_32 - b / TWO_32);
    SmallMultiple(u - v);
    MultipleAdded(u - v, a / TWO_32 - b / TWO_32);
  }

  lemma {:induction false} MultipleAdded(x: int, k: int)
    ensures (x + TWO_32 * k) % TWO_32 == x % TWO_32
  {
    Mod32(x + TWO_32 * k, x % TWO_32, x / TWO_32 + k);
  }

  lemma {:induction false} SameLowBits(a: int, b: int)
    requires (a - b) % 4 == 0
    ensures a % TWO_32 % 4 == b % TWO_32 % 4
  {
    assert a == TWO_32 * (a / TWO_32) + a % TWO_32;
    assert b == TWO_32 * (b / TWO_32) + b % TWO_32;
  }

  // ---------- racing threads ----------

  datatype Thread =
    | Idle
    | Sampled(time: nat)                             // has read the counter
    | Loaded(time: nat, upper: nat, origin: nat)     // has read m_upper as well

  /** `origin` is the time whose sample produced the current m_upper. */
  datatype Clock = Clock(m_upper: nat, origin: nat, threads: map<nat, Thread>, returned: seq<(nat, nat)>)

  datatype Step = Sample(thread: nat, time: nat) | Load(thread: nat) | Store(thread: nat)

  function ThreadState(c: Clock, t: nat): Thread {
    if t in c.threads then c.threads[t] else Idle
  }

  /** The one hypothesis: a thread's sample is within 2^30 ticks of the one behind m_upper when it loads it. */
  predicate Enabled(c: Clock, step: Step) {
    match step
    case Sample(t, _) => ThreadState(c, t).Idle?
    case Load(t) => ThreadState(c, t).Sampled? && c.origin - TWO_30 <= ThreadState(c, t).time <= c.origin + TWO_30
    case Store(t) => ThreadState(c, t).Loaded?
  }

  function Apply(c: Clock, step: Step): Clock
    requires Enabled(c, step)
  {
    match step
    case Sample(t, time) => c.(threads := c.threads[t := Sampled(time)])
    case Load(t) => c.(threads := c.threads[t := Loaded(ThreadState(c, t).time, c.m_upper, c.origin)])
    case Store(t) =>
      var s := ThreadState(c, t);
      var source := s.time % TWO_32;
      var upper := NextUpper(s.upper, source);
      Clock(upper, s.time, c.threads[t := Idle], c.returned + [(s.time, Combine(upper, source))])
  }

  ghost predicate Inv(c: Clock) {
    && c.m_upper == UpperOf(c.origin)
    && (forall t <- c.threads :: c.threads[t].Loaded? ==>
          && c.threads[t].upper == UpperOf(c.threads[t].origin)
          && c.threads[t].origin - TWO_30 <= c.threads[t].time <= c.threads[t].origin + TWO_30)
    && (forall i :: 0 <= i < |c.returned| ==> c.returned[i].1 == c.returned[i].0 % TWO_62)
  }

  lemma {:induction false} StepInv(c: Clock, step: Step)
    requires Inv(c) && Enabled(c, step)
    ensures Inv(Apply(c, step))
  {
    hide NextUpper, Combine, UpperOf;
    if step.Store? {
      var s := ThreadState(c, step.thread);
      NearIsInReach(s.origin, s.time);
      InReachExact(s.origin, s.time);
    }
  }

  ghost predicate IsRun(states: seq<Clock>, steps: seq<Step>) {
    && |states| == |steps| + 1
    && states[0] == Clock(0, 0, map[], [])
    && forall i :: 0 <= i < |steps| ==> Enabled(states[i], steps[i]) && states[i + 1] == Apply(states[i], steps[i])
  }

  /** However the threads interleave, every update returns its own sample's true time. */
  lemma {:induction false} EveryUpdateExact(states: seq<Clock>, steps: seq<Step>, n: nat)
    requires IsRun(states, steps) && n < |states|
    ensures Inv(states[n])
    ensures forall i :: 0 <= i < |states[n].returned| ==> states[n].returned[i].1 == states[n].returned[i].0 % TWO_62
  {
    if n > 0 {
      EveryUpdateExact(states, steps, n - 1);
      StepInv(states[n - 1], steps[n - 1]);
    }
  }
}
