/** tinymt32.h and tinymt32.c: the state transition of the Tiny Mersenne Twister (RFC 8682,
    section 2.1) and its initialisation. */
module TinyMt {

  const MASK: bv32 := 0x7fff_ffff
  const MIN_LOOP := 8
  const PRE_LOOP := 8

  // The word operations have names so that proofs can treat them as algebra.

  function Xor(a: bv32, b: bv32): bv32 {
    a ^ b
  }

  function And(a: bv32, b: bv32): bv32 {
    a & b
  }

  function Shl(a: bv32, k: bv6): bv32
    requires k <= 32
  {
    a << k
  }

  function Shr(a: bv32, k: bv6): bv32
    requires k <= 32
  {
    a >> k
  }

  function Plus(a: bv32, b: bv32): bv32 {
    a + b
  }

  function Minus(a: bv32, b: bv32): bv32 {
    a - b
  }

  /** The four status words. The top bit of the first one carries no information. */
  datatype Status = Status(s0: bv32, s1: bv32, s2: bv32, s3: bv32)

  predicate SameState(a: Status, b: Status) {
    And(a.s0, MASK) == And(b.s0, MASK) && a.s1 == b.s1 && a.s2 == b.s2 && a.s3 == b.s3
  }

  predicate IsZero(a: Status) {
    And(a.s0, MASK) == 0 && a.s1 == 0 && a.s2 == 0 && a.s3 == 0
  }

  /** `mat` if the low bit of y is set, else nothing. */
  function Feedback(y: bv32, mat: bv32): bv32 {
    (0 - (y & 1)) & mat
  }

  /** A word plus itself shifted, over the two-element field. */
  function Left(x: bv32, k: bv6): bv32
    requires k <= 32
  {
    Xor(x, Shl(x, k))
  }

  function Right(x: bv32, k: bv6): bv32
    requires k <= 32
  {
    Xor(x, Shr(x, k))
  }

  function Next(s: Status, mat1: bv32, mat2: bv32): Status {
    var x := Left(Xor(Xor(And(s.s0, MASK), s.s1), s.s2), 1);
    var y := Xor(Right(s.s3, 1), x);
    Status(s.s1, Xor(s.s2, Feedback(y, mat1)), Xor(Xor(x, Shl(y, 10)), Feedback(y, mat2)), y)
  }

  // ---------- words ----------

  predicate Squaring(k: bv6) {
    k == 1 || k == 2 || k == 4 || k == 8 || k == 16
  }

  lemma {:induction false} Shl1Xor(u: bv32, v: bv32)
    ensures Shl(Xor(u, v), 1) == Xor(Shl(u, 1), Shl(v, 1))
  {
  }

  lemma {:induction false} Shr1Xor(u: bv32, v: bv32)
    ensures Shr(Xor(u, v), 1) == Xor(Shr(u, 1), Shr(v, 1))
  {
  }

  lemma {:induction false} Shift1Twice(x: bv32)
    ensures Shl(Shl(x, 1), 1) == Shl(x, 2) && Shr(Shr(x, 1), 1) == Shr(x, 2)
  {
  }

  lemma {:induction false} Shl2Xor(u: bv32, v: bv32)
    ensures Shl(Xor(u, v), 2) == Xor(Shl(u, 2), Shl(v, 2))
  {
  }

  lemma {:induction false} Shr2Xor(u: bv32, v: bv32)
    ensures Shr(Xor(u, v), 2) == Xor(Shr(u, 2), Shr(v, 2))
  {
  }

  lemma {:induction false} Shift2Twice(x: bv32)
    ensures Shl(Shl(x, 2), 2) == Shl(x, 4) && Shr(Shr(x, 2), 2) == Shr(x, 4)
  {
  }

  lemma {:induction false} Shl4Xor(u: bv32, v: bv32)
    ensures Shl(Xor(u, v), 4) == Xor(Shl(u, 4), Shl(v, 4))
  {
  }

  lemma {:induction false} Shr4Xor(u: bv32, v: bv32)
    ensures Shr(Xor(u, v), 4) == Xor(Shr(u, 4), Shr(v, 4))
  {
  }

  lemma {:induction false} Shift4Twice(x: bv32)
    ensures Shl(Shl(x, 4), 4) == Shl(x, 8) && Shr(Shr(x, 4), 4) == Shr(x, 8)
  {
  }

  lemma {:induction false} Shl8Xor(u: bv32, v: bv32)
    ensures Shl(Xor(u, v), 8) == Xor(Shl(u, 8), Shl(v, 8))
  {
  }

  lemma {:induction false} Shr8Xor(u: bv32, v: bv32)
    ensures Shr(Xor(u, v), 8) == Xor(Shr(u, 8), Shr(v, 8))
  {
  }

  lemma {:induction false} Shift8Twice(x: bv32)
    ensures Shl(Shl(x, 8), 8) == Shl(x, 16) && Shr(Shr(x, 8), 8) == Shr(x, 16)
  {
  }

  lemma {:induction false} Shl16Xor(u: bv32, v: bv32)
    ensures Shl(Xor(u, v), 16) == Xor(Shl(u, 16), Shl(v, 16))
  {
  }

  lemma {:induction false} Shr16Xor(u: bv32, v: bv32)
    ensures Shr(Xor(u, v), 16) == Xor(Shr(u, 16), Shr(v, 16))
  {
  }

  lemma {:induction false} Shift16Twice(x: bv32)
    ensures Shl(Shl(x, 16), 16) == Shl(x, 32) && Shr(Shr(x, 16), 16) == Shr(x, 32)
  {
  }

  lemma {:induction false} ShlXor(u: bv32, v: bv32, k: bv6)
    requires Squaring(k)
    ensures Shl(Xor(u, v), k) == Xor(Shl(u, k), Shl(v, k))
  {
    hide Shl, Shr, Xor;
    if k == 1 {
      Shl1Xor(u, v);
    } else if k == 2 {
      Shl2Xor(u, v);
    } else if k == 4 {
      Shl4Xor(u, v);
    } else if k == 8 {
      Shl8Xor(u, v);
    } else if k == 16 {
      Shl16Xor(u, v);
    }
  }

  lemma {:induction false} ShrXor(u: bv32, v: bv32, k: bv6)
    requires Squaring(k)
    ensures Shr(Xor(u, v), k) == Xor(Shr(u, k), Shr(v, k))
  {
    hide Shl, Shr, Xor;
    if k == 1 {
      Shr1Xor(u, v);
    } else if k == 2 {
      Shr2Xor(u, v);
    } else if k == 4 {
      Shr4Xor(u, v);
    } else if k == 8 {
      Shr8Xor(u, v);
    } else if k == 16 {
      Shr16Xor(u, v);
    }
  }

  lemma {:induction false} ShiftTwice(x: bv32, k: bv6)
    requires Squaring(k)
    ensures Shl(Shl(x, k), k) == Shl(x, k + k) && Shr(Shr(x, k), k) == Shr(x, k + k)
  {
    hide Shl, Shr;
    if k == 1 {
      Shift1Twice(x);
    } else if k == 2 {
      Shift2Twice(x);
    } else if k == 4 {
      Shift4Twice(x);
    } else if k == 8 {
      Shift8Twice(x);
    } else if k == 16 {
      Shift16Twice(x);
    }
  }

  lemma {:induction false} ShiftedOut(x: bv32)
    ensures Shl(x, 32) == 0 && Shr(x, 32) == 0 && Xor(x, 0) == x
  {
  }

  lemma {:induction false} XorMiddle(p: bv32, q: bv32, r: bv32)
    ensures Xor(Xor(p, q), Xor(q, r)) == Xor(p, r)
  {
  }

  lemma {:induction false} XorTwice(p: bv32, q: bv32)
    ensures Xor(Xor(p, q), q) == p
  {
  }

  /** Squaring a shift doubles it. */
  lemma {:induction false} LeftTwice(x: bv32, k: bv6)
    requires Squaring(k)
    ensures Left(Left(x, k), k) == Left(x, k + k)
  {
    hide Xor, Shl;
    ShlXor(x, Shl(x, k), k);
    ShiftTwice(x, k);
    XorMiddle(x, Shl(x, k), Shl(x, k + k));
  }

  lemma {:induction false} RightTwice(x: bv32, k: bv6)
    requires Squaring(k)
    ensures Right(Right(x, k), k) == Right(x, k + k)
  {
    hide Xor, Shr;
    ShrXor(x, Shr(x, k), k);
    ShiftTwice(x, k);
    XorMiddle(x, Shr(x, k), Shr(x, k + k));
  }

  lemma {:induction false} LeftOut(x: bv32)
    ensures Left(x, 32) == x && Right(x, 32) == x
  {
    hide Xor, Shl, Shr;
    ShiftedOut(x);
  }

  /** So five squarings undo a shift by one. */
  function Unleft(x: bv32): bv32 {
    Left(Left(Left(Left(Left(x, 1), 2), 4), 8), 16)
  }

  function Unright(x: bv32): bv32 {
    Right(Right(Right(Right(Right(x, 1), 2), 4), 8), 16)
  }

  lemma {:induction false} UnleftLeft(x: bv32)
    ensures Unleft(Left(x, 1)) == x
  {
    hide Left;
    LeftTwice(x, 1);
    LeftTwice(x, 2);
    LeftTwice(x, 4);
    LeftTwice(x, 8);
    LeftTwice(x, 16);
    LeftOut(x);
  }

  lemma {:induction false} UnrightRight(x: bv32)
    ensures Unright(Right(x, 1)) == x
  {
    hide Right;
    RightTwice(x, 1);
    RightTwice(x, 2);
    RightTwice(x, 4);
    RightTwice(x, 8);
    RightTwice(x, 16);
    LeftOut(x);
  }

  function Half(k: bv6): (h: bv6)
    requires Squaring(k) && k != 1
    ensures Squaring(h) && h < k && h + h == k
  {
    if k == 2 then 1 else if k == 4 then 2 else if k == 8 then 4 else 8
  }

  lemma {:induction false} LeftCommutes(x: bv32, k: bv6)
    requires Squaring(k)
    ensures Left(Left(x, k), 1) == Left(Left(x, 1), k)
    decreases k
  {
    if k != 1 {
      hide Left;
      var h := Half(k);
      LeftCommutes(x, h);
      LeftCommutes(Left(x, h), h);
      LeftTwice(x, h);
      LeftTwice(Left(x, 1), h);
    }
  }

  lemma {:induction false} RightCommutes(x: bv32, k: bv6)
    requires Squaring(k)
    ensures Right(Right(x, k), 1) == Right(Right(x, 1), k)
    decreases k
  {
    if k != 1 {
      hide Right;
      var h := Half(k);
      RightCommutes(x, h);
      RightCommutes(Right(x, h), h);
      RightTwice(x, h);
      RightTwice(Right(x, 1), h);
    }
  }

  lemma {:induction false} LeftUnleft(x: bv32)
    ensures Left(Unleft(x), 1) == x
  {
    hide Left;
    var a := Left(x, 1);
    LeftCommutes(Left(Left(Left(a, 2), 4), 8), 16);
    LeftCommutes(Left(Left(a, 2), 4), 8);
    LeftCommutes(Left(a, 2), 4);
    LeftCommutes(a, 2);
    UnleftLeft(x);
  }

  lemma {:induction false} RightUnright(x: bv32)
    ensures Right(Unright(x), 1) == x
  {
    hide Right;
    var a := Right(x, 1);
    RightCommutes(Right(Right(Right(a, 2), 4), 8), 16);
    RightCommutes(Right(Right(a, 2), 4), 8);
    RightCommutes(Right(a, 2), 4);
    RightCommutes(a, 2);
    UnrightRight(x);
  }

  // ---------- the transition permutes the 127-bit states ----------

  /** The low 31 bits of one word under the top bit of another. */
  function TopFrom(low: bv32, top: bv32): bv32 {
    (low & MASK) | (top & !MASK)
  }

  lemma {:induction false} TopFromMasked(a: bv32, b: bv32, top: bv32)
    requires And(a, MASK) == And(b, MASK)
    ensures TopFrom(a, top) == TopFrom(b, top)
  {
  }

  /** The state before. The lost top bit of the second word comes back because the masked word
      contributes nothing to the top bit of the sum. */
  function Previous(t: Status, mat1: bv32, mat2: bv32): Status {
    var y := t.s3;
    var x := Xor(Xor(t.s2, Feedback(y, mat2)), Shl(y, 10));
    var s2 := Xor(t.s1, Feedback(y, mat1));
    var sum := Unleft(x);
    var s1 := TopFrom(t.s0, Xor(sum, s2));
    Status(And(Xor(Xor(sum, s2), s1), MASK), s1, s2, Unright(Xor(y, x)))
  }

  lemma {:induction false} MaskedSum(s0: bv32, s1: bv32)
    ensures TopFrom(s1, Xor(And(s0, MASK), s1)) == s1
    ensures And(Xor(Xor(And(s0, MASK), s1), s1), MASK) == And(And(s0, MASK), MASK) == And(s0, MASK)
  {
  }

  lemma {:induction false} PreviousOfNext(s: Status, mat1: bv32, mat2: bv32)
    ensures SameState(Previous(Next(s, mat1, mat2), mat1, mat2), s)
  {
    hide Xor, And, Shl, Left, Right, Unleft, Unright, Feedback, TopFrom;
    var m := Xor(And(s.s0, MASK), s.s1);
    var sum := Xor(m, s.s2);
    var x := Left(sum, 1);
    var y := Xor(Right(s.s3, 1), x);
    UnleftLeft(sum);
    UnrightRight(s.s3);
    XorTwice(Xor(x, Shl(y, 10)), Feedback(y, mat2));
    XorTwice(x, Shl(y, 10));
    XorTwice(s.s2, Feedback(y, mat1));
    XorTwice(Right(s.s3, 1), x);
    XorTwice(m, s.s2);
    MaskedSum(s.s0, s.s1);
  }

  lemma {:induction false} TopRestores(z: bv32, low: bv32)
    ensures var s1 := TopFrom(low, z);
            && Xor(And(And(Xor(z, s1), MASK), MASK), s1) == z
            && And(s1, MASK) == And(low, MASK)
  {
  }

  /** Every state has a predecessor. */
  lemma {:induction false} NextOfPrevious(t: Status, mat1: bv32, mat2: bv32)
    ensures SameState(Next(Previous(t, mat1, mat2), mat1, mat2), t)
  {
    hide Xor, And, Shl, Left, Right, Unleft, Unright, Feedback, TopFrom;
    var y := t.s3;
    var x := Xor(Xor(t.s2, Feedback(y, mat2)), Shl(y, 10));
    var s2 := Xor(t.s1, Feedback(y, mat1));
    var sum := Unleft(x);
    TopRestores(Xor(sum, s2), t.s0);
    XorTwice(sum, s2);
    LeftUnleft(x);
    RightUnright(Xor(y, x));
    XorTwice(y, x);
    XorTwice(t.s1, Feedback(y, mat1));
    XorTwice(Xor(t.s2, Feedback(y, mat2)), Shl(y, 10));
    XorTwice(t.s2, Feedback(y, mat2));
  }

  lemma {:induction false} PreviousSame(t: Status, u: Status, mat1: bv32, mat2: bv32)
    requires SameState(t, u)
    ensures Previous(t, mat1, mat2) == Previous(u, mat1, mat2)
  {
    var y := t.s3;
    var x := Xor(Xor(t.s2, Feedback(y, mat2)), Shl(y, 10));
    TopFromMasked(t.s0, u.s0, Xor(Unleft(x), Xor(t.s1, Feedback(y, mat1))));
    hide Xor, And, Shl, Unleft, Unright, Feedback, TopFrom;
  }

  /** Different 127-bit states never have the same successor, whatever the parameters. */
  lemma {:induction false} NextInjective(s: Status, t: Status, mat1: bv32, mat2: bv32)
    ensures SameState(Next(s, mat1, mat2), Next(t, mat1, mat2)) <==> SameState(s, t)
  {
    PreviousOfNext(s, mat1, mat2);
    PreviousOfNext(t, mat1, mat2);
    if SameState(Next(s, mat1, mat2), Next(t, mat1, mat2)) {
      PreviousSame(Next(s, mat1, mat2), Next(t, mat1, mat2), mat1, mat2);
    }
    hide Xor, Shl, Left, Right, Feedback, Previous;
  }

  lemma {:induction false} ZeroStays(mat1: bv32, mat2: bv32)
    ensures IsZero(Next(Status(0, 0, 0, 0), mat1, mat2))
  {
  }

  /** The generator never falls into the zero state. */
  lemma {:induction false} NonZeroStays(s: Status, mat1: bv32, mat2: bv32)
    requires !IsZero(s)
    ensures !IsZero(Next(s, mat1, mat2))
  {
    var zero := Status(0, 0, 0, 0);
    ZeroStays(mat1, mat2);
    NextInjective(s, zero, mat1, mat2);
    ZeroMasked();
    hide Next, And;
  }

  lemma {:induction false} ZeroMasked()
    ensures And(0, MASK) == 0
  {
  }

  function Steps(s: Status, mat1: bv32, mat2: bv32, n: nat): Status {
    if n == 0 then s else Next(Steps(s, mat1, mat2, n - 1), mat1, mat2)
  }

  /** Any number of steps keeps different states different and non-zero states non-zero. */
  lemma {:induction false} StepsInjective(s: Status, t: Status, mat1: bv32, mat2: bv32, n: nat)
    ensures SameState(Steps(s, mat1, mat2, n), Steps(t, mat1, mat2, n)) <==> SameState(s, t)
    ensures !IsZero(s) ==> !IsZero(Steps(s, mat1, mat2, n))
  {
    hide Next, SameState, IsZero;
    if n > 0 {
      StepsInjective(s, t, mat1, mat2, n - 1);
      NextInjective(Steps(s, mat1, mat2, n - 1), Steps(t, mat1, mat2, n - 1), mat1, mat2);
      if !IsZero(s) {
        NonZeroStays(Steps(s, mat1, mat2, n - 1), mat1, mat2);
      }
    }
  }

  // ---------- initialisation ----------

  const TINY := Status('T' as bv32, 'I' as bv32, 'N' as bv32, 'Y' as bv32)

  function Certified(s: Status): (r: Status)
    ensures !IsZero(r) && (!IsZero(s) ==> r == s)
  {
    if IsZero(s) then TINY else s
  }

  lemma {:induction false} TinyIs()
    ensures TINY == Status(0x54, 0x49, 0x4e, 0x59)
  {
  }

  function FromWords(w: seq<bv32>): Status
    requires |w| == 4
  {
    Status(w[0], w[1], w[2], w[3])
  }

  /** Rounds 1 to n of the seeding loop. */
  function SeedRounds(w: seq<bv32>, n: nat): (r: seq<bv32>)
    requires |w| == 4
    ensures |r| == 4
  {
    if n == 0 then w else
      var v := SeedRounds(w, n - 1);
      var before := v[(n - 1) % 4];
      v[n % 4 := Xor(v[n % 4], SeedTerm(n, before))]
  }

  function SeedFactor(x: bv32): bv32 {
    1812433253 * x
  }

  function Factor1(x: bv32): bv32 {
    x * 1664525
  }

  function Factor2(x: bv32): bv32 {
    x * 1566083941
  }

  function SeedTerm(n: nat, before: bv32): bv32 {
    Plus(Small(n), SeedFactor(Xor(before, Shr(before, 30))))
  }

  /** A counter as an unsigned word: n ones, added up modulo 2^32. */
  function Small(n: nat): bv32 {
    if n == 0 then 0 else Small(n - 1) + 1
  }

  function IniFunc1(x: bv32): bv32 {
    Factor1(Xor(x, Shr(x, 27)))
  }

  function IniFunc2(x: bv32): bv32 {
    Factor2(Xor(x, Shr(x, 27)))
  }

  function Round1(w: seq<bv32>, i: nat, add: bv32): (v: seq<bv32>)
    requires |w| == 4 && i < 4
    ensures |v| == 4
  {
    var r := IniFunc1(Xor(Xor(w[i], w[(i + 1) % 4]), w[(i + 3) % 4]));
    var w1 := w[(i + 1) % 4 := Plus(w[(i + 1) % 4], r)];
    w1[(i + 2) % 4 := Plus(w1[(i + 2) % 4], Plus(r, add))][i := Plus(r, add)]
  }

  function Round2(w: seq<bv32>, i: nat): (v: seq<bv32>)
    requires |w| == 4 && i < 4
    ensures |v| == 4
  {
    var r := IniFunc2(Plus(Plus(w[i], w[(i + 1) % 4]), w[(i + 3) % 4]));
    var w1 := w[(i + 1) % 4 := Xor(w[(i + 1) % 4], r)];
    var r1 := Minus(r, Small(i));
    w1[(i + 2) % 4 := Xor(w1[(i + 2) % 4], r1)][i := r1]
  }

  /** The first n key rounds: every key word once, then padding. */
  function KeyRounds(w: seq<bv32>, key: seq<bv32>, n: nat): (v: seq<bv32>)
    requires |w| == 4
    ensures |v| == 4
  {
    if n == 0 then Round1(w, 0, Small(|key|)) else
      var i := n % 4;
      Round1(KeyRounds(w, key, n - 1), i, if n <= |key| then Plus(key[n - 1], Small(i)) else Small(i))
  }

  lemma {:induction false} NextWord(j: nat)
    ensures ((j + 1) % 4 + 1) % 4 == (j + 1 + 1) % 4 && (j + 1) % 4 < 4
  {
  }

  lemma {:induction false} KeyRoundsStep(w: seq<bv32>, key: seq<bv32>, n: nat)
    requires |w| == 4
    ensures KeyRounds(w, key, 0) == Round1(w, 0, Small(|key|))
    ensures var i := (n + 1) % 4;
            KeyRounds(w, key, n + 1)
            == Round1(KeyRounds(w, key, n), i, if n < |key| then Plus(key[n], Small(i)) else Small(i))
  {
    hide Round1, Small, Plus;
  }

  function FinalRounds(w: seq<bv32>, start: nat, n: nat): (v: seq<bv32>)
    requires |w| == 4
    ensures |v| == 4
  {
    if n == 0 then w else Round2(FinalRounds(w, start, n - 1), (start + n - 1) % 4)
  }

  /** At least seven key rounds, and as many as there are key words. */
  function KeyRoundCount(key: seq<bv32>): nat {
    if |key| > MIN_LOOP - 1 then |key| else MIN_LOOP - 1
  }

  // ---------- the transition word by word ----------

  /** The state after (a, b, c, d), by way of the masked first word, its sums with the second and the third one,
      that sum plus itself shifted, the last word plus itself shifted, the new last word, that one shifted, and the
      new third word. The parameters take part when the new last word is odd. */
  lemma {:induction false} NextIs(a: bv32, b: bv32, c: bv32, d: bv32, mat1: bv32, mat2: bv32,
                                  m: bv32, p: bv32, u: bv32, x: bv32, v: bv32, y: bv32, z: bv32, w: bv32)
    requires m == a & 0x7fff_ffff && p == m ^ b && u == p ^ c && x == u ^ (u << 1)
    requires v == d ^ (d >> 1) && y == v ^ x && z == y << 10 && w == x ^ z
    ensures Next(Status(a, b, c, d), mat1, mat2) == if y & 1 == 1 then Status(b, c ^ mat1, w ^ mat2, y) else Status(b, c, w, y)
  {
    hide *;
    MaskedIs(a);
    SumIs(m, b, p);
    SumIs(p, c, u);
    LeftIs(u, x);
    RightIs(d, v);
    SumIs(v, x, y);
    ShiftedIs(y, z);
    SumIs(x, z, w);
    NextWords(a, b, c, d, mat1, mat2, u, x, y, w);
    FedBack(c, y, mat1);
    FedBack(w, y, mat2);
  }

  lemma {:induction false} NextWords(a: bv32, b: bv32, c: bv32, d: bv32, mat1: bv32, mat2: bv32,
                                     u: bv32, x: bv32, y: bv32, w: bv32)
    requires Xor(Xor(And(a, MASK), b), c) == u && Left(u, 1) == x && Xor(Right(d, 1), x) == y
    requires Xor(x, Shl(y, 10)) == w
    ensures Next(Status(a, b, c, d), mat1, mat2) == Status(b, Xor(c, Feedback(y, mat1)), Xor(w, Feedback(y, mat2)), y)
  {
    hide Left, Right, Xor, And, Shl, Feedback;
  }

  lemma {:induction false} MaskedIs(w: bv32)
    ensures And(w, MASK) == w & 0x7fff_ffff
  {
  }

  lemma {:induction false} SumIs(a: bv32, b: bv32, sum: bv32)
    requires sum == a ^ b
    ensures Xor(a, b) == sum
  {
  }

  lemma {:induction false} LeftIs(u: bv32, x: bv32)
    requires x == u ^ (u << 1)
    ensures Left(u, 1) == x
  {
    hide *;
    ShiftsAre(u);
    SumIs(u, u << 1, x);
    LeftSum(u);
  }

  lemma {:induction false} RightIs(w: bv32, v: bv32)
    requires v == w ^ (w >> 1)
    ensures Right(w, 1) == v
  {
    hide *;
    ShiftsAre(w);
    SumIs(w, w >> 1, v);
    LeftSum(w);
  }

  lemma {:induction false} ShiftsAre(w: bv32)
    ensures Shl(w, 1) == w << 1 && Shr(w, 1) == w >> 1
  {
  }

  lemma {:induction false} LeftSum(w: bv32)
    ensures Left(w, 1) == Xor(w, Shl(w, 1)) && Right(w, 1) == Xor(w, Shr(w, 1))
  {
    hide Xor, Shl, Shr;
  }

  lemma {:induction false} ShiftedIs(y: bv32, z: bv32)
    requires z == y << 10
    ensures Shl(y, 10) == z
  {
  }

  lemma {:induction false} FedBack(w: bv32, y: bv32, mat: bv32)
    ensures Xor(w, Feedback(y, mat)) == if y & 1 == 1 then w ^ mat else w
  {
    hide Feedback, Xor;
    FeedbackIs(y, mat);
    XorIs(w, mat);
  }

  lemma {:induction false} XorIs(a: bv32, b: bv32)
    ensures Xor(a, b) == a ^ b && Xor(a, 0) == a
  {
  }

  lemma {:induction false} LowBit(y: bv32, b: bv32)
    requires b == y & 1
    ensures b == 0 || b == 1
  {
  }

  lemma {:induction false} LowBitMask(b: bv32, m: bv32, mat: bv32)
    requires m == 0 - b && (b == 0 || b == 1)
    ensures m & mat == if b == 1 then mat else 0
  {
  }

  lemma {:induction false} FeedbackMasks(y: bv32, mat: bv32, b: bv32, m: bv32)
    requires b == y & 1 && m == 0 - b
    ensures Feedback(y, mat) == m & mat
  {
  }

  lemma {:induction false} FeedbackIs(y: bv32, mat: bv32)
    ensures Feedback(y, mat) == if y & 1 == 1 then mat else 0
  {
    hide *;
    var b := y & 1;
    var m := 0 - b;
    LowBit(y, b);
    LowBitMask(b, m, mat);
    FeedbackMasks(y, mat, b, m);
  }

  // ---------- the transition bit by bit ----------

  predicate Bit(w: bv32, k: bv6)
    requires k < 32
  {
    (w >> k) & 1 == 1
  }

  /** Bit k of the sum of the first three words; the top bit of the first one does not count. */
  predicate SumBit(a: bv32, b: bv32, c: bv32, k: bv6)
    requires k < 32
  {
    (k < 31 && Bit(a, k)) != (Bit(b, k) != Bit(c, k))
  }

  /** The same after the sum was added to itself shifted left. */
  predicate MixBit(a: bv32, b: bv32, c: bv32, k: bv6)
    requires k < 32
  {
    SumBit(a, b, c, k) != (0 < k && SumBit(a, b, c, k - 1))
  }

  lemma {:induction false} MaskBit(w: bv32, m: bv32, k: bv6)
    requires k < 32 && m == w & 0x7fff_ffff
    ensures Bit(m, k) <==> k < 31 && Bit(w, k)
  {
  }

  lemma {:induction false} XorBit(a: bv32, b: bv32, p: bv32, k: bv6)
    requires k < 32 && p == a ^ b
    ensures Bit(p, k) <==> Bit(a, k) != Bit(b, k)
  {
  }

  lemma {:induction false} LeftBit(u: bv32, x: bv32, k: bv6)
    requires k < 32 && x == u ^ (u << 1)
    ensures Bit(x, k) <==> Bit(u, k) != (0 < k && Bit(u, k - 1))
  {
  }

  lemma {:induction false} RightBit(w: bv32, v: bv32, k: bv6)
    requires k < 32 && v == w ^ (w >> 1)
    ensures Bit(v, k) <==> Bit(w, k) != (k < 31 && Bit(w, k + 1))
  {
  }

  lemma {:induction false} ShiftBit(y: bv32, z: bv32, k: bv6)
    requires k < 32 && z == y << 10
    ensures Bit(z, k) <==> 10 <= k && Bit(y, k - 10)
  {
  }

  lemma {:induction false} FeedbackBit(w: bv32, y: bv32, mat: bv32, fed: bv32, k: bv6)
    requires k < 32 && fed == if y & 1 == 1 then w ^ mat else w
    ensures Bit(fed, k) <==> Bit(w, k) != (Bit(y, 0) && Bit(mat, k))
  {
  }

  lemma {:induction false} SumBits(a: bv32, b: bv32, c: bv32, m: bv32, p: bv32, u: bv32, k: bv6)
    requires k < 32 && m == a & 0x7fff_ffff && p == m ^ b && u == p ^ c
    ensures Bit(u, k) <==> SumBit(a, b, c, k)
  {
    MaskBit(a, m, k);
    XorBit(m, b, p, k);
    XorBit(p, c, u, k);
    hide Bit;
  }

  lemma {:induction false} MixBits(a: bv32, b: bv32, c: bv32, m: bv32, p: bv32, u: bv32, x: bv32, k: bv6)
    requires k < 32 && m == a & 0x7fff_ffff && p == m ^ b && u == p ^ c && x == u ^ (u << 1)
    ensures Bit(x, k) <==> MixBit(a, b, c, k)
  {
    LeftBit(u, x, k);
    SumBits(a, b, c, m, p, u, k);
    if 0 < k { SumBits(a, b, c, m, p, u, k - 1); }
    hide Bit, SumBit;
  }

  lemma {:induction false} LastBit(a: bv32, b: bv32, c: bv32, d: bv32,
                                   m: bv32, p: bv32, u: bv32, x: bv32, v: bv32, y: bv32, z: bv32, w: bv32, k: bv6)
    requires k < 32
    requires m == a & 0x7fff_ffff && p == m ^ b && u == p ^ c && x == u ^ (u << 1)
    requires v == d ^ (d >> 1) && y == v ^ x && z == y << 10 && w == x ^ z
    ensures Bit(y, k) <==> (Bit(d, k) != (k < 31 && Bit(d, k + 1))) != MixBit(a, b, c, k)
    ensures Bit(w, k) <==> MixBit(a, b, c, k) != (10 <= k && Bit(y, k - 10))
  {
    hide *;
    RightBit(d, v, k);
    XorBit(v, x, y, k);
    ShiftBit(y, z, k);
    XorBit(x, z, w, k);
    MixBits(a, b, c, m, p, u, x, k);
  }

  /** Every bit of the next state as a sum of bits of the old one; the bits of the parameters are added when
      the lowest bit of the new last word is set. */
  lemma {:induction false} NextBits(a: bv32, b: bv32, c: bv32, d: bv32, mat1: bv32, mat2: bv32, k: bv6)
    requires k < 32
    ensures var t := Next(Status(a, b, c, d), mat1, mat2);
            var odd := Bit(t.s3, 0);
            && t.s0 == b
            && (Bit(t.s1, k) <==> Bit(c, k) != (odd && Bit(mat1, k)))
            && (Bit(t.s2, k) <==> (MixBit(a, b, c, k) != (10 <= k && Bit(t.s3, k - 10))) != (odd && Bit(mat2, k)))
            && (Bit(t.s3, k) <==> (Bit(d, k) != (k < 31 && Bit(d, k + 1))) != MixBit(a, b, c, k))
  {
    hide *;
    var m, p, u, x, v, y, z, w := WordsOf(a, b, c, d);
    LastBit(a, b, c, d, m, p, u, x, v, y, z, w, k);
    FedBackBits(a, b, c, d, mat1, mat2, m, p, u, x, v, y, z, w, k);
  }

  lemma {:induction false} WordsOf(a: bv32, b: bv32, c: bv32, d: bv32)
    returns (m: bv32, p: bv32, u: bv32, x: bv32, v: bv32, y: bv32, z: bv32, w: bv32)
    ensures m == a & 0x7fff_ffff && p == m ^ b && u == p ^ c && x == u ^ (u << 1)
    ensures v == d ^ (d >> 1) && y == v ^ x && z == y << 10 && w == x ^ z
  {
    m := a & 0x7fff_ffff;
    p := m ^ b;
    u := p ^ c;
    x := u ^ (u << 1);
    v := d ^ (d >> 1);
    y := v ^ x;
    z := y << 10;
    w := x ^ z;
  }

  lemma {:induction false} FedBackBits(a: bv32, b: bv32, c: bv32, d: bv32, mat1: bv32, mat2: bv32,
                                       m: bv32, p: bv32, u: bv32, x: bv32, v: bv32, y: bv32, z: bv32, w: bv32, k: bv6)
    requires k < 32
    requires m == a & 0x7fff_ffff && p == m ^ b && u == p ^ c && x == u ^ (u << 1)
    requires v == d ^ (d >> 1) && y == v ^ x && z == y << 10 && w == x ^ z
    ensures var t := Next(Status(a, b, c, d), mat1, mat2);
            && t.s0 == b && t.s3 == y
            && (Bit(t.s1, k) <==> Bit(c, k) != (Bit(y, 0) && Bit(mat1, k)))
            && (Bit(t.s2, k) <==> Bit(w, k) != (Bit(y, 0) && Bit(mat2, k)))
  {
    hide *;
    NextIs(a, b, c, d, mat1, mat2, m, p, u, x, v, y, z, w);
    var t := Next(Status(a, b, c, d), mat1, mat2);
    FeedbackBit(c, y, mat1, t.s1, k);
    FeedbackBit(w, y, mat2, t.s2, k);
  }

  // ---------- the initial state depends on the seed and on every word of the key ----------

  // Facts about the plain operators, and about their named forms.

  lemma {:induction false} UnmixedWord(x: bv32)
    ensures (x ^ (x >> 30)) ^ ((x ^ (x >> 30)) >> 30) == x
    ensures (x ^ (x >> 27)) ^ ((x ^ (x >> 27)) >> 27) == x
  {
  }

  lemma {:induction false} CancelledWord(a: bv32, x: bv32, y: bv32)
    requires a ^ x == a ^ y || x ^ a == y ^ a
    ensures x == y
  {
  }

  lemma {:induction false} Unmixed(x: bv32)
    ensures Xor(Xor(x, Shr(x, 30)), Shr(Xor(x, Shr(x, 30)), 30)) == x
    ensures Xor(Xor(x, Shr(x, 27)), Shr(Xor(x, Shr(x, 27)), 27)) == x
  {
    UnmixedWord(x);
  }

  // The three factors are odd, so they have inverses modulo 2^32.

  function SeedDivided(y: bv32): bv32 {
    0x9638806d * y
  }

  function Divided1(y: bv32): bv32 {
    0xfee058c5 * y
  }

  function Divided2(y: bv32): bv32 {
    0x6a76ae6d * y
  }

  lemma {:induction false} DividedProducts(x: bv32)
    ensures SeedDivided(1812433253 * x) == x && Divided1(x * 1664525) == x && Divided2(x * 1566083941) == x
  {
  }

  lemma {:induction false} ProductsAre(x: bv32)
    ensures SeedFactor(x) == 1812433253 * x && Factor1(x) == x * 1664525 && Factor2(x) == x * 1566083941
  {
  }

  lemma {:induction false} FactorsDivide(x: bv32)
    ensures SeedDivided(SeedFactor(x)) == x && Divided1(Factor1(x)) == x && Divided2(Factor2(x)) == x
  {
    hide *;
    DividedProducts(x);
    ProductsAre(x);
  }

  lemma {:induction false} SumsAre(x: bv32, y: bv32)
    ensures Plus(x, y) == x + y && Minus(x, y) == x - y
  {
  }

  lemma {:induction false} TermsTaken(x: bv32, y: bv32)
    ensures Minus(x + y, x) == y && Minus(x + y, y) == x && Plus(x - y, y) == x
  {
  }

  lemma {:induction false} Subtracted(x: bv32, y: bv32)
    ensures Minus(Plus(x, y), x) == y && Minus(Plus(x, y), y) == x && Plus(Minus(x, y), y) == x
  {
    hide *;
    SumsAre(x, y);
    TermsTaken(x, y);
  }

  lemma {:induction false} PlusInjective(a: bv32, x: bv32, y: bv32)
    requires Plus(a, x) == Plus(a, y) || Plus(x, a) == Plus(y, a)
    ensures x == y
  {
    hide *;
    Subtracted(a, x);
    Subtracted(a, y);
    Subtracted(x, a);
    Subtracted(y, a);
  }

  lemma {:induction false} MinusInjective(a: bv32, x: bv32, y: bv32)
    requires Minus(x, a) == Minus(y, a)
    ensures x == y
  {
    hide *;
    Subtracted(x, a);
    Subtracted(y, a);
  }

  lemma {:induction false} Cancelled(a: bv32, x: bv32, y: bv32)
    requires Xor(a, x) == Xor(a, y) || Xor(x, a) == Xor(y, a)
    ensures x == y
  {
    CancelledWord(a, x, y);
  }

  lemma {:induction false} SeedTermInjective(n: nat, a: bv32, b: bv32)
    requires SeedTerm(n, a) == SeedTerm(n, b)
    ensures a == b
  {
    hide Xor, Shr, Plus, SeedFactor;
    var x, y := Xor(a, Shr(a, 30)), Xor(b, Shr(b, 30));
    PlusInjective(Small(n), SeedFactor(x), SeedFactor(y));
    FactorsDivide(x);
    FactorsDivide(y);
    Unmixed(a);
    Unmixed(b);
  }

  lemma {:induction false} SeedRoundAt(w: seq<bv32>, n: nat, k: nat)
    requires |w| == 4 && k < 4
    ensures var v := SeedRounds(w, n);
            SeedRounds(w, n + 1)[k] == if k == (n + 1) % 4 then Xor(v[k], SeedTerm(n + 1, v[n % 4])) else v[k]
  {
    hide Xor, SeedTerm;
  }

  // One round of the seeding loop changes one of the four words.

  lemma {:induction false} SeedSecond(w: seq<bv32>, n: nat, a: bv32, b: bv32, c: bv32, d: bv32)
    requires |w| == 4 && HasWords(SeedRounds(w, n), a, b, c, d) && n % 4 == 0
    ensures HasWords(SeedRounds(w, n + 1), a, Xor(b, SeedTerm(n + 1, a)), c, d)
  {
    hide Xor, SeedTerm, SeedRounds;
    SeedRoundAt(w, n, 0);
    SeedRoundAt(w, n, 1);
    SeedRoundAt(w, n, 2);
    SeedRoundAt(w, n, 3);
  }

  lemma {:induction false} SeedThird(w: seq<bv32>, n: nat, a: bv32, b: bv32, c: bv32, d: bv32)
    requires |w| == 4 && HasWords(SeedRounds(w, n), a, b, c, d) && n % 4 == 1
    ensures HasWords(SeedRounds(w, n + 1), a, b, Xor(c, SeedTerm(n + 1, b)), d)
  {
    hide Xor, SeedTerm, SeedRounds;
    SeedRoundAt(w, n, 0);
    SeedRoundAt(w, n, 1);
    SeedRoundAt(w, n, 2);
    SeedRoundAt(w, n, 3);
  }

  lemma {:induction false} SeedFourth(w: seq<bv32>, n: nat, a: bv32, b: bv32, c: bv32, d: bv32)
    requires |w| == 4 && HasWords(SeedRounds(w, n), a, b, c, d) && n % 4 == 2
    ensures HasWords(SeedRounds(w, n + 1), a, b, c, Xor(d, SeedTerm(n + 1, c)))
  {
    hide Xor, SeedTerm, SeedRounds;
    SeedRoundAt(w, n, 0);
    SeedRoundAt(w, n, 1);
    SeedRoundAt(w, n, 2);
    SeedRoundAt(w, n, 3);
  }

  lemma {:induction false} SeedFirst(w: seq<bv32>, n: nat, a: bv32, b: bv32, c: bv32, d: bv32)
    requires |w| == 4 && HasWords(SeedRounds(w, n), a, b, c, d) && n % 4 == 3
    ensures HasWords(SeedRounds(w, n + 1), Xor(a, SeedTerm(n + 1, d)), b, c, d)
  {
    hide Xor, SeedTerm, SeedRounds;
    SeedRoundAt(w, n, 0);
    SeedRoundAt(w, n, 1);
    SeedRoundAt(w, n, 2);
    SeedRoundAt(w, n, 3);
  }

  predicate HasWords(v: seq<bv32>, a: bv32, b: bv32, c: bv32, d: bv32) {
    |v| == 4 && v[0] == a && v[1] == b && v[2] == c && v[3] == d
  }

  lemma {:induction false} SeedStart(a: bv32, b: bv32, c: bv32, d: bv32)
    ensures HasWords(SeedRounds([a, b, c, d], 0), a, b, c, d)
  {
  }

  lemma {:induction false} StateOfWords(seed: bv32, m1: bv32, m2: bv32, t: bv32, a: bv32, b: bv32, c: bv32, d: bv32)
    requires HasWords(SeedRounds([seed, m1, m2, t], 7), a, b, c, d)
    ensures SeedState(seed, m1, m2, t) == Status(a, b, c, d)
  {
    hide SeedRounds;
  }

  /** The words after seven seeding rounds. */
  lemma {:induction false} Seeded(seed: bv32, m1: bv32, m2: bv32, t: bv32)
    returns (a1: bv32, a2: bv32, a3: bv32, a4: bv32, a5: bv32, a6: bv32, a7: bv32)
    ensures a1 == Xor(m1, SeedTerm(1, seed)) && a2 == Xor(m2, SeedTerm(2, a1)) && a3 == Xor(t, SeedTerm(3, a2))
    ensures a4 == Xor(seed, SeedTerm(4, a3)) && a5 == Xor(a1, SeedTerm(5, a4))
    ensures a6 == Xor(a2, SeedTerm(6, a5)) && a7 == Xor(a3, SeedTerm(7, a6))
    ensures SeedState(seed, m1, m2, t) == Status(a4, a5, a6, a7)
  {
    hide *;
    var w := [seed, m1, m2, t];
    a1 := Xor(m1, SeedTerm(1, seed));
    a2 := Xor(m2, SeedTerm(2, a1));
    a3 := Xor(t, SeedTerm(3, a2));
    a4 := Xor(seed, SeedTerm(4, a3));
    a5 := Xor(a1, SeedTerm(5, a4));
    a6 := Xor(a2, SeedTerm(6, a5));
    a7 := Xor(a3, SeedTerm(7, a6));
    SeedStart(seed, m1, m2, t);
    SeedSecond(w, 0, seed, m1, m2, t);
    SeedThird(w, 1, seed, a1, m2, t);
    SeedFourth(w, 2, seed, a1, a2, t);
    SeedFirst(w, 3, seed, a1, a2, a3);
    SeedSecond(w, 4, a4, a1, a2, a3);
    SeedThird(w, 5, a4, a5, a2, a3);
    SeedFourth(w, 6, a4, a5, a6, a3);
    StateOfWords(seed, m1, m2, t, a4, a5, a6, a7);
  }

  function SeedState(seed: bv32, m1: bv32, m2: bv32, t: bv32): Status {
    FromWords(SeedRounds([seed, m1, m2, t], MIN_LOOP - 1))
  }

  /** Different seeds are mixed into different 127-bit states, whatever the parameters. */
  lemma {:induction false} SeedsDiffer(a: bv32, b: bv32, m1: bv32, m2: bv32, t: bv32)
    requires a != b
    ensures !SameState(SeedState(a, m1, m2, t), SeedState(b, m1, m2, t))
  {
    var p1, p2, p3, p4, p5, p6, p7 := Seeded(a, m1, m2, t);
    var q1, q2, q3, q4, q5, q6, q7 := Seeded(b, m1, m2, t);
    hide Xor, SeedTerm, SeedState, And;
    if SameState(SeedState(a, m1, m2, t), SeedState(b, m1, m2, t)) {
      Cancelled(SeedTerm(7, p6), p3, q3);
      Cancelled(SeedTerm(6, p5), p2, q2);
      Cancelled(m2, SeedTerm(2, p1), SeedTerm(2, q1));
      SeedTermInjective(2, p1, q1);
      Cancelled(m1, SeedTerm(1, a), SeedTerm(1, b));
      SeedTermInjective(1, a, b);
    }
  }

  function InitState(seed: bv32, m1: bv32, m2: bv32, t: bv32): Status {
    Steps(Certified(SeedState(seed, m1, m2, t)), m1, m2, PRE_LOOP)
  }

  /** So the generators of two seeds start in the same state only if certification replaced one of the two
      mixed states, which was zero, by the other. */
  lemma {:induction false} InitsDiffer(a: bv32, b: bv32, m1: bv32, m2: bv32, t: bv32)
    requires a != b
    ensures var s, u := SeedState(a, m1, m2, t), SeedState(b, m1, m2, t);
            SameState(InitState(a, m1, m2, t), InitState(b, m1, m2, t))
            <==> (IsZero(s) && SameState(u, TINY)) || (IsZero(u) && SameState(s, TINY))
  {
    var s, u := SeedState(a, m1, m2, t), SeedState(b, m1, m2, t);
    hide SeedState, InitState, Steps, Certified, SameState, IsZero;
    SeedsDiffer(a, b, m1, m2, t);
    InitIs(a, m1, m2, t);
    InitIs(b, m1, m2, t);
    StepsInjective(Certified(s), Certified(u), m1, m2, 8);
    CertifiedApart(s, u);
  }

  lemma {:induction false} InitIs(seed: bv32, m1: bv32, m2: bv32, t: bv32)
    ensures InitState(seed, m1, m2, t) == Steps(Certified(SeedState(seed, m1, m2, t)), m1, m2, 8)
  {
  }

  lemma {:induction false} CertifiedApart(s: Status, u: Status)
    requires !SameState(s, u)
    ensures SameState(Certified(s), Certified(u)) <==> (IsZero(s) && SameState(u, TINY)) || (IsZero(u) && SameState(s, TINY))
  {
    hide And;
  }

  lemma {:induction false} IniFunc1Injective(x: bv32, y: bv32)
    requires IniFunc1(x) == IniFunc1(y)
    ensures x == y
  {
    hide Xor, Shr, Factor1;
    FactorsDivide(Xor(x, Shr(x, 27)));
    FactorsDivide(Xor(y, Shr(y, 27)));
    Unmixed(x);
    Unmixed(y);
  }

  lemma {:induction false} IniFunc2Injective(x: bv32, y: bv32)
    requires IniFunc2(x) == IniFunc2(y)
    ensures x == y
  {
    hide Xor, Shr, Factor2;
    FactorsDivide(Xor(x, Shr(x, 27)));
    FactorsDivide(Xor(y, Shr(y, 27)));
    Unmixed(x);
    Unmixed(y);
  }

  /** A round takes different words to different words, and equal words to different ones if what it adds
      differs. */
  lemma {:induction false} Round1Injective(w: seq<bv32>, v: seq<bv32>, i: nat, add: bv32)
    requires |w| == |v| == 4 && i < 4 && Round1(w, i, add) == Round1(v, i, add)
    ensures w == v
  {
    Round1Words(w, i, add);
    Round1Words(v, i, add);
    hide Round1, IniFunc1, Xor, Plus;
    var j, k, l := (i + 1) % 4, (i + 2) % 4, (i + 3) % 4;
    var x, y := Xor(Xor(w[i], w[j]), w[l]), Xor(Xor(v[i], v[j]), v[l]);
    PlusInjective(add, IniFunc1(x), IniFunc1(y));
    PlusInjective(IniFunc1(x), w[j], v[j]);
    PlusInjective(Plus(IniFunc1(x), add), w[k], v[k]);
    IniFunc1Injective(x, y);
    Cancelled(w[l], Xor(w[i], w[j]), Xor(v[i], v[j]));
    Cancelled(w[j], w[i], v[i]);
    AllFour(w, v, i);
  }

  lemma {:induction false} Round1Adds(w: seq<bv32>, i: nat, a: bv32, b: bv32)
    requires |w| == 4 && i < 4 && Round1(w, i, a) == Round1(w, i, b)
    ensures a == b
  {
    Round1Words(w, i, a);
    Round1Words(w, i, b);
    hide Round1, IniFunc1, Xor, Plus;
    PlusInjective(IniFunc1(Xor(Xor(w[i], w[(i + 1) % 4]), w[(i + 3) % 4])), a, b);
  }

  lemma {:induction false} AllFour(w: seq<bv32>, v: seq<bv32>, i: nat)
    requires |w| == |v| == 4 && i < 4
    requires w[i] == v[i] && w[(i + 1) % 4] == v[(i + 1) % 4] && w[(i + 2) % 4] == v[(i + 2) % 4] && w[(i + 3) % 4] == v[(i + 3) % 4]
    ensures w == v
  {
    assert i == 0 || i == 1 || i == 2 || i == 3;
  }

  lemma {:induction false} Round1Words(w: seq<bv32>, i: nat, add: bv32)
    requires |w| == 4 && i < 4
    ensures var j, k, l := (i + 1) % 4, (i + 2) % 4, (i + 3) % 4;
            var r := IniFunc1(Xor(Xor(w[i], w[j]), w[l]));
            var v := Round1(w, i, add);
            v[i] == Plus(r, add) && v[j] == Plus(w[j], r) && v[k] == Plus(w[k], Plus(r, add)) && v[l] == w[l]
  {
    hide IniFunc1, Xor, Plus;
  }

  lemma {:induction false} Round2Words(w: seq<bv32>, i: nat)
    requires |w| == 4 && i < 4
    ensures var j, k, l := (i + 1) % 4, (i + 2) % 4, (i + 3) % 4;
            var r := IniFunc2(Plus(Plus(w[i], w[j]), w[l]));
            var v := Round2(w, i);
            && v[i] == Minus(r, Small(i)) && v[j] == Xor(w[j], r) && v[k] == Xor(w[k], Minus(r, Small(i))) && v[l] == w[l]
  {
    hide IniFunc2, Xor, Plus, Minus, Small;
  }

  lemma {:induction false} Round2Injective(w: seq<bv32>, v: seq<bv32>, i: nat)
    requires |w| == |v| == 4 && i < 4 && Round2(w, i) == Round2(v, i)
    ensures w == v
  {
    Round2Words(w, i);
    Round2Words(v, i);
    hide Round2, IniFunc2, Xor, Plus, Minus, Small;
    var j, k, l := (i + 1) % 4, (i + 2) % 4, (i + 3) % 4;
    var x, y := Plus(Plus(w[i], w[j]), w[l]), Plus(Plus(v[i], v[j]), v[l]);
    MinusInjective(Small(i), IniFunc2(x), IniFunc2(y));
    Cancelled(IniFunc2(x), w[j], v[j]);
    Cancelled(Minus(IniFunc2(x), Small(i)), w[k], v[k]);
    IniFunc2Injective(x, y);
    PlusInjective(w[l], Plus(w[i], w[j]), Plus(v[i], v[j]));
    PlusInjective(w[j], w[i], v[i]);
    AllFour(w, v, i);
  }

  /** The keys differ in word `j` only: up to its round the words are the same, and then they differ. */
  lemma {:induction false} KeyRoundsSame(w: seq<bv32>, key: seq<bv32>, key': seq<bv32>, j: nat, n: nat)
    requires |w| == 4 && |key| == |key'| && n <= j < |key|
    requires forall k :: 0 <= k < |key| && k != j ==> key[k] == key'[k]
    ensures KeyRounds(w, key, n) == KeyRounds(w, key', n)
  {
    hide Round1, Plus, Small;
    if n > 0 {
      KeyRoundsSame(w, key, key', j, n - 1);
    }
  }

  lemma {:induction false} KeyRoundsDiffer(w: seq<bv32>, key: seq<bv32>, key': seq<bv32>, j: nat, n: nat)
    requires |w| == 4 && |key| == |key'| && j < |key| && j < n && key[j] != key'[j]
    requires forall k :: 0 <= k < |key| && k != j ==> key[k] == key'[k]
    ensures KeyRounds(w, key, n) != KeyRounds(w, key', n)
  {
    hide *;
    var i := n % 4;
    if n == j + 1 {
      KeyRoundsSame(w, key, key', j, j);
      KeyRoundIs(w, key, n, i, Plus(key[j], Small(i)));
      KeyRoundIs(w, key', n, i, Plus(key'[j], Small(i)));
      KeyRoundApart(KeyRounds(w, key, j), i, key[j], key'[j]);
    } else {
      KeyRoundsDiffer(w, key, key', j, n - 1);
      var add := if n <= |key| then Plus(key[n - 1], Small(i)) else Small(i);
      KeyRoundIs(w, key, n, i, add);
      KeyRoundIs(w, key', n, i, add);
      KeyRoundKeeps(KeyRounds(w, key, n - 1), KeyRounds(w, key', n - 1), i, add);
    }
  }

  lemma {:induction false} KeyRoundIs(w: seq<bv32>, key: seq<bv32>, n: nat, i: nat, add: bv32)
    requires |w| == 4 && 0 < n && i == n % 4 && add == if n <= |key| then Plus(key[n - 1], Small(i)) else Small(i)
    ensures KeyRounds(w, key, n) == Round1(KeyRounds(w, key, n - 1), i, add)
  {
    hide Round1, Small, Plus;
  }

  lemma {:induction false} KeyRoundApart(v: seq<bv32>, i: nat, a: bv32, b: bv32)
    requires |v| == 4 && i < 4 && a != b
    ensures Round1(v, i, Plus(a, Small(i))) != Round1(v, i, Plus(b, Small(i)))
  {
    hide *;
    if Round1(v, i, Plus(a, Small(i))) == Round1(v, i, Plus(b, Small(i))) {
      Round1Adds(v, i, Plus(a, Small(i)), Plus(b, Small(i)));
      PlusInjective(Small(i), a, b);
    }
  }

  lemma {:induction false} KeyRoundKeeps(v: seq<bv32>, v': seq<bv32>, i: nat, add: bv32)
    requires |v| == |v'| == 4 && i < 4 && v != v'
    ensures Round1(v, i, add) != Round1(v', i, add)
  {
    hide *;
    if Round1(v, i, add) == Round1(v', i, add) {
      Round1Injective(v, v', i, add);
    }
  }

  lemma {:induction false} FinalRoundsInjective(w: seq<bv32>, v: seq<bv32>, start: nat, n: nat)
    requires |w| == |v| == 4
    ensures FinalRounds(w, start, n) == FinalRounds(v, start, n) ==> w == v
  {
    hide Round2;
    if n > 0 && FinalRounds(w, start, n) == FinalRounds(v, start, n) {
      Round2Injective(FinalRounds(w, start, n - 1), FinalRounds(v, start, n - 1), (start + n - 1) % 4);
      FinalRoundsInjective(w, v, start, n - 1);
    }
  }

  function Mixed(key: seq<bv32>, m1: bv32, m2: bv32, t: bv32): seq<bv32> {
    var n := KeyRoundCount(key);
    FinalRounds(KeyRounds([0, m1, m2, t], key, n), (n + 1) % 4, 4)
  }

  /** Every word of a key counts: changing any single one changes the mixed words. */
  lemma {:induction false} KeysDiffer(key: seq<bv32>, j: nat, word: bv32, m1: bv32, m2: bv32, t: bv32)
    requires j < |key| && word != key[j]
    ensures Mixed(key, m1, m2, t) != Mixed(key[j := word], m1, m2, t)
  {
    hide KeyRounds, FinalRounds;
    var key', w, n := key[j := word], [0, m1, m2, t], KeyRoundCount(key);
    KeyRoundsDiffer(w, key, key', j, n);
    FinalRoundsInjective(KeyRounds(w, key, n), KeyRounds(w, key', n), (n + 1) % 4, 4);
  }

  // ---------- fixed values ----------

  lemma {:induction false} SeedTermDef(n: nat, before: bv32)
    ensures SeedTerm(n, before) == Plus(Small(n), SeedFactor(Xor(before, Shr(before, 30))))
  {
    hide Plus, Small, SeedFactor, Xor, Shr;
  }

  lemma {:induction false} MixedIs(before: bv32)
    ensures Xor(before, Shr(before, 30)) == before ^ (before >> 30)
  {
  }

  lemma {:induction false} SeedTermIs(n: nat, k: bv32, before: bv32, mixed: bv32, product: bv32, term: bv32, word: bv32, next: bv32)
    requires Small(n) == k && mixed == before ^ (before >> 30) && product == 1812433253 * mixed
    requires term == k + product && next == word ^ term
    ensures Xor(word, SeedTerm(n, before)) == next
  {
    hide *;
    SeedTermDef(n, before);
    MixedIs(before);
    ProductsAre(mixed);
    SumsAre(k, product);
    XorIs(word, term);
  }

  lemma {:induction false} SmallNext(n: nat, k: bv32, next: bv32)
    requires Small(n) == k && next == k + 1
    ensures Small(n + 1) == next
  {
  }

  lemma {:induction false} Smalls()
    ensures Small(1) == 1 && Small(2) == 2 && Small(3) == 3 && Small(4) == 4 && Small(5) == 5 && Small(6) == 6 && Small(7) == 7
  {
    assert Small(0) == 0;
    hide *;
    SmallNext(0, 0, 1);
    SmallNext(1, 1, 2);
    SmallNext(2, 2, 3);
    SmallNext(3, 3, 4);
    SmallNext(4, 4, 5);
    SmallNext(5, 5, 6);
    SmallNext(6, 6, 7);
  }

  lemma {:induction false} StepsStep(s: Status, mat1: bv32, mat2: bv32, n: nat)
    ensures Steps(s, mat1, mat2, 0) == s
    ensures Steps(s, mat1, mat2, n + 1) == Next(Steps(s, mat1, mat2, n), mat1, mat2)
  {
    hide Next;
  }

  /** The one generator of the firmware: its parameters are zero, its seed is 1345135. */
  lemma {:induction false} FirmwareSeed()
    ensures SeedState(0x0014866f, 0x00000000, 0x00000000, 0x00000000) == Status(0x81f2d144, 0xf2a6766f, 0x7bab3bea, 0x5022fd24)
    ensures Steps(Status(0x81f2d144, 0xf2a6766f, 0x7bab3bea, 0x5022fd24), 0x00000000, 0x00000000, 8)
         == Status(0xadcbb584, 0xd53bd367, 0xa1173e52, 0xf57996ea)
  {
    var a1, a2, a3, a4, a5, a6, a7 := Seeded(0x0014866f, 0x00000000, 0x00000000, 0x00000000);
    hide *;
    Smalls();
    SeedTermIs(1, 1, 0x0014866f, 0x0014866f, 0x851370cb, 0x851370cc, 0x00000000, 0x851370cc);
    SeedTermIs(2, 2, 0x851370cc, 0x851370ce, 0xe5abbf46, 0xe5abbf48, 0x00000000, 0xe5abbf48);
    SeedTermIs(3, 3, 0xe5abbf48, 0xe5abbf4b, 0x652e9b97, 0x652e9b9a, 0x00000000, 0x652e9b9a);
    SeedTermIs(4, 4, 0x652e9b9a, 0x652e9b9b, 0x81e65727, 0x81e6572b, 0x0014866f, 0x81f2d144);
    SeedTermIs(5, 5, 0x81f2d144, 0x81f2d146, 0x77b5069e, 0x77b506a3, 0x851370cc, 0xf2a6766f);
    SeedTermIs(6, 6, 0xf2a6766f, 0xf2a6766c, 0x9e00849c, 0x9e0084a2, 0xe5abbf48, 0x7bab3bea);
    SeedTermIs(7, 7, 0x7bab3bea, 0x7bab3beb, 0x350c66b7, 0x350c66be, 0x652e9b9a, 0x5022fd24);
    NextIs(0x81f2d144, 0xf2a6766f, 0x7bab3bea, 0x5022fd24, 0x00000000, 0x00000000,
           0x01f2d144, 0xf354a72b, 0x88ff9cc1, 0x9900a543, 0x783383b6, 0xe13326f5, 0xcc9bd400, 0x559b7143);
    StepsStep(Status(0x81f2d144, 0xf2a6766f, 0x7bab3bea, 0x5022fd24), 0x00000000, 0x00000000, 0);
    NextIs(0xf2a6766f, 0x7bab3bea, 0x559b7143, 0xe13326f5, 0x00000000, 0x00000000,
           0x72a6766f, 0x090d4d85, 0x5c963cc6, 0xe5ba454a, 0x91aab58f, 0x7410f0c5, 0x43c31400, 0xa679514a);
    StepsStep(Status(0x81f2d144, 0xf2a6766f, 0x7bab3bea, 0x5022fd24), 0x00000000, 0x00000000, 1);
    NextIs(0x7bab3bea, 0x559b7143, 0xa679514a, 0x7410f0c5, 0x00000000, 0x00000000,
           0x7bab3bea, 0x2e304aa9, 0x88491be3, 0x98db2c25, 0x4e1888a7, 0xd6c3a482, 0x0e920800, 0x96492425);
    StepsStep(Status(0x81f2d144, 0xf2a6766f, 0x7bab3bea, 0x5022fd24), 0x00000000, 0x00000000, 2);
    NextIs(0x559b7143, 0xa679514a, 0x96492425, 0xd6c3a482, 0x00000000, 0x00000000,
           0x559b7143, 0xf3e22009, 0x65ab042c, 0xaefd0c74, 0xbda276c3, 0x135f7ab7, 0x7deadc00, 0xd317d074);
    StepsStep(Status(0x81f2d144, 0xf2a6766f, 0x7bab3bea, 0x5022fd24), 0x00000000, 0x00000000, 3);
    NextIs(0xa679514a, 0x96492425, 0xd317d074, 0x135f7ab7, 0x00000000, 0x00000000,
           0x2679514a, 0xb030756f, 0x6327a51b, 0xa568ef2d, 0x1af0c7ec, 0xbf9828c1, 0x60a30400, 0xc5cbeb2d);
    StepsStep(Status(0x81f2d144, 0xf2a6766f, 0x7bab3bea, 0x5022fd24), 0x00000000, 0x00000000, 4);
    NextIs(0x96492425, 0xd317d074, 0xc5cbeb2d, 0xbf9828c1, 0x00000000, 0x00000000,
           0x16492425, 0xc55ef451, 0x00951f7c, 0x01bf2184, 0xe0543ca1, 0xe1eb1d25, 0xac749400, 0xadcbb584);
    StepsStep(Status(0x81f2d144, 0xf2a6766f, 0x7bab3bea, 0x5022fd24), 0x00000000, 0x00000000, 5);
    NextIs(0xd317d074, 0xc5cbeb2d, 0xadcbb584, 0xe1eb1d25, 0x00000000, 0x00000000,
           0x5317d074, 0x96dc3b59, 0x3b178edd, 0x4d389367, 0x911e93b7, 0xdc2600d0, 0x98034000, 0xd53bd367);
    StepsStep(Status(0x81f2d144, 0xf2a6766f, 0x7bab3bea, 0x5022fd24), 0x00000000, 0x00000000, 6);
    NextIs(0xc5cbeb2d, 0xadcbb584, 0xd53bd367, 0xdc2600d0, 0x00000000, 0x00000000,
           0x45cbeb2d, 0xe8005ea9, 0x3d3b8dce, 0x474c9652, 0xb23500b8, 0xf57996ea, 0xe65ba800, 0xa1173e52);
    StepsStep(Status(0x81f2d144, 0xf2a6766f, 0x7bab3bea, 0x5022fd24), 0x00000000, 0x00000000, 7);
  }

  /** The parameters mat1 = 0x8f7011ee, mat2 = 0xfc78ff1f and tmat = 0x3793fdff with seed 1. */
  lemma {:induction false} SeedOne()
    ensures SeedState(0x00000001, 0x8f7011ee, 0xfc78ff1f, 0x3793fdff) == Status(0xe91e498a, 0x1e7bcc9a, 0xa56a4c0e, 0xdfc6a2ba)
    ensures Steps(Status(0xe91e498a, 0x1e7bcc9a, 0xa56a4c0e, 0xdfc6a2ba), 0x8f7011ee, 0xfc78ff1f, 8)
         == Status(0x0cca24d8, 0x11ba5ad5, 0xf2dad045, 0xd95dd7b2)
  {
    var a1, a2, a3, a4, a5, a6, a7 := Seeded(0x00000001, 0x8f7011ee, 0xfc78ff1f, 0x3793fdff);
    hide *;
    Smalls();
    SeedTermIs(1, 1, 0x00000001, 0x00000001, 0x6c078965, 0x6c078966, 0x8f7011ee, 0xe3779888);
    SeedTermIs(2, 2, 0xe3779888, 0xe377988b, 0x8e9e91d7, 0x8e9e91d9, 0xfc78ff1f, 0x72e66ec6);
    SeedTermIs(3, 3, 0x72e66ec6, 0x72e66ec7, 0xa1a33383, 0xa1a33386, 0x3793fdff, 0x9630ce79);
    SeedTermIs(4, 4, 0x9630ce79, 0x9630ce7b, 0xe91e4987, 0xe91e498b, 0x00000001, 0xe91e498a);
    SeedTermIs(5, 5, 0xe91e498a, 0xe91e4989, 0xfd0c540d, 0xfd0c5412, 0xe3779888, 0x1e7bcc9a);
    SeedTermIs(6, 6, 0x1e7bcc9a, 0x1e7bcc9a, 0xd78c22c2, 0xd78c22c8, 0x72e66ec6, 0xa56a4c0e);
    SeedTermIs(7, 7, 0xa56a4c0e, 0xa56a4c0c, 0x49f66cbc, 0x49f66cc3, 0x9630ce79, 0xdfc6a2ba);
    NextIs(0xe91e498a, 0x1e7bcc9a, 0xa56a4c0e, 0xdfc6a2ba, 0x8f7011ee, 0xfc78ff1f,
           0x691e498a, 0x77658510, 0xd20fc91e, 0x76105b22, 0xb025f3e7, 0xc635a8c5, 0xd6a31400, 0xa0b34f22);
    StepsStep(Status(0xe91e498a, 0x1e7bcc9a, 0xa56a4c0e, 0xdfc6a2ba), 0x8f7011ee, 0xfc78ff1f, 0);
    NextIs(0x1e7bcc9a, 0x2a1a5de0, 0x5ccbb03d, 0xc635a8c5, 0x8f7011ee, 0xfc78ff1f,
           0x1e7bcc9a, 0x3461917a, 0x68aa2147, 0xb9fe63c9, 0xa52f7ca7, 0x1cd11f6e, 0x447db800, 0xfd83dbc9);
    StepsStep(Status(0xe91e498a, 0x1e7bcc9a, 0xa56a4c0e, 0xdfc6a2ba), 0x8f7011ee, 0xfc78ff1f, 1);
    NextIs(0x2a1a5de0, 0x5ccbb03d, 0xfd83dbc9, 0x1cd11f6e, 0x8f7011ee, 0xfc78ff1f,
           0x2a1a5de0, 0x76d1eddd, 0x8b523614, 0x9df65a3c, 0x12b990d9, 0x8f4fcae5, 0x3f2b9400, 0xa2ddce3c);
    StepsStep(Status(0xe91e498a, 0x1e7bcc9a, 0xa56a4c0e, 0xdfc6a2ba), 0x8f7011ee, 0xfc78ff1f, 2);
    NextIs(0x5ccbb03d, 0x72f3ca27, 0x5ea53123, 0x8f4fcae5, 0x8f7011ee, 0xfc78ff1f,
           0x5ccbb03d, 0x2e387a1a, 0x709d4b39, 0x91a7dd4b, 0xc8e82f97, 0x594ff2dc, 0x3fcb7000, 0xae6cad4b);
    StepsStep(Status(0xe91e498a, 0x1e7bcc9a, 0xa56a4c0e, 0xdfc6a2ba), 0x8f7011ee, 0xfc78ff1f, 3);
    NextIs(0x72f3ca27, 0x5ea53123, 0xae6cad4b, 0x594ff2dc, 0x8f7011ee, 0xfc78ff1f,
           0x72f3ca27, 0x2c56fb04, 0x823a564f, 0x864efad1, 0x75e80bb2, 0xf3a6f163, 0x9bc58c00, 0x1d8b76d1);
    StepsStep(Status(0xe91e498a, 0x1e7bcc9a, 0xa56a4c0e, 0xdfc6a2ba), 0x8f7011ee, 0xfc78ff1f, 4);
    NextIs(0x5ea53123, 0x211cbca5, 0xe1f389ce, 0xf3a6f163, 0x8f7011ee, 0xfc78ff1f,
           0x5ea53123, 0x7fb98d86, 0x9e4a0448, 0xa2de0cd8, 0x8a7589d2, 0x28ab850a, 0xae142800, 0x0cca24d8);
    StepsStep(Status(0xe91e498a, 0x1e7bcc9a, 0xa56a4c0e, 0xdfc6a2ba), 0x8f7011ee, 0xfc78ff1f, 5);
    NextIs(0x211cbca5, 0xe1f389ce, 0x0cca24d8, 0x28ab850a, 0x8f7011ee, 0xfc78ff1f,
           0x211cbca5, 0xc0ef356b, 0xcc2511b3, 0x546f32d5, 0x3cfe478f, 0x6891755a, 0x45d56800, 0x11ba5ad5);
    StepsStep(Status(0xe91e498a, 0x1e7bcc9a, 0xa56a4c0e, 0xdfc6a2ba), 0x8f7011ee, 0xfc78ff1f, 6);
    NextIs(0xe1f389ce, 0x0cca24d8, 0x11ba5ad5, 0x6891755a, 0x8f7011ee, 0xfc78ff1f,
           0x61f389ce, 0x6d39ad16, 0x7c83f7c3, 0x85841845, 0x5cd9cff7, 0xd95dd7b2, 0x775ec800, 0xf2dad045);
    StepsStep(Status(0xe91e498a, 0x1e7bcc9a, 0xa56a4c0e, 0xdfc6a2ba), 0x8f7011ee, 0xfc78ff1f, 7);
  }

  lemma {:induction false} IniFuncsAre(x: bv32, mixed: bv32, r: bv32)
    requires mixed == x ^ (x >> 27)
    ensures r == mixed * 1664525 ==> IniFunc1(x) == r
    ensures r == mixed * 1566083941 ==> IniFunc2(x) == r
  {
    hide Factor1, Factor2, Xor, Shr;
    MixedIs27(x);
    ProductsAre(mixed);
  }

  lemma {:induction false} MixedIs27(x: bv32)
    ensures Xor(x, Shr(x, 27)) == x ^ (x >> 27)
  {
  }

  /** One key round with its values at hand; the words are those at i and the three places behind it. */
  lemma {:induction false} Round1By(w: seq<bv32>, i: nat, add: bv32, a: bv32, b: bv32, c: bv32, d: bv32,
                                    p: bv32, x: bv32, mixed: bv32, r: bv32, a': bv32, b': bv32, c': bv32)
    requires |w| == 4 && i < 4 && w[i] == a && w[(i + 1) % 4] == b && w[(i + 2) % 4] == c && w[(i + 3) % 4] == d
    requires p == a ^ b && x == p ^ d && mixed == x ^ (x >> 27) && r == mixed * 1664525
    requires a' == r + add && b' == b + r && c' == c + a'
    ensures var v := Round1(w, i, add);
            v[i] == a' && v[(i + 1) % 4] == b' && v[(i + 2) % 4] == c' && v[(i + 3) % 4] == d
  {
    hide *;
    Round1Words(w, i, add);
    SumIs(a, b, p);
    SumIs(p, d, x);
    IniFuncsAre(x, mixed, r);
    SumsAre(r, add);
    SumsAre(b, r);
    SumsAre(c, a');
  }

  lemma {:induction false} Round2By(w: seq<bv32>, i: nat, k: bv32, a: bv32, b: bv32, c: bv32, d: bv32,
                                    p: bv32, x: bv32, mixed: bv32, r: bv32, a': bv32, b': bv32, c': bv32)
    requires |w| == 4 && i < 4 && w[i] == a && w[(i + 1) % 4] == b && w[(i + 2) % 4] == c && w[(i + 3) % 4] == d
    requires p == a + b && x == p + d && mixed == x ^ (x >> 27) && r == mixed * 1566083941
    requires Small(i) == k && a' == r - k && b' == b ^ r && c' == c ^ a'
    ensures var v := Round2(w, i);
            v[i] == a' && v[(i + 1) % 4] == b' && v[(i + 2) % 4] == c' && v[(i + 3) % 4] == d
  {
    hide *;
    Round2Words(w, i);
    SumsAre(a, b);
    SumsAre(p, d);
    IniFuncsAre(x, mixed, r);
    SumsAre(r, k);
    SumIs(b, r, b');
    SumIs(c, a', c');
  }

  lemma {:induction false} KeyOneFirst()
    ensures var v := KeyRounds([0, 0x8f7011ee, 0xfc78ff1f, 0x3793fdff], [1], 0);
            v[0] == 0x4033604f && v[1] == 0xcfa3723c && v[2] == 0x3cac5f6e && v[3] == 0x3793fdff
  {
    var w, key := [0, 0x8f7011ee, 0xfc78ff1f, 0x3793fdff], [1 as bv32];
    hide *;
    Smalls();
    SmallZero();
    KeyRoundsStep(w, key, 0);
    Round1By(w, 0, 0x00000001, 0x00000000, 0x8f7011ee, 0xfc78ff1f, 0x3793fdff,
             0x8f7011ee, 0xb8e3ec11, 0xb8e3ec06, 0x4033604e, 0x4033604f, 0xcfa3723c, 0x3cac5f6e);
  }

  lemma {:induction false} KeyOneStart()
    ensures var v := KeyRounds([0, 0x8f7011ee, 0xfc78ff1f, 0x3793fdff], [1], 3);
            v[0] == 0xd65404d4 && v[1] == 0x4a2e21f4 && v[2] == 0xf2c7ce25 && v[3] == 0xa358d663
  {
    hide *;
    var w, key := [0, 0x8f7011ee, 0xfc78ff1f, 0x3793fdff], [1 as bv32];
    Smalls();
    SumsAre(1, 1);
    KeyOneFirst();
    KeyRoundIs(w, key, 1, 1, 0x00000002);
    Round1By(KeyRounds(w, key, 0), 1, 0x00000002, 0xcfa3723c, 0x3cac5f6e, 0x3793fdff, 0x4033604f,
             0xf30f2d52, 0xb33c4d1d, 0xb33c4d0b, 0xa6d54b8f, 0xa6d54b91, 0xe381aafd, 0xde694990);
    KeyRoundIs(w, key, 2, 2, 0x00000002);
    Round1By(KeyRounds(w, key, 1), 2, 0x00000002, 0xe381aafd, 0xde694990, 0x4033604f, 0xa6d54b91,
             0x3de8e36d, 0x9b3da8fc, 0x9b3da8ef, 0xf2c7ce23, 0xf2c7ce25, 0xd13117b3, 0x32fb2e74);
    KeyRoundIs(w, key, 3, 3, 0x00000003);
    Round1By(KeyRounds(w, key, 2), 3, 0x00000003, 0xd13117b3, 0x32fb2e74, 0xa6d54b91, 0xf2c7ce25,
             0xe3ca39c7, 0x110df7e2, 0x110df7e0, 0xa358d660, 0xa358d663, 0xd65404d4, 0x4a2e21f4);
  }

  /** The same parameters with the one-word key 1: the words after the key rounds, and after the final ones. */
  lemma {:induction false} KeyOneRounds()
    ensures var v := KeyRounds([0, 0x8f7011ee, 0xfc78ff1f, 0x3793fdff], [1], 7);
            v[0] == 0x15e937da && v[1] == 0x8de70c30 && v[2] == 0x1a8b9208 && v[3] == 0x18063361
  {
    hide *;
    var w, key := [0, 0x8f7011ee, 0xfc78ff1f, 0x3793fdff], [1 as bv32];
    Smalls();
    SmallZero();
    KeyOneStart();
    KeyRoundIs(w, key, 4, 0, 0x00000000);
    Round1By(KeyRounds(w, key, 3), 0, 0x00000000, 0xd65404d4, 0x4a2e21f4, 0xf2c7ce25, 0xa358d663,
             0x9c7a2520, 0x3f22f343, 0x3f22f344, 0xe3577274, 0xe3577274, 0x2d859468, 0xd61f4099);
    KeyRoundIs(w, key, 5, 1, 0x00000001);
    Round1By(KeyRounds(w, key, 4), 1, 0x00000001, 0x2d859468, 0xd61f4099, 0xa358d663, 0xe3577274,
             0xfb9ad4f1, 0x18cda685, 0x18cda686, 0x75e0d8ce, 0x75e0d8cf, 0x4c001967, 0x1939af32);
    KeyRoundIs(w, key, 6, 2, 0x00000002);
    Round1By(KeyRounds(w, key, 5), 2, 0x00000002, 0x4c001967, 0x1939af32, 0xe3577274, 0x75e0d8cf,
             0x5539b655, 0x20d96e9a, 0x20d96e9e, 0x1a8b9206, 0x1a8b9208, 0x33c54138, 0xfde3047c);
    KeyRoundIs(w, key, 7, 3, 0x00000003);
    Round1By(KeyRounds(w, key, 6), 3, 0x00000003, 0x33c54138, 0xfde3047c, 0x75e0d8cf, 0x1a8b9208,
             0xce264544, 0xd4add74c, 0xd4add756, 0x1806335e, 0x18063361, 0x15e937da, 0x8de70c30);
  }

  lemma {:induction false} SmallZero()
    ensures Small(0) == 0
  {
  }

  lemma {:induction false} KeyOne(v: seq<bv32>)
    requires |v| == 4 && v[0] == 0x15e937da && v[1] == 0x8de70c30 && v[2] == 0x1a8b9208 && v[3] == 0x18063361
    ensures var r := FinalRounds(v, 0, 4); r[0] == 0x61c8f95b && r[1] == 0x0c14149e && r[2] == 0x1215610f && r[3] == 0xdec0efb5
  {
    hide *;
    Smalls();
    SmallZero();
    FinalRoundsStep(v, 0, 0);
    Round2By(FinalRounds(v, 0, 0), 0, 0, 0x15e937da, 0x8de70c30, 0x1a8b9208, 0x18063361,
             0xa3d0440a, 0xbbd6776b, 0xbbd6777c, 0xad1d77ec, 0xad1d77ec, 0x20fa7bdc, 0xb796e5e4);
    FinalRoundsStep(v, 0, 1);
    Round2By(FinalRounds(v, 0, 1), 1, 1, 0x20fa7bdc, 0xb796e5e4, 0x18063361, 0xad1d77ec,
             0xd89161c0, 0x85aed9ac, 0x85aed9bc, 0xd2d4fb2c, 0xd2d4fb2b, 0x65421ec8, 0xcad2c84a);
    FinalRoundsStep(v, 0, 2);
    Round2By(FinalRounds(v, 0, 2), 2, 2, 0x65421ec8, 0xcad2c84a, 0xad1d77ec, 0xd2d4fb2b,
             0x3014e712, 0x02e9e23d, 0x02e9e23d, 0x12156111, 0x1215610f, 0xd8c7a95b, 0xbf0816e3);
    FinalRoundsStep(v, 0, 3);
    Round2By(FinalRounds(v, 0, 3), 3, 3, 0xd8c7a95b, 0xbf0816e3, 0xd2d4fb2b, 0x1215610f,
             0x97cfc03e, 0xa9e5214d, 0xa9e52158, 0xdec0efb8, 0xdec0efb5, 0x61c8f95b, 0x0c14149e);
  }

  /** Both together are what initialisation makes of this key. */
  lemma {:induction false} KeyOneMixed()
    ensures var r := Mixed([1], 0x8f7011ee, 0xfc78ff1f, 0x3793fdff);
            r[0] == 0x61c8f95b && r[1] == 0x0c14149e && r[2] == 0x1215610f && r[3] == 0xdec0efb5
  {
    hide *;
    KeyOneRounds();
    ShortKeyMixed([1], 0x8f7011ee, 0xfc78ff1f, 0x3793fdff);
    KeyOne(KeyRounds([0, 0x8f7011ee, 0xfc78ff1f, 0x3793fdff], [1], 7));
  }

  lemma {:induction false} ShortKeyMixed(key: seq<bv32>, m1: bv32, m2: bv32, t: bv32)
    requires |key| <= 7
    ensures Mixed(key, m1, m2, t) == FinalRounds(KeyRounds([0, m1, m2, t], key, 7), 0, 4)
  {
    hide KeyRounds, FinalRounds;
  }

  lemma {:induction false} FinalRoundsStep(w: seq<bv32>, start: nat, n: nat)
    requires |w| == 4
    ensures FinalRounds(w, start, 0) == w
    ensures FinalRounds(w, start, n + 1) == Round2(FinalRounds(w, start, n), (start + n) % 4)
  {
    hide Round2;
  }

  class TinyMt32 {
    const status: array<bv32>
    const mat1: bv32
    const mat2: bv32
    const tmat: bv32

    ghost predicate Valid()
      reads this
    {
      status.Length == 4
    }

    function State(): Status
      reads this, status
      requires Valid()
    {
      Status(status[0], status[1], status[2], status[3])
    }

    constructor (m1: bv32, m2: bv32, t: bv32)
      ensures Valid() && mat1 == m1 && mat2 == m2 && tmat == t && fresh(status)
    {
      status := new bv32[4](_ => 0);
      mat1, mat2, tmat := m1, m2, t;
    }

    method NextState()
      requires Valid()
      modifies status
      ensures State() == Next(old(State()), mat1, mat2)
    {
      hide And, Shl, Shr, Feedback;
      var y := status[3];
      var x := Xor(Xor(And(status[0], MASK), status[1]), status[2]);
      x := Xor(x, Shl(x, 1));
      y := Xor(Xor(y, Shr(y, 1)), x);
      status[0] := status[1];
      status[1] := status[2];
      status[2] := Xor(x, Shl(y, 10));
      status[3] := y;
      status[1] := Xor(status[1], Feedback(y, mat1));
      status[2] := Xor(status[2], Feedback(y, mat2));
    }

    method PeriodCertification()
      requires Valid()
      modifies status
      ensures State() == Certified(old(State()))
    {
      hide And;
      if And(status[0], MASK) == 0 && status[1] == 0 && status[2] == 0 && status[3] == 0 {
        status[0] := 'T' as bv32;
        status[1] := 'I' as bv32;
        status[2] := 'N' as bv32;
        status[3] := 'Y' as bv32;
      }
    }

    /** The warm-up after either initialisation. */
    method WarmUp()
      requires Valid()
      modifies status
      ensures State() == Steps(Certified(old(State())), mat1, mat2, PRE_LOOP)
      ensures !IsZero(State())
    {
      hide Next, Certified, IsZero;
      PeriodCertification();
      ghost var s := State();
      for i := 0 to PRE_LOOP
        invariant State() == Steps(s, mat1, mat2, i)
      {
        NextState();
      }
      StepsInjective(s, s, mat1, mat2, PRE_LOOP);
    }

    method Init(seed: bv32)
      requires Valid()
      modifies status
      ensures State() == InitState(seed, mat1, mat2, tmat)
      ensures !IsZero(State())
    {
      hide Xor, SeedTerm, Steps, Certified, IsZero;
      status[0], status[1], status[2], status[3] := seed, mat1, mat2, tmat;
      ghost var w := status[..];
      assert w == [seed, mat1, mat2, tmat];
      for i := 1 to MIN_LOOP
        invariant status[..] == SeedRounds(w, i - 1)
      {
        var before := status[(i - 1) % 4];
        status[i % 4] := Xor(status[i % 4], SeedTerm(i, before));
      }
      WarmUp();
    }

    method MixRound1(i: nat, add: bv32)
      requires Valid() && i < 4
      modifies status
      ensures status[..] == Round1(old(status[..]), i, add)
    {
      hide IniFunc1, Plus, Xor;
      var r := IniFunc1(Xor(Xor(status[i], status[(i + 1) % 4]), status[(i + 3) % 4]));
      status[(i + 1) % 4] := Plus(status[(i + 1) % 4], r);
      r := Plus(r, add);
      status[(i + 2) % 4] := Plus(status[(i + 2) % 4], r);
      status[i] := r;
    }

    method MixRound2(i: nat)
      requires Valid() && i < 4
      modifies status
      ensures status[..] == Round2(old(status[..]), i)
    {
      hide IniFunc2, Small, Plus, Minus, Xor;
      var r := IniFunc2(Plus(Plus(status[i], status[(i + 1) % 4]), status[(i + 3) % 4]));
      status[(i + 1) % 4] := Xor(status[(i + 1) % 4], r);
      r := Minus(r, Small(i));
      status[(i + 2) % 4] := Xor(status[(i + 2) % 4], r);
      status[i] := r;
    }

    /** The key rounds; returns the index the final rounds start at. */
    method MixKey(key: seq<bv32>) returns (i: nat)
      requires Valid()
      modifies status
      ensures status[..] == KeyRounds(old(status[..]), key, KeyRoundCount(key))
      ensures i == (KeyRoundCount(key) + 1) % 4
    {
      hide Round1, Small, Plus, KeyRounds;
      ghost var w := status[..];
      KeyRoundsStep(w, key, 0);
      var count := if |key| + 1 > MIN_LOOP then |key| + 1 else MIN_LOOP;
      MixRound1(0, Small(|key|));
      count := count - 1;
      i := 1;
      var j := 0;
      while j < count && j < |key|
        invariant j <= count && j <= |key| && i == (j + 1) % 4
        invariant status[..] == KeyRounds(w, key, j)
      {
        KeyRoundsStep(w, key, j);
        MixRound1(i, Plus(key[j], Small(i)));
        NextWord(j);
        j := j + 1;
        i := (i + 1) % 4;
      }
      while j < count
        invariant |key| <= j <= count && i == (j + 1) % 4
        invariant status[..] == KeyRounds(w, key, j)
      {
        KeyRoundsStep(w, key, j);
        MixRound1(i, Small(i));
        NextWord(j);
        j := j + 1;
        i := (i + 1) % 4;
      }
    }

    method MixFinal(start: nat)
      requires Valid() && start < 4
      modifies status
      ensures status[..] == FinalRounds(old(status[..]), start, 4)
    {
      hide Round2;
      var i := start;
      for k := 0 to 4
        invariant i == (start + k) % 4
        invariant status[..] == FinalRounds(old(status[..]), start, k)
      {
        MixRound2(i);
        i := (i + 1) % 4;
      }
    }

    method InitByArray(key: seq<bv32>)
      requires Valid()
      modifies status
      ensures State() == Steps(Certified(FromWords(Mixed(key, mat1, mat2, tmat))), mat1, mat2, PRE_LOOP)
      ensures !IsZero(State())
    {
      hide KeyRounds, FinalRounds, Steps, Certified, IsZero;
      status[0], status[1], status[2], status[3] := 0, mat1, mat2, tmat;
      assert status[..] == [0, mat1, mat2, tmat];
      var i := MixKey(key);
      MixFinal(i);
      WarmUp();
    }
  }
}
