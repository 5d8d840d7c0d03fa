/** Integer printing of efilib.cpp. */
module IntegerText {

  const TWO_31 := 0x8000_0000
  const TWO_32 := 0x1_0000_0000
  const BUFFER_LENGTH := 10

  function DigitChar(digit: nat): (c: char)
    requires digit < 16
  {
    if digit < 10 then '0' + digit as char else 'a' + (digit - 10) as char
  }

  function DigitValue(c: char): nat {
    if '0' <= c <= '9' then (c - '0') as nat
    else if 'a' <= c <= 'f' then (c - 'a') as nat + 10
    else 0
  }

  /** The digits of a number, most significant first. */
  function Digits(num: nat, radix: nat): (s: seq<char>)
    requires 2 <= radix <= 16
    ensures s != []
  {
    if num < radix then [DigitChar(num)] else Digits(num / radix, radix) + [DigitChar(num % radix)]
  }

  /** What a reader makes of digits. */
  function Value(s: seq<char>, radix: nat): int {
    if s == [] then 0 else Value(s[..|s| - 1], radix) * radix + DigitValue(s[|s| - 1])
  }

  /** The text of a signed number, and back. */
  function Text(num: int): seq<char> {
    if num < 0 then ['-'] + Digits(-num, 10) else Digits(num, 10)
  }

  function ParseInt(s: seq<char>): int {
    if s != [] && s[0] == '-' then -Value(s[1..], 10) else Value(s, 10)
  }

  lemma {:induction false} Division(n: nat, radix: nat)
    requires 2 <= radix <= 16
    ensures n / radix * radix + n % radix == n && n / radix <= n
    ensures n / radix == 0 <==> n < radix
    ensures 0 < n ==> n / radix < n
    ensures 10 <= radix ==> n / radix <= n / 10
  {
    var q := n / radix;
    assert n == radix * q + n % radix;
    if 10 <= radix {
      assert radix * q >= 10 * q;
    }
    if q > 0 {
      assert radix * q >= radix && radix * q >= 2 * q;
    }
  }

  lemma {:induction false} ValueSnoc(s: seq<char>, c: char, radix: nat)
    ensures Value(s + [c], radix) == Value(s, radix) * radix + DigitValue(c)
  {
    assert (s + [c])[..|s|] == s;
  }

  lemma {:induction false} DigitReads(digit: nat)
    requires digit < 16
    ensures DigitValue(DigitChar(digit)) == digit
  {
  }

  lemma {:induction false} DigitsValue(num: nat, radix: nat)
    requires 2 <= radix <= 16
    ensures Value(Digits(num, radix), radix) == num
  {
    hide DigitChar, DigitValue, Value;
    Division(num, radix);
    DigitReads(num % radix);
    if num < radix {
      ValueSnoc([], DigitChar(num), radix);
      NoValue(radix);
      assert [] + [DigitChar(num)] == [DigitChar(num)];
    } else {
      DigitsValue(num / radix, radix);
      ValueSnoc(Digits(num / radix, radix), DigitChar(num % radix), radix);
    }
  }

  lemma {:induction false} NoValue(radix: nat)
    ensures Value([], radix) == 0
  {
  }

  lemma {:induction false} DigitCharIs(digit: nat)
    requires digit < 16
    ensures DigitChar(digit) == "0123456789abcdef"[digit]
  {
  }

  lemma {:induction false} DecimalDigits(num: nat)
    ensures forall i :: 0 <= i < |Digits(num, 10)| ==> '0' <= Digits(num, 10)[i] <= '9'
  {
    hide DigitChar;
    DigitCharShape(num % 10);
    if num >= 10 {
      DecimalDigits(num / 10);
    }
  }

  lemma {:induction false} DigitCharShape(digit: nat)
    requires digit < 16
    ensures DigitChar(digit) != '-' && DigitChar(digit) != '\0'
    ensures digit > 0 <==> DigitChar(digit) != '0'
    ensures digit < 10 ==> '0' <= DigitChar(digit) <= '9'
  {
  }

  lemma {:induction false} DigitsShape(num: nat, radix: nat)
    requires 2 <= radix <= 16
    ensures num > 0 ==> Digits(num, radix)[0] != '0'
    ensures forall i :: 0 <= i < |Digits(num, radix)| ==> Digits(num, radix)[i] !in {'-', '\0'}
  {
    hide DigitChar;
    Division(num, radix);
    DigitCharShape(num % radix);
    if num >= radix {
      DigitsShape(num / radix, radix);
    }
  }

  function Pow10(n: nat): nat {
    if n == 0 then 1 else 10 * Pow10(n - 1)
  }

  lemma {:induction false} DigitsLength(num: nat, radix: nat, n: nat)
    requires 10 <= radix <= 16 && num < Pow10(n) && 0 < n
    ensures |Digits(num, radix)| <= n
  {
    if n == 1 {
      assert Pow10(1) == 10 * Pow10(0) == 10;
    } else if num >= radix {
      Division(num, radix);
      DigitsLength(num / radix, radix, n - 1);
    }
  }

  /** Every 32-bit number above the most negative one is printed so that reading the text gives it
      back, with no leading zero and in at most eleven characters. */
  lemma {:induction false} PrintedNumberReads(num: int)
    requires -TWO_31 < num < TWO_31
    ensures ParseInt(Text(num)) == num
    ensures |Text(num)| <= 11 && '\0' !in Text(num)
    ensures num != 0 ==> Text(num)[if num < 0 then 1 else 0] != '0'
    ensures num < 0 <==> Text(num)[0] == '-'
    ensures forall i :: 1 <= i < |Text(num)| ==> '0' <= Text(num)[i] <= '9'
    ensures Text(0) == ['0']
  {
    var n: nat := if num < 0 then -num else num;
    DigitsValue(n, 10);
    DigitsShape(n, 10);
    DecimalDigits(n);
    TenDigits();
    DigitsLength(n, 10, BUFFER_LENGTH);
    if num < 0 {
      assert Text(num)[1..] == Digits(n, 10);
    }
  }

  lemma {:induction false} TenDigits()
    ensures Pow10(BUFFER_LENGTH) == 10_000_000_000
  {
    assert Pow10(5) == 100_000;
    assert Pow10(8) == 1000 * Pow10(5);
    assert Pow10(10) == 100 * Pow10(8);
  }

  /** Different numbers never print alike. */
  lemma {:induction false} PrintedNumbersDiffer(a: int, b: int)
    requires -TWO_31 < a < TWO_31 && -TWO_31 < b < TWO_31 && Text(a) == Text(b)
    ensures a == b
  {
    PrintedNumberReads(a);
    PrintedNumberReads(b);
  }

  // ---------- the same in a buffer ----------

  /** `s` with `t` written over it from `at` on. */
  function Overwrite(s: seq<char>, at: nat, t: seq<char>): (r: seq<char>)
    requires at + |t| <= |s|
    ensures |r| == |s|
  {
    s[..at] + t + s[at + |t|..]
  }

  lemma {:induction false} OverwriteTwice(s: seq<char>, at: nat, t: seq<char>, u: seq<char>)
    requires at + |t| + |u| <= |s|
    ensures Overwrite(Overwrite(s, at, t), at + |t|, u) == Overwrite(s, at, t + u)
  {
    var r := Overwrite(s, at, t);
    assert r[..at + |t|] == s[..at] + t;
    assert r[at + |t| + |u|..] == s[at + |t| + |u|..];
  }

  lemma {:induction false} OverwriteNothing(s: seq<char>, at: nat)
    requires at <= |s|
    ensures Overwrite(s, at, []) == s
  {
  }

  /** *p++ = c */
  method Store(p: array<char>, at: nat, c: char) returns (next: nat)
    requires at < p.Length
    modifies p
    ensures p[..] == Overwrite(old(p[..]), at, [c]) && next == at + 1
  {
    p[at] := c;
    next := at + 1;
  }

  lemma {:induction false} DigitsStep(n: nat, radix: nat, behind: seq<char>)
    requires 2 <= radix <= 16
    ensures n < radix ==> Digits(n, radix) + behind == [DigitChar(n % radix)] + behind
    ensures n >= radix ==> Digits(n, radix) + behind == Digits(n / radix, radix) + ([DigitChar(n % radix)] + behind)
  {
    hide DigitChar;
  }

  /** One digit fewer is left, and one place fewer is needed. */
  lemma {:induction false} NotFull(n: nat, radix: nat, places: nat)
    requires 10 <= radix <= 16 && radix <= n < Pow10(places)
    ensures 1 < places && n / radix < Pow10(places - 1) && n / radix < n && 0 < n / radix
  {
    Division(n, radix);
    assert Pow10(1) == 10 * Pow10(0) == 10;
  }

  /** The right-to-left loop of ltoa_internal; the digits end up in buffer[idx..]. */
  method WriteDigits(buffer: array<char>, num: nat, radix: nat) returns (idx: nat)
    requires num < TWO_32 && 10 <= radix <= 16 && buffer.Length == BUFFER_LENGTH
    modifies buffer
    ensures idx < BUFFER_LENGTH && buffer[idx..] == Digits(num, radix)
  {
    TenDigits();
    hide DigitChar, Digits, Pow10;
    idx := BUFFER_LENGTH - 1;
    var n: nat := num;
    assert Digits(n, radix) + buffer[idx + 1..] == Digits(num, radix);
    while true
      invariant 0 <= idx < BUFFER_LENGTH && n < Pow10(idx + 1)
      invariant Digits(n, radix) + buffer[idx + 1..] == Digits(num, radix)
      decreases n
    {
      ghost var behind := buffer[idx + 1..];
      DigitsStep(n, radix, behind);
      Division(n, radix);
      var c := DigitChar(n % radix);
      buffer[idx] := c;
      assert buffer[idx..] == [c] + behind;
      if n / radix == 0 {
        break;
      }
      NotFull(n, radix, idx + 1);
      idx := idx - 1;
      n := n / radix;
    }
  }

  /** ltoa_internal: digits are collected right to left in a scratch buffer that is never
      exceeded, then copied to p[at..]. */
  method LtoaInternal(p: array<char>, at: nat, num: nat, radix: nat) returns (end: nat)
    requires num < TWO_32 && 10 <= radix <= 16 && at + |Digits(num, radix)| <= p.Length
    modifies p
    ensures end == at + |Digits(num, radix)|
    ensures p[..] == Overwrite(old(p[..]), at, Digits(num, radix))
  {
    hide Digits, Overwrite;
    var buffer := new char[BUFFER_LENGTH](_ => '0');
    var idx := WriteDigits(buffer, num, radix);
    ghost var was, digits, start := p[..], buffer[..][idx..], idx;
    assert digits == Digits(num, radix);
    OverwriteNothing(was, at);
    assert digits[..0] == [];
    end := at;
    while idx < BUFFER_LENGTH
      invariant start <= idx <= BUFFER_LENGTH && end == at + idx - start
      invariant buffer[..][start..] == digits && p[..] == Overwrite(was, at, digits[..idx - start])
    {
      ghost var k := idx - start;
      assert buffer[idx] == digits[k] && digits[..k + 1] == digits[..k] + [digits[k]];
      OverwriteTwice(was, at, digits[..k], [digits[k]]);
      end := Store(p, end, buffer[idx]);
      idx := idx + 1;
    }
    assert digits[..|digits|] == digits;
  }

  method ItoaSigned(p: array<char>, at: nat, num: int) returns (end: nat)
    requires -TWO_31 < num < TWO_31 && at + |Text(num)| < p.Length
    modifies p
    ensures end == at + |Text(num)| && p[..] == Overwrite(old(p[..]), at, Text(num) + ['\0'])
  {
    hide Digits, Overwrite;
    ghost var was := p[..];
    if num < 0 {
      var next := Store(p, at, '-');
      end := LtoaInternal(p, next, -num, 10);
      OverwriteTwice(was, at, ['-'], Digits(-num, 10));
    } else {
      end := LtoaInternal(p, at, num, 10);
    }
    OverwriteTwice(was, at, Text(num), ['\0']);
    var behind := Store(p, end, '\0');
  }

  method Itoa10(p: array<char>, num: int) returns (end: nat)
    requires -TWO_31 < num < TWO_31 && |Text(num)| < p.Length
    modifies p
    ensures end == |Text(num)| < p.Length && p[end] == '\0'
    ensures p[..end] == Text(num) && ParseInt(p[..end]) == num
    ensures p[end + 1..] == old(p[end + 1..])
  {
    PrintedNumberReads(num);
    hide Text, ParseInt;
    ghost var was := p[..];
    end := ItoaSigned(p, 0, num);
    assert p[..] == Text(num) + ['\0'] + was[end + 1..];
    assert p[..end] == p[..][..end] && p[end + 1..] == p[..][end + 1..] && p[end] == p[..][end];
  }
}
