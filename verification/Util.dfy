/** Small definitions shared by the component models. */
module Util {

  type byte = x: int | 0 <= x < 256

  datatype Option<+T> = None | Some(value: T)

  function Min(a: int, b: int): int {
    if a <= b then a else b
  }

  function Max(a: int, b: int): int {
    if a >= b then a else b
  }

  function Zeros(n: nat): (z: seq<byte>)
    ensures |z| == n && forall i :: 0 <= i < n ==> z[i] == 0
  {
    seq(n, i => 0)
  }

  lemma {:induction false} SliceOfTail<T>(s: seq<T>, a: nat, lo: nat, hi: nat)
    requires lo <= hi && a + hi <= |s|
    ensures s[a..][lo..hi] == s[a + lo..a + hi]
  {
  }

  lemma {:induction false} TakeOfSlice<T>(s: seq<T>, lo: nat, hi: nat, k: nat)
    requires lo + k <= hi <= |s|
    ensures s[lo..hi][..k] == s[lo..lo + k]
  {
  }

  lemma {:induction false} JoinSlices<T>(s: seq<T>, lo: nat, mid: nat, hi: nat)
    requires lo <= mid <= hi <= |s|
    ensures s[lo..mid] + s[mid..hi] == s[lo..hi]
  {
  }

  lemma {:induction false} Associate<T>(a: seq<T>, b: seq<T>, c: seq<T>)
    ensures a + b + c == a + (b + c)
  {
  }

  /** Concatenation of a sequence of sequences. */
  function Flatten<T>(ss: seq<seq<T>>): seq<T> {
    if ss == [] then [] else ss[0] + Flatten(ss[1..])
  }

  lemma {:induction false} FlattenStep<T>(x: seq<T>, ss: seq<seq<T>>)
    ensures Flatten([x] + ss) == x + Flatten(ss) && Flatten<T>([]) == []
  {
    assert ([x] + ss)[1..] == ss;
  }

  lemma {:induction false} FlattenConcat<T>(a: seq<seq<T>>, b: seq<seq<T>>)
    ensures Flatten(a + b) == Flatten(a) + Flatten(b)
  {
    hide Flatten;
    if a == [] {
      FlattenStep<T>([], []);
      assert a + b == b;
    } else {
      var x, rest := a[0], a[1..];
      FlattenConcat(rest, b);
      FlattenStep(x, rest);
      FlattenStep(x, rest + b);
      assert a == [x] + rest && a + b == [x] + (rest + b);
      assert x + Flatten(rest) + Flatten(b) == x + (Flatten(rest) + Flatten(b));
    }
  }

  lemma {:induction false} FlattenSnoc<T>(a: seq<seq<T>>, x: seq<T>)
    ensures Flatten(a + [x]) == Flatten(a) + x
  {
    FlattenConcat(a, [x]);
    assert [x][1..] == [] && Flatten([x]) == x;
  }

  /** The text of a C string: what comes before the first NUL. */
  function CString(b: seq<char>): string {
    if b == [] || b[0] == '\0' then "" else [b[0]] + CString(b[1..])
  }

  lemma {:induction false} CStringIs(b: seq<char>)
    requires '\0' in b
    ensures var s := CString(b); |s| < |b| && b[..|s|] == s && b[|s|] == '\0' && '\0' !in s
  {
    if b[0] != '\0' {
      assert '\0' in b[1..];
      CStringIs(b[1..]);
    }
  }

  lemma {:induction false} CStringUnique(b: seq<char>, n: nat)
    requires n < |b| && b[n] == '\0' && '\0' !in b[..n]
    ensures CString(b) == b[..n]
    decreases n
  {
    if n > 0 {
      assert b[0] == b[..n][0] != '\0';
      assert b[1..][..n - 1] == b[..n][1..];
      CStringUnique(b[1..], n - 1);
    }
  }
}
