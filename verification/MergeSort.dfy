/** What the bottom-up merge sort of utlist.h computes, as functions on sequences of nodes,
    and why that is a stable sort. */
module MergeSort {
  import opened Util

  class Node<K> {
    const data: K
    var next: Node?<K>
    var prev: Node?<K>

    constructor (k: K)
      ensures data == k && next == null && prev == null
    {
      data, next, prev := k, null, null;
    }
  }

  /** The comparison macro: at most zero when the first argument may stay in front. */
  type Compare<!K> = (K, K) -> int

  ghost predicate TotalPreorder<K(!new)>(cmp: Compare<K>) {
    && (forall a, b :: cmp(a, b) <= 0 || cmp(b, a) <= 0)
    && (forall a, b, c :: cmp(a, b) <= 0 && cmp(b, c) <= 0 ==> cmp(a, c) <= 0)
  }

  function Merge<K>(p: seq<Node<K>>, q: seq<Node<K>>, cmp: Compare<K>): (r: seq<Node<K>>)
    ensures |r| == |p| + |q|
  {
    if p == [] then q
    else if q == [] then p
    else if cmp(p[0].data, q[0].data) <= 0 then [p[0]] + Merge(p[1..], q, cmp)
    else [q[0]] + Merge(p, q[1..], cmp)
  }

  /** One pass: neighbouring runs of length `k` are merged pairwise. */
  function Pass<K>(s: seq<Node<K>>, k: nat, cmp: Compare<K>): (r: seq<Node<K>>)
    requires 0 < k
    ensures |r| == |s|
  {
    if s == [] then [] else
      var a, b := Min(k, |s|), Min(2 * k, |s|);
      Merge(s[..a], s[a..b], cmp) + Pass(s[b..], k, cmp)
  }

  function SortFrom<K>(s: seq<Node<K>>, k: nat, cmp: Compare<K>): seq<Node<K>>
    requires 0 < k
    decreases |s| - k
  {
    var r := Pass(s, k, cmp);
    if |s| <= 2 * k then r else SortFrom(r, 2 * k, cmp)
  }

  function Sort<K>(s: seq<Node<K>>, cmp: Compare<K>): seq<Node<K>> {
    if s == [] then [] else SortFrom(s, 1, cmp)
  }

  // ---------- permutation ----------

  lemma {:induction false} MergePermutes<K>(p: seq<Node<K>>, q: seq<Node<K>>, cmp: Compare<K>)
    ensures multiset(Merge(p, q, cmp)) == multiset(p) + multiset(q)
  {
    if p != [] && q != [] {
      assert p == [p[0]] + p[1..] && q == [q[0]] + q[1..];
      if cmp(p[0].data, q[0].data) <= 0 {
        MergePermutes(p[1..], q, cmp);
      } else {
        MergePermutes(p, q[1..], cmp);
      }
    }
  }

  lemma {:induction false} ThreeParts<T>(s: seq<T>, a: nat, b: nat)
    requires a <= b <= |s|
    ensures s == s[..a] + s[a..b] + s[b..]
    ensures multiset(s) == multiset(s[..a]) + multiset(s[a..b]) + multiset(s[b..])
  {
    assert s == s[..a] + s[a..b] + s[b..];
  }

  lemma {:induction false} PassPermutes<K>(s: seq<Node<K>>, k: nat, cmp: Compare<K>)
    requires 0 < k
    ensures multiset(Pass(s, k, cmp)) == multiset(s)
    decreases |s|
  {
    hide Merge;
    if s != [] {
      var a, b := Min(k, |s|), Min(2 * k, |s|);
      MergePermutes(s[..a], s[a..b], cmp);
      PassPermutes(s[b..], k, cmp);
      ThreeParts(s, a, b);
    }
  }

  // ---------- order ----------

  ghost predicate Sorted<K>(s: seq<Node<K>>, cmp: Compare<K>) {
    forall i, j :: 0 <= i < j < |s| ==> cmp(s[i].data, s[j].data) <= 0
  }

  /** Every run of length `k`, counted from the front, is sorted. */
  ghost predicate Runs<K>(s: seq<Node<K>>, k: nat, cmp: Compare<K>)
    requires 0 < k
  {
    s == [] || (Sorted(s[..Min(k, |s|)], cmp) && Runs(s[Min(k, |s|)..], k, cmp))
  }

  ghost predicate AllAfter<K>(x: Node<K>, s: seq<Node<K>>, cmp: Compare<K>) {
    forall y <- multiset(s) :: cmp(x.data, y.data) <= 0
  }

  lemma {:induction false} SortedCons<K>(x: Node<K>, s: seq<Node<K>>, cmp: Compare<K>)
    requires Sorted(s, cmp) && AllAfter(x, s, cmp)
    ensures Sorted([x] + s, cmp)
  {
    forall j | 0 < j < |[x] + s| ensures cmp(x.data, ([x] + s)[j].data) <= 0 {
      assert ([x] + s)[j] == s[j - 1] && s[j - 1] in multiset(s);
    }
  }

  lemma {:induction false} HeadFirst<K(!new)>(s: seq<Node<K>>, x: Node<K>, cmp: Compare<K>)
    requires TotalPreorder(cmp) && s != [] && Sorted(s, cmp) && cmp(x.data, s[0].data) <= 0
    ensures AllAfter(x, s, cmp)
  {
    forall y <- multiset(s) ensures cmp(x.data, y.data) <= 0 {
      var j :| 0 <= j < |s| && s[j] == y;
      assert j == 0 || cmp(s[0].data, s[j].data) <= 0;
    }
  }

  lemma {:induction false} MergeHead<K(!new)>(p: seq<Node<K>>, q: seq<Node<K>>, p': seq<Node<K>>, q': seq<Node<K>>, x: Node<K>, cmp: Compare<K>)
    requires TotalPreorder(cmp) && p != [] && q != [] && Sorted(p, cmp) && Sorted(q, cmp)
    requires multiset(p') <= multiset(p) && multiset(q') <= multiset(q)
    requires cmp(x.data, p[0].data) <= 0 && cmp(x.data, q[0].data) <= 0
    ensures AllAfter(x, Merge(p', q', cmp), cmp)
  {
    hide Merge, TotalPreorder, Sorted;
    MergePermutes(p', q', cmp);
    HeadFirst(p, x, cmp);
    HeadFirst(q, x, cmp);
    forall y <- multiset(Merge(p', q', cmp)) ensures cmp(x.data, y.data) <= 0 {
      assert y in multiset(p') || y in multiset(q');
    }
  }

  lemma {:induction false} MergeSorted<K(!new)>(p: seq<Node<K>>, q: seq<Node<K>>, cmp: Compare<K>)
    requires TotalPreorder(cmp) && Sorted(p, cmp) && Sorted(q, cmp)
    ensures Sorted(Merge(p, q, cmp), cmp)
  {
    if p != [] && q != [] {
      var x, p', q' := p[0], p, q;
      assert p == [p[0]] + p[1..] && q == [q[0]] + q[1..];
      assert cmp(p[0].data, p[0].data) <= 0 && cmp(q[0].data, q[0].data) <= 0;
      if cmp(p[0].data, q[0].data) <= 0 {
        p' := p[1..];
      } else {
        x, q' := q[0], q[1..];
      }
      MergeSorted(p', q', cmp);
      MergeHead(p, q, p', q', x, cmp);
      SortedCons(x, Merge(p', q', cmp), cmp);
    }
  }

  lemma {:induction false} PassRuns<K(!new)>(s: seq<Node<K>>, k: nat, cmp: Compare<K>)
    requires TotalPreorder(cmp) && 0 < k && Runs(s, k, cmp)
    ensures Runs(Pass(s, k, cmp), 2 * k, cmp)
    decreases |s|
  {
    hide TotalPreorder, Sorted, Merge;
    if s != [] {
      var a, b := Min(k, |s|), Min(2 * k, |s|);
      assert a < |s| ==> s[a..][..Min(k, |s| - a)] == s[a..b] && s[a..][Min(k, |s| - a)..] == s[b..];
      assert a == |s| ==> s[a..b] == [] && s[b..] == [];
      MergeSorted(s[..a], s[a..b], cmp);
      PassRuns(s[b..], k, cmp);
      var m, rest := Merge(s[..a], s[a..b], cmp), Pass(s[b..], k, cmp);
      assert (m + rest)[..b] == m && (m + rest)[b..] == rest;
    }
  }

  // ---------- stability ----------

  predicate Equivalent<K>(a: K, b: K, cmp: Compare<K>) {
    cmp(a, b) <= 0 && cmp(b, a) <= 0
  }

  /** The nodes that compare equal to `x`, in order. */
  function Class<K>(s: seq<Node<K>>, x: K, cmp: Compare<K>): seq<Node<K>> {
    if s == [] then []
    else (if Equivalent(s[0].data, x, cmp) then [s[0]] else []) + Class(s[1..], x, cmp)
  }

  lemma {:induction false} ClassCons<K>(y: Node<K>, s: seq<Node<K>>, x: K, cmp: Compare<K>)
    ensures Class([y] + s, x, cmp) == (if Equivalent(y.data, x, cmp) then [y] else []) + Class(s, x, cmp)
  {
    assert ([y] + s)[1..] == s;
  }

  lemma {:induction false} ClassConcat<K>(s: seq<Node<K>>, t: seq<Node<K>>, x: K, cmp: Compare<K>)
    ensures Class(s + t, x, cmp) == Class(s, x, cmp) + Class(t, x, cmp)
  {
    if s == [] {
      assert s + t == t;
    } else {
      hide Class;
      ClassConcat(s[1..], t, x, cmp);
      ClassCons(s[0], s[1..], x, cmp);
      ClassCons(s[0], s[1..] + t, x, cmp);
      assert s == [s[0]] + s[1..] && s + t == [s[0]] + (s[1..] + t);
    }
  }

  /** A node that had to be taken from behind belongs to a class that has no member in front. */
  lemma {:induction false} NoneInFront<K(!new)>(p: seq<Node<K>>, y: K, x: K, cmp: Compare<K>)
    requires TotalPreorder(cmp) && Sorted(p, cmp)
    requires p != [] ==> cmp(p[0].data, y) > 0
    requires Equivalent(y, x, cmp)
    ensures Class(p, x, cmp) == []
  {
    if p != [] {
      assert cmp(x, y) <= 0;
      assert !Equivalent(p[0].data, x, cmp);
      if |p| > 1 {
        assert p[1..][0] == p[1] && cmp(p[0].data, p[1].data) <= 0;
      }
      NoneInFront(p[1..], y, x, cmp);
    }
  }

  lemma {:induction false} EmptyClass<K>(x: K, cmp: Compare<K>)
    ensures Class([], x, cmp) == []
  {
  }

  lemma {:induction false} TakeFront<K>(p: seq<Node<K>>, q: seq<Node<K>>, m: seq<Node<K>>, x: K, cmp: Compare<K>)
    requires p != [] && Class(m, x, cmp) == Class(p[1..], x, cmp) + Class(q, x, cmp)
    ensures Class([p[0]] + m, x, cmp) == Class(p, x, cmp) + Class(q, x, cmp)
  {
    hide Class;
    ClassCons(p[0], m, x, cmp);
    ClassCons(p[0], p[1..], x, cmp);
    assert p == [p[0]] + p[1..];
  }

  lemma {:induction false} TakeBehind<K>(p: seq<Node<K>>, q: seq<Node<K>>, m: seq<Node<K>>, x: K, cmp: Compare<K>)
    requires q != [] && Class(m, x, cmp) == Class(p, x, cmp) + Class(q[1..], x, cmp)
    requires Equivalent(q[0].data, x, cmp) ==> Class(p, x, cmp) == []
    ensures Class([q[0]] + m, x, cmp) == Class(p, x, cmp) + Class(q, x, cmp)
  {
    hide Class;
    ClassCons(q[0], m, x, cmp);
    ClassCons(q[0], q[1..], x, cmp);
    assert q == [q[0]] + q[1..];
  }

  lemma {:induction false} MergeStable<K(!new)>(p: seq<Node<K>>, q: seq<Node<K>>, x: K, cmp: Compare<K>)
    requires TotalPreorder(cmp) && Sorted(p, cmp)
    ensures Class(Merge(p, q, cmp), x, cmp) == Class(p, x, cmp) + Class(q, x, cmp)
  {
    hide TotalPreorder, Class, Equivalent;
    if p == [] || q == [] {
      EmptyClass(x, cmp);
    } else if cmp(p[0].data, q[0].data) <= 0 {
      MergeStable(p[1..], q, x, cmp);
      TakeFront(p, q, Merge(p[1..], q, cmp), x, cmp);
    } else {
      MergeStable(p, q[1..], x, cmp);
      if Equivalent(q[0].data, x, cmp) {
        NoneInFront(p, q[0].data, x, cmp);
      }
      TakeBehind(p, q, Merge(p, q[1..], cmp), x, cmp);
    }
  }

  lemma {:induction false} ClassThree<K>(m: seq<Node<K>>, n: seq<Node<K>>, p: seq<Node<K>>, q: seq<Node<K>>, r: seq<Node<K>>, x: K, cmp: Compare<K>)
    requires Class(m, x, cmp) == Class(p, x, cmp) + Class(q, x, cmp)
    requires Class(n, x, cmp) == Class(r, x, cmp)
    ensures Class(m + n, x, cmp) == Class(p + q + r, x, cmp)
  {
    hide Class;
    ClassConcat(m, n, x, cmp);
    ClassConcat(p + q, r, x, cmp);
    ClassConcat(p, q, x, cmp);
  }

  lemma {:induction false} PassStable<K(!new)>(s: seq<Node<K>>, k: nat, x: K, cmp: Compare<K>)
    requires TotalPreorder(cmp) && 0 < k && Runs(s, k, cmp)
    ensures Class(Pass(s, k, cmp), x, cmp) == Class(s, x, cmp)
    decreases |s|
  {
    hide Class, Merge, TotalPreorder;
    if s != [] {
      var a, b := Min(k, |s|), Min(2 * k, |s|);
      if a < |s| {
        assert s[a..][Min(k, |s| - a)..] == s[b..];
      } else {
        assert s[b..] == [];
      }
      MergeStable(s[..a], s[a..b], x, cmp);
      PassStable(s[b..], k, x, cmp);
      ThreeParts(s, a, b);
      ClassThree(Merge(s[..a], s[a..b], cmp), Pass(s[b..], k, cmp), s[..a], s[a..b], s[b..], x, cmp);
    }
  }

  // ---------- the whole sort ----------

  ghost predicate SortOf<K(!new)>(r: seq<Node<K>>, s: seq<Node<K>>, cmp: Compare<K>) {
    && Sorted(r, cmp)
    && multiset(r) == multiset(s)
    && forall x :: Class(r, x, cmp) == Class(s, x, cmp)
  }

  lemma {:induction false} SortFromCorrect<K(!new)>(s: seq<Node<K>>, k: nat, cmp: Compare<K>)
    requires TotalPreorder(cmp) && 0 < k && Runs(s, k, cmp)
    ensures SortOf(SortFrom(s, k, cmp), s, cmp)
    decreases |s| - k
  {
    var r := Pass(s, k, cmp);
    PassPermutes(s, k, cmp);
    PassRuns(s, k, cmp);
    forall x ensures Class(r, x, cmp) == Class(s, x, cmp) {
      PassStable(s, k, x, cmp);
    }
    if |s| <= 2 * k {
      assert r != [] ==> r[..Min(2 * k, |r|)] == r;
    } else {
      SortFromCorrect(r, 2 * k, cmp);
    }
  }

  lemma {:induction false} UnitRuns<K>(s: seq<Node<K>>, cmp: Compare<K>)
    ensures Runs(s, 1, cmp)
  {
    if s != [] {
      UnitRuns(s[1..], cmp);
    }
  }

  /** For every comparison that is a total preorder the result is sorted, is made of the same
      nodes, and keeps nodes that compare equal in their original order. */
  lemma {:induction false} SortCorrect<K(!new)>(s: seq<Node<K>>, cmp: Compare<K>)
    requires TotalPreorder(cmp)
    ensures SortOf(Sort(s, cmp), s, cmp)
  {
    if s != [] {
      UnitRuns(s, cmp);
      SortFromCorrect(s, 1, cmp);
    }
  }
}
