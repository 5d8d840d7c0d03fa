/** LL_SORT2 and DL_SORT2 of utlist.h: the in-place sorts. They differ only in the `prev`
    assignments, so one method with a flag stands for both. */
module ListSort {
  import opened Util
  import opened MergeSort

  ghost predicate Distinct<T>(s: seq<T>) {
    forall i, j :: 0 <= i < j < |s| ==> s[i] != s[j]
  }

  /** The node at an index, or the null that ends the list. */
  ghost function At<K>(s: seq<Node<K>>, i: nat): Node?<K> {
    if i < |s| then s[i] else null
  }

  /** `head` is a null-terminated list of exactly these nodes. */
  ghost predicate IsList<K>(head: Node?<K>, s: seq<Node<K>>)
    reads s
  {
    && Distinct(s) && head == At(s, 0)
    && forall i :: 0 <= i < |s| ==> s[i].next == At(s, i + 1)
  }

  /** Each node points back to its predecessor, the first one to the last. */
  ghost predicate BackLinked<K>(s: seq<Node<K>>)
    reads s
  {
    forall i :: 0 <= i < |s| ==> s[i].prev == if i == 0 then s[|s| - 1] else s[i - 1]
  }

  /** The output so far: linked up to `tail`, whose `next` is still stale. */
  ghost predicate Built<K>(list: Node?<K>, tail: Node?<K>, out: seq<Node<K>>, doubly: bool)
    reads out
  {
    && Distinct(out)
    && (out == [] ==> list == null && tail == null)
    && (out != [] ==> list == out[0] && tail == out[|out| - 1])
    && (forall i :: 0 <= i < |out| - 1 ==> out[i].next == out[i + 1])
    && (doubly ==> forall i :: 1 <= i < |out| ==> out[i].prev == out[i - 1])
  }

  /** The nodes `s[from..to]` and where they are still linked as in the original list. */
  ghost predicate Untouched<K>(s: seq<Node<K>>, from: nat, to: nat)
    requires to <= |s|
    reads s
  {
    forall i :: from <= i < to ==> s[i].next == At(s, i + 1)
  }

  ghost predicate Apart<K>(out: seq<Node<K>>, s: seq<Node<K>>, from: nat, to: nat)
    requires to <= |s|
  {
    forall i, j :: 0 <= i < |out| && from <= j < to ==> out[i] != s[j]
  }

  ghost predicate Within<K>(s: seq<Node<K>>, nodes: set<Node<K>>) {
    forall i :: 0 <= i < |s| ==> s[i] in nodes
  }

  /** In the middle of merging `s[pi..mid]` with what follows `qi`. */
  ghost predicate Merging<K>(list: Node?<K>, tail: Node?<K>, out: seq<Node<K>>, doubly: bool,
                             s: seq<Node<K>>, pi: nat, mid: nat, qi: nat, nodes: set<Node<K>>)
    requires pi <= mid <= qi <= |s|
    reads out, s
  {
    && Built(list, tail, out, doubly) && Within(out, nodes)
    && Untouched(s, pi, mid) && Untouched(s, qi, |s|)
    && Apart(out, s, pi, mid) && Apart(out, s, qi, |s|)
  }

  /** Links `e`, the first node of one of the runs, behind the output. */
  method Append<K>(list: Node?<K>, tail: Node?<K>, e: Node<K>, doubly: bool, ghost out: seq<Node<K>>,
                   ghost s: seq<Node<K>>, ghost pi: nat, ghost mid: nat, ghost qi: nat, ghost fromP: bool, ghost nodes: set<Node<K>>)
    returns (list': Node?<K>)
    requires pi <= mid <= qi <= |s| && Distinct(s) && Within(s, nodes)
    requires Merging(list, tail, out, doubly, s, pi, mid, qi, nodes)
    requires if fromP then pi < mid && e == s[pi] else qi < |s| && e == s[qi]
    modifies nodes
    ensures Merging(list', e, out + [e], doubly, s, if fromP then pi + 1 else pi, mid, if fromP then qi else qi + 1, nodes)
  {
    assert e !in out;
    list' := list;
    if tail != null {
      tail.next := e;
    } else {
      list' := e;
    }
    if doubly {
      e.prev := tail;
    }
  }

  /** Where the second run starts, and how long the first one is. */
  method FindSecondRun<K>(p: Node?<K>, insize: nat, ghost s: seq<Node<K>>, ghost at: nat)
    returns (q: Node?<K>, psize: nat)
    requires at < |s| && p == s[at] && Untouched(s, at, |s|) && 0 < insize
    ensures psize == Min(insize, |s| - at) && q == At(s, at + psize)
  {
    q, psize := p, 0;
    for i := 0 to insize
      invariant psize == i <= |s| - at && q == At(s, at + i) && (i < |s| - at || i == 0)
    {
      psize := psize + 1;
      q := q.next;
      if q == null {
        break;
      }
    }
  }

  /** Which node the merge takes next. */
  lemma {:induction false} MergeTakes<K>(s: seq<Node<K>>, pi: nat, mid: nat, qi: nat, end: nat, cmp: Compare<K>)
    requires pi <= mid <= qi <= end <= |s| && (pi < mid || qi < end)
    ensures var m := Merge(s[pi..mid], s[qi..end], cmp);
            if pi < mid && (qi == end || cmp(s[pi].data, s[qi].data) <= 0)
            then m == [s[pi]] + Merge(s[pi + 1..mid], s[qi..end], cmp)
            else qi < end && m == [s[qi]] + Merge(s[pi..mid], s[qi + 1..end], cmp)
  {
    assert pi < mid ==> s[pi..mid][1..] == s[pi + 1..mid] && s[pi..mid] == [s[pi]] + s[pi + 1..mid];
    assert qi < end ==> s[qi..end][1..] == s[qi + 1..end] && s[qi..end] == [s[qi]] + s[qi + 1..end];
  }

  lemma {:induction false} Reassociate<T>(out: seq<T>, e: T, rest: seq<T>)
    ensures out + ([e] + rest) == (out + [e]) + rest
  {
  }

  /** Chooses the run to take the next node from, and advances in it. */
  method TakeNext<K>(p0: Node?<K>, q0: Node?<K>, psize0: nat, qsize0: nat, cmp: Compare<K>,
                     ghost s: seq<Node<K>>, ghost pi: nat, ghost mid: nat, ghost qi: nat, ghost end: nat)
    returns (e: Node<K>, p: Node?<K>, q: Node?<K>, psize: nat, qsize: nat, fromP: bool)
    requires pi <= mid <= qi <= end <= |s| && psize0 == mid - pi && (psize0 > 0 ==> p0 == s[pi]) && q0 == At(s, qi)
    requires end == Min(qi + qsize0, |s|) && (psize0 > 0 || (qsize0 > 0 && q0 != null))
    requires pi < mid ==> s[pi].next == At(s, pi + 1)
    requires qi < |s| ==> s[qi].next == At(s, qi + 1)
    ensures if fromP then pi < mid && e == s[pi] && p == At(s, pi + 1) && psize == psize0 - 1 && q == q0 && qsize == qsize0
            else qi < end && e == s[qi] && q == At(s, qi + 1) && 0 < qsize0 && qsize == qsize0 - 1 && p == p0 && psize == psize0
    ensures Merge(s[pi..mid], s[qi..end], cmp)
         == [e] + Merge(s[if fromP then pi + 1 else pi..mid], s[if fromP then qi else qi + 1..end], cmp)
  {
    MergeTakes(s, pi, mid, qi, end, cmp);
    hide Merge;
    p, q, psize, qsize := p0, q0, psize0, qsize0;
    if psize == 0 {
      e := q; q := q.next; qsize := qsize - 1; fromP := false;
    } else if qsize == 0 || q == null {
      e := p; p := p.next; psize := psize - 1; fromP := true;
    } else if cmp(p.data, q.data) <= 0 {
      e := p; p := p.next; psize := psize - 1; fromP := true;
    } else {
      e := q; q := q.next; qsize := qsize - 1; fromP := false;
    }
  }

  /** Merges the run of `psize` nodes at `p` with the up to `insize` nodes at `q` behind the output.
      The runs are `s[at..mid]` and `s[mid..Min(mid + insize, |s|)]`. */
  method MergeRuns<K>(list0: Node?<K>, tail0: Node?<K>, p0: Node<K>, psize0: nat, q0: Node?<K>, insize: nat,
                      cmp: Compare<K>, doubly: bool,
                      ghost s: seq<Node<K>>, ghost at: nat, ghost out0: seq<Node<K>>, ghost nodes: set<Node<K>>)
    returns (list: Node?<K>, tail: Node?<K>, q: Node?<K>, ghost out: seq<Node<K>>)
    requires Distinct(s) && 0 < psize0 && at + psize0 <= |s| && p0 == s[at] && q0 == At(s, at + psize0)
    requires Untouched(s, at, |s|) && Built(list0, tail0, out0, doubly) && Apart(out0, s, at, |s|)
    requires Within(s, nodes) && Within(out0, nodes)
    modifies nodes
    ensures var mid := at + psize0;
            var end := Min(mid + insize, |s|);
            && out == out0 + Merge(s[at..mid], s[mid..end], cmp)
            && q == At(s, end) && Built(list, tail, out, doubly)
            && Untouched(s, end, |s|) && Apart(out, s, end, |s|)
            && Within(out, nodes)
  {
    hide Merge, Merging, Built, Untouched, Apart, Within;
    ghost var mid := at + psize0;
    ghost var end := Min(mid + insize, |s|);
    ghost var pi, qi := at, mid;
    var p: Node?<K>, psize, qsize := p0, psize0, insize;
    list, tail, q, out := list0, tail0, q0, out0;
    StartMerging(list, tail, out, doubly, s, at, mid, nodes);
    while psize > 0 || (qsize > 0 && q != null)
      invariant at <= pi <= mid <= qi <= end && psize == mid - pi && qsize == mid + insize - qi
      invariant (psize > 0 ==> p == s[pi]) && q == At(s, qi)
      invariant Merging(list, tail, out, doubly, s, pi, mid, qi, nodes)
      invariant out + Merge(s[pi..mid], s[qi..end], cmp) == out0 + Merge(s[at..mid], s[mid..end], cmp)
      decreases mid - pi + end - qi
    {
      NextOf(list, tail, out, doubly, s, pi, mid, qi, nodes);
      var e, fromP;
      e, p, q, psize, qsize, fromP := TakeNext(p, q, psize, qsize, cmp, s, pi, mid, qi, end);
      list := Append(list, tail, e, doubly, out, s, pi, mid, qi, fromP, nodes);
      tail := e;
      Reassociate(out, e, Merge(s[if fromP then pi + 1 else pi..mid], s[if fromP then qi else qi + 1..end], cmp));
      out := out + [e];
      pi, qi := if fromP then pi + 1 else pi, if fromP then qi else qi + 1;
    }
    EndMerging(list, tail, out, doubly, s, mid, end, nodes);
    assert s[mid..mid] == [] && s[end..end] == [];
    MergeNothing<K>(cmp);
  }

  lemma {:induction false} StartMerging<K>(list: Node?<K>, tail: Node?<K>, out: seq<Node<K>>, doubly: bool,
                        s: seq<Node<K>>, at: nat, mid: nat, nodes: set<Node<K>>)
    requires at <= mid <= |s| && Untouched(s, at, |s|) && Apart(out, s, at, |s|)
    requires Built(list, tail, out, doubly) && Within(out, nodes)
    ensures Merging(list, tail, out, doubly, s, at, mid, mid, nodes)
  {
  }

  lemma {:induction false} NextOf<K>(list: Node?<K>, tail: Node?<K>, out: seq<Node<K>>, doubly: bool,
                  s: seq<Node<K>>, pi: nat, mid: nat, qi: nat, nodes: set<Node<K>>)
    requires pi <= mid <= qi <= |s| && Merging(list, tail, out, doubly, s, pi, mid, qi, nodes)
    ensures pi < mid ==> s[pi].next == At(s, pi + 1)
    ensures qi < |s| ==> s[qi].next == At(s, qi + 1)
  {
  }

  lemma {:induction false} EndMerging<K>(list: Node?<K>, tail: Node?<K>, out: seq<Node<K>>, doubly: bool,
                      s: seq<Node<K>>, mid: nat, end: nat, nodes: set<Node<K>>)
    requires mid <= end <= |s| && Merging(list, tail, out, doubly, s, mid, mid, end, nodes)
    ensures Built(list, tail, out, doubly) && Within(out, nodes) && Untouched(s, end, |s|) && Apart(out, s, end, |s|)
  {
  }

  lemma {:induction false} MergeNothing<K>(cmp: Compare<K>)
    ensures Merge<K>([], [], cmp) == []
  {
  }

  /** In the middle of a pass over `s`: what is before `at` was merged into the output. */
  ghost predicate Passing<K>(first: Node?<K>, tail: Node?<K>, p: Node?<K>, out: seq<Node<K>>, doubly: bool,
                             s: seq<Node<K>>, at: nat, insize: nat, cmp: Compare<K>, nodes: set<Node<K>>)
    requires 0 < insize
    reads out, s
  {
    && at <= |s| && p == At(s, at) && Distinct(s) && Within(s, nodes)
    && Untouched(s, at, |s|) && Apart(out, s, at, |s|) && Built(first, tail, out, doubly) && Within(out, nodes)
    && out + Pass(s[at..], insize, cmp) == Pass(s, insize, cmp)
  }

  /** Merges the next pair of runs, those at `p`. */
  method MergePair<K>(first0: Node?<K>, tail0: Node?<K>, p0: Node<K>, insize: nat, cmp: Compare<K>, doubly: bool,
                      ghost s: seq<Node<K>>, ghost at: nat, ghost out0: seq<Node<K>>, ghost nodes: set<Node<K>>)
    returns (first: Node?<K>, tail: Node?<K>, p: Node?<K>, ghost out: seq<Node<K>>)
    requires 0 < insize && Passing(first0, tail0, p0, out0, doubly, s, at, insize, cmp, nodes)
    modifies nodes
    ensures at < |s| && Passing(first, tail, p, out, doubly, s, Min(at + 2 * insize, |s|), insize, cmp, nodes)
  {
    hide Merge, Pass, Built, Apart, Within, Distinct, Untouched;
    var q, psize := FindSecondRun(p0, insize, s, at);
    PassTakes(s, at, psize, insize, cmp);
    first, tail, p, out := MergeRuns(first0, tail0, p0, psize, q, insize, cmp, doubly, s, at, out0, nodes);
  }

  /** How far a number of merges has come. */
  predicate Counted(nmerges: nat, at: nat, insize: nat, n: nat) {
    && (nmerges == 0 ==> at == 0) && (nmerges == 1 ==> at == Min(2 * insize, n)) && (nmerges >= 2 ==> at > 2 * insize)
  }

  lemma {:induction false} CountStep(nmerges: nat, at: nat, insize: nat, n: nat)
    requires Counted(nmerges, at, insize, n) && 0 < insize
    ensures at < n ==> Counted(nmerges + 1, Min(at + 2 * insize, n), insize, n) && at < Min(at + 2 * insize, n) <= n
  {
  }

  /** One pass over the whole list: consecutive pairs of runs of length `insize` are merged. */
  method SortPass<K>(head: Node<K>, insize: nat, cmp: Compare<K>, doubly: bool, ghost s: seq<Node<K>>, ghost nodes: set<Node<K>>)
    returns (list: Node<K>, nmerges: nat)
    requires IsList(head, s) && 0 < insize && Within(s, nodes)
    modifies nodes
    ensures IsList(list, Pass(s, insize, cmp)) && (doubly ==> BackLinked(Pass(s, insize, cmp)))
    ensures Within(Pass(s, insize, cmp), nodes)
    ensures nmerges <= 1 <==> |s| <= 2 * insize
  {
    ghost var out;
    var first, tail;
    first, tail, nmerges, out := MergePairs(head, insize, cmp, doubly, s, nodes);
    list := first;
    Finish(list, tail, doubly, out);
  }

  /** The loop of the pass. */
  method MergePairs<K>(head: Node<K>, insize: nat, cmp: Compare<K>, doubly: bool, ghost s: seq<Node<K>>, ghost nodes: set<Node<K>>)
    returns (first: Node<K>, tail: Node<K>, nmerges: nat, ghost out: seq<Node<K>>)
    requires IsList(head, s) && 0 < insize && Within(s, nodes)
    modifies nodes
    ensures out == Pass(s, insize, cmp) && Built(first, tail, out, doubly) && Within(out, nodes)
    ensures first in nodes && tail in nodes && (nmerges <= 1 <==> |s| <= 2 * insize)
  {
    ghost var at := 0;
    out := [];
    StartPassing(head, doubly, s, insize, cmp, nodes);
    hide Passing, IsList, Within, Pass, Counted, Built;
    var p: Node?<K> := head;
    var first', tail': Node?<K> := null, null;
    nmerges := 0;
    while p != null
      invariant at <= |s| && Passing(first', tail', p, out, doubly, s, at, insize, cmp, nodes)
      invariant Counted(nmerges, at, insize, |s|)
      decreases |s| - at
    {
      CountStep(nmerges, at, insize, |s|);
      first', tail', p, out := MergePair(first', tail', p, insize, cmp, doubly, s, at, out, nodes);
      nmerges := nmerges + 1;
      at := Min(at + 2 * insize, |s|);
    }
    EndPassing(first', tail', out, doubly, s, at, insize, cmp, nodes, nmerges);
    first, tail := first', tail';
  }

  lemma {:induction false} StartPassing<K>(head: Node<K>, doubly: bool, s: seq<Node<K>>, insize: nat, cmp: Compare<K>, nodes: set<Node<K>>)
    requires IsList(head, s) && 0 < insize && Within(s, nodes)
    ensures Passing(null, null, head, [], doubly, s, 0, insize, cmp, nodes) && s != [] && Counted(0, 0, insize, |s|)
  {
    hide Pass;
    assert s[0..] == s && [] + Pass(s, insize, cmp) == Pass(s, insize, cmp);
  }

  lemma {:induction false} EndPassing<K>(first: Node?<K>, tail: Node?<K>, out: seq<Node<K>>, doubly: bool, s: seq<Node<K>>, at: nat,
                                         insize: nat, cmp: Compare<K>, nodes: set<Node<K>>, nmerges: nat)
    requires 0 < insize && Passing(first, tail, null, out, doubly, s, at, insize, cmp, nodes) && s != []
    requires Counted(nmerges, at, insize, |s|)
    ensures out == Pass(s, insize, cmp) && Built(first, tail, out, doubly) && Within(out, nodes)
    ensures first != null && tail != null && first in nodes && tail in nodes
    ensures nmerges <= 1 <==> |s| <= 2 * insize
  {
    hide Built, Apart, Within, Distinct, Untouched;
    assert at == |s|;
    PassNothing(s[at..], insize, cmp);
    PassNotNothing(s, insize, cmp);
    BuiltEnds(first, tail, out, doubly, nodes);
  }

  lemma {:induction false} PassNotNothing<K>(s: seq<Node<K>>, insize: nat, cmp: Compare<K>)
    requires 0 < insize && s != []
    ensures Pass(s, insize, cmp) != []
  {
    PassPermutes(s, insize, cmp);
    assert s[0] in multiset(s);
  }

  lemma {:induction false} BuiltEnds<K>(list: Node?<K>, tail: Node?<K>, out: seq<Node<K>>, doubly: bool, nodes: set<Node<K>>)
    requires Built(list, tail, out, doubly) && out != [] && Within(out, nodes)
    ensures list != null && tail != null && list in nodes && tail in nodes
  {
  }

  /** The end of a pass: the first node gets its back link, the last one ends the list. */
  method Finish<K>(list: Node<K>, tail: Node<K>, doubly: bool, ghost out: seq<Node<K>>)
    requires Built(list, tail, out, doubly)
    modifies list, tail
    ensures IsList(list, out) && (doubly ==> BackLinked(out))
  {
    if doubly {
      list.prev := tail;
    }
    tail.next := null;
  }

  lemma {:induction false} PassNothing<K>(s: seq<Node<K>>, insize: nat, cmp: Compare<K>)
    requires 0 < insize && s == []
    ensures Pass(s, insize, cmp) == []
  {
  }

  lemma {:induction false} PassTakes<K>(s: seq<Node<K>>, at: nat, psize: nat, insize: nat, cmp: Compare<K>)
    requires at < |s| && 0 < insize && psize == Min(insize, |s| - at)
    ensures var end := Min(at + psize + insize, |s|);
            Pass(s[at..], insize, cmp)
            == Merge(s[at..at + psize], s[at + psize..end], cmp) + Pass(s[end..], insize, cmp)
  {
    var end := Min(at + psize + insize, |s|);
    assert Min(2 * insize, |s[at..]|) == end - at;
    assert s[at..][..psize] == s[at..at + psize];
    assert s[at..][psize..end - at] == s[at + psize..end];
    assert s[at..][end - at..] == s[end..];
  }

  lemma {:induction false} AllWithin<K>(s: seq<Node<K>>, nodes: set<Node<K>>)
    requires nodes == set x | x in s
    ensures Within(s, nodes)
  {
  }

  lemma {:induction false} SortStarts<K>(head: Node?<K>, s: seq<Node<K>>, cmp: Compare<K>)
    requires IsList(head, s)
    ensures head != null ==> Sort(s, cmp) == SortFrom(s, 1, cmp)
    ensures head == null ==> Sort(s, cmp) == s && BackLinked(s)
  {
  }

  lemma {:induction false} SortUnfolds<K>(s: seq<Node<K>>, k: nat, cmp: Compare<K>)
    requires 0 < k
    ensures SortFrom(s, k, cmp) == if |s| <= 2 * k then Pass(s, k, cmp) else SortFrom(Pass(s, k, cmp), 2 * k, cmp)
  {
  }

  /** Sorts the nodes in place: afterwards `list` starts the same nodes in sorted order. */
  method SortInPlace<K>(head: Node?<K>, cmp: Compare<K>, doubly: bool, ghost s: seq<Node<K>>)
    returns (list: Node?<K>)
    requires IsList(head, s)
    modifies s
    ensures IsList(list, Sort(s, cmp)) && (doubly ==> BackLinked(Sort(s, cmp)))
  {
    hide Pass, SortFrom, Sort, BackLinked, IsList, Within;
    ghost var nodes := set x | x in s;
    SortStarts(head, s, cmp);
    list := head;
    if list != null {
      var insize := 1;
      var looping := true;
      ghost var r := s;
      AllWithin(s, nodes);
      while looping
        invariant 0 < insize && |r| == |s| && IsList(list, r) && list != null && Within(r, nodes)
        invariant looping ==> SortFrom(r, insize, cmp) == Sort(s, cmp)
        invariant !looping ==> r == Sort(s, cmp) && (doubly ==> BackLinked(r))
        decreases looping, |s| - insize
      {
        SortUnfolds(r, insize, cmp);
        var nmerges;
        list, nmerges := SortPass(list, insize, cmp, doubly, r, nodes);
        r := Pass(r, insize, cmp);
        if nmerges <= 1 {
          looping := false;
        }
        insize := insize * 2;
      }
    }
  }
}
