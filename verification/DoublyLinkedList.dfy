/** The non-circular doubly linked list edits of utlist.h. The list is its head pointer; the
    head's `prev` is the tail, which is what makes appending cheap. */
module DoublyLinkedLists {
  import opened MergeSort
  import opened ListSort

  /** Node `i` has its successor (null at the end) and its predecessor (the tail for the head). */
  ghost predicate Linked<K>(s: seq<Node<K>>, i: nat)
    requires i < |s|
    reads s[i]
  {
    s[i].next == At(s, i + 1) && s[i].prev == s[if i == 0 then |s| - 1 else i - 1]
  }

  lemma {:induction false} AllLinked<K>(head: Node?<K>, s: seq<Node<K>>)
    requires IsList(head, s) && BackLinked(s)
    ensures forall i :: 0 <= i < |s| ==> Linked(s, i)
  {
    forall i | 0 <= i < |s| ensures Linked(s, i) {
      assert s[i].next == At(s, i + 1);
      assert s[i].prev == (if i == 0 then s[|s| - 1] else s[i - 1]);
    }
  }

  class DoublyLinkedList<K> {
    var head: Node?<K>
    ghost var nodes: seq<Node<K>>

    ghost predicate Valid()
      reads this, nodes
    {
      && Distinct(nodes) && head == At(nodes, 0)
      && forall i :: 0 <= i < |nodes| ==> Linked(nodes, i)
    }

    constructor ()
      ensures Valid() && nodes == []
    {
      head := null;
      nodes := [];
    }

    method Prepend(add: Node<K>)
      requires Valid() && add !in nodes
      modifies this, nodes, add
      ensures Valid() && nodes == [add] + old(nodes)
    {
      ghost var s := nodes;
      add.next := head;
      if head != null {
        assert Linked(s, 0);
        add.prev := head.prev;
        head.prev := add;
      } else {
        add.prev := add;
      }
      head := add;
      nodes := [add] + s;
      forall j | 0 <= j < |nodes| ensures Linked(nodes, j) {
        if j > 0 { assert old(Linked(s, j - 1)); }
      }
    }

    method Append(add: Node<K>)
      requires Valid() && add !in nodes
      modifies this, nodes, add
      ensures Valid() && nodes == old(nodes) + [add]
    {
      ghost var s := nodes;
      if head != null {
        assert Linked(s, 0);
        add.prev := head.prev;
        head.prev.next := add;
        head.prev := add;
        add.next := null;
      } else {
        head := add;
        head.prev := head;
        head.next := null;
      }
      nodes := s + [add];
      forall j | 0 <= j < |nodes| ensures Linked(nodes, j) {
        if j < |s| { assert old(Linked(s, j)); }
      }
    }

    /** Takes over the nodes of `other`, whose head is left as it was. */
    method Concat(other: DoublyLinkedList<K>)
      requires this != other && Valid() && other.Valid()
      requires forall i, j :: 0 <= i < |nodes| && 0 <= j < |other.nodes| ==> nodes[i] != other.nodes[j]
      modifies this, nodes, other.nodes
      ensures Valid() && nodes == old(nodes) + old(other.nodes)
      ensures other.head == old(other.head)
    {
      ghost var s, t := nodes, other.nodes;
      if other.head != null {
        assert Linked(t, 0);
        if head != null {
          assert Linked(s, 0);
          var tmp := other.head.prev;
          other.head.prev := head.prev;
          head.prev.next := other.head;
          head.prev := tmp;
        } else {
          head := other.head;
        }
      }
      nodes := s + t;
      forall j | 0 <= j < |nodes| ensures Linked(nodes, j) {
        if j < |s| { assert old(Linked(s, j)); } else { assert old(Linked(t, j - |s|)); }
      }
    }

    method Delete(del: Node<K>, ghost i: nat)
      requires Valid() && i < |nodes| && nodes[i] == del
      modifies this, nodes
      ensures Valid() && nodes == old(nodes)[..i] + old(nodes)[i + 1..]
    {
      ghost var s := nodes;
      assert Linked(s, 0) && Linked(s, i) && (i + 1 < |s| ==> Linked(s, i + 1));
      if del.prev == del {
        head := null;
      } else if del == head {
        del.next.prev := del.prev;
        head := del.next;
      } else {
        del.prev.next := del.next;
        if del.next != null {
          del.next.prev := del.prev;
        } else {
          head.prev := del.prev;
        }
      }
      nodes := s[..i] + s[i + 1..];
      forall j | 0 <= j < |nodes| ensures Linked(nodes, j) {
        assert nodes[j] == s[if j < i then j else j + 1];
        assert old(Linked(s, if j < i then j else j + 1));
      }
    }

    method ReplaceElem(el: Node<K>, add: Node<K>, ghost i: nat)
      requires Valid() && i < |nodes| && nodes[i] == el && add !in nodes
      modifies this, nodes, add
      ensures Valid() && nodes == old(nodes)[i := add]
    {
      ghost var s := nodes;
      assert Linked(s, 0) && Linked(s, i);
      if head == el {
        head := add;
        add.next := el.next;
        if el.next == null {
          add.prev := add;
        } else {
          add.prev := el.prev;
          add.next.prev := add;
        }
      } else {
        add.next := el.next;
        add.prev := el.prev;
        add.prev.next := add;
        if el.next == null {
          head.prev := add;
        } else {
          add.next.prev := add;
        }
      }
      nodes := s[i := add];
      forall j | 0 <= j < |nodes| ensures Linked(nodes, j) {
        assert old(Linked(s, j));
      }
    }

    /** Inserts `add` in front of `el`. */
    method PrependElem(el: Node<K>, add: Node<K>, ghost i: nat)
      requires Valid() && i < |nodes| && nodes[i] == el && add !in nodes
      modifies this, nodes, add
      ensures Valid() && nodes == old(nodes)[..i] + [add] + old(nodes)[i..]
    {
      ghost var s := nodes;
      LinkBefore(el, add, i);
      nodes := s[..i] + [add] + s[i..];
      forall j | 0 <= j < |nodes| ensures Linked(nodes, j) {
        assert nodes[j] == if j == i then add else s[if j < i then j else j - 1];
        assert old(Linked(s, if j <= i then j else j - 1));
      }
    }

    method LinkBefore(el: Node<K>, add: Node<K>, ghost i: nat)
      requires Valid() && i < |nodes| && nodes[i] == el && add !in nodes
      modifies this`head, nodes, add
      ensures head == (if i == 0 then add else old(head)) && add.next == el && add.prev == old(el.prev)
      ensures forall k :: 0 <= k < |nodes| ==>
                && nodes[k].prev == (if k == i then add else old(nodes[k].prev))
                && nodes[k].next == (if k + 1 == i then add else old(nodes[k].next))
    {
      assert Linked(nodes, 0) && Linked(nodes, i);
      add.next := el;
      add.prev := el.prev;
      el.prev := add;
      if head == el {
        head := add;
      } else {
        add.prev.next := add;
      }
    }

    /** DL_SORT2. */
    method Sort(cmp: Compare<K>)
      requires Valid()
      modifies this, nodes
      ensures Valid() && nodes == MergeSort.Sort(old(nodes), cmp)
    {
      forall i | 0 <= i < |nodes| ensures nodes[i].next == At(nodes, i + 1) {
        assert Linked(nodes, i);
      }
      hide MergeSort.Sort;
      head := SortInPlace(head, cmp, true, nodes);
      nodes := MergeSort.Sort(nodes, cmp);
      AllLinked(head, nodes);
    }
  }
}
