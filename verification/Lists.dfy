/** The kernel's lists (list.c): doubly linked elements between a head and a tail that hold nothing.
    The same element type links ready threads, waiters and free memory blocks. */
module Lists {

  // ------------------------------------------------------------------
  // What a list holds
  // ------------------------------------------------------------------

  ghost predicate NoDup<T>(a: seq<T>) {
    forall i, j :: 0 <= i < j < |a| ==> a[i] != a[j]
  }

  /** The list without the first t. */
  function Without<T(==)>(a: seq<T>, t: T): seq<T> {
    if a == [] then [] else if a[0] == t then a[1..] else [a[0]] + Without(a[1..], t)
  }

  lemma {:induction false} WithoutOk<T(!new)>(a: seq<T>, t: T)
    requires NoDup(a)
    ensures NoDup(Without(a, t)) && forall u :: u in Without(a, t) <==> u in a && u != t
    ensures t !in a ==> Without(a, t) == a
  {
    if a != [] {
      var w := Without(a[1..], t);
      WithoutOk(a[1..], t);
      assert forall u :: u in a <==> u == a[0] || u in a[1..];
      assert a[0] !in a[1..];
      assert a[0] !in w;
      assert NoDup([a[0]] + w);
    }
  }

  lemma {:induction false} WithoutAt<T>(a: seq<T>, i: nat)
    requires i < |a| && forall j :: 0 <= j < i ==> a[j] != a[i]
    ensures Without(a, a[i]) == a[..i] + a[i + 1..]
  {
    if i > 0 {
      WithoutAt(a[1..], i - 1);
      assert a[1..][i - 1] == a[i];
    }
  }

  lemma InsertNoDup<T>(c: seq<T>, i: nat, e: T)
    requires i + 1 < |c| && NoDup(c) && e !in c
    ensures NoDup(c[..i + 1] + [e] + c[i + 1..])
  {
    var n := c[..i + 1] + [e] + c[i + 1..];
    assert forall j :: 0 <= j < |n| ==> n[j] == if j <= i then c[j] else if j == i + 1 then e else c[j - 1];
  }

  lemma RemoveNoDup<T>(c: seq<T>, i: nat)
    requires i < |c| && NoDup(c)
    ensures NoDup(c[..i] + c[i + 1..])
  {
    var n := c[..i] + c[i + 1..];
    assert forall j :: 0 <= j < |n| ==> n[j] == if j < i then c[j] else c[j + 1];
  }

  // ------------------------------------------------------------------
  // The links
  // ------------------------------------------------------------------

  /** struct list_elem */
  class Elem {
    var prev: Elem?
    var next: Elem?

    constructor ()
    {
      prev, next := null, null;
    }
  }

  /** struct list */
  class List {
    const head: Elem
    const tail: Elem
    ghost var items: seq<Elem>

    /** The elements in order, with the head and the tail around them. */
    ghost function Chain(): seq<Elem>
      reads this
    {
      [head] + items + [tail]
    }

    ghost function Repr(): set<Elem>
      reads this
    {
      set e | e in Chain()
    }

    /** Elements i and i + 1 of the chain are linked both ways. */
    ghost predicate Linked(i: nat)
      requires i + 1 < |Chain()|
      reads this, Repr()
    {
      Chain()[i].next == Chain()[i + 1] && Chain()[i + 1].prev == Chain()[i]
    }

    ghost predicate Valid()
      reads this, Repr()
    {
      NoDup(Chain()) && forall i: nat :: i + 1 < |Chain()| ==> Linked(i)
    }

    /** list_init */
    constructor ()
      ensures Valid() && items == [] && fresh(head) && fresh(tail)
    {
      var h := new Elem();
      var t := new Elem();
      h.next := t;
      t.prev := h;
      head, tail, items := h, t, [];
    }

    /** list_insert_before, for an element that is on no list. before is item i, or the tail. */
    method InsertBefore(before: Elem, elem: Elem, ghost i: nat)
      requires Valid() && i <= |items| && before == Chain()[i + 1] && elem !in Chain()
      modifies this`items, Repr(), elem
      ensures items == old(items[..i] + [elem] + items[i..]) && Valid()
    {
      hide NoDup;
      ghost var c := Chain();
      InsertNoDup(c, i, elem);
      Apart(i);
      before.prev.next := elem;
      elem.prev := before.prev;
      elem.next := before;
      before.prev := elem;
      items := items[..i] + [elem] + items[i..];
      ghost var n := Chain();
      assert n == c[..i + 1] + [elem] + c[i + 1..];
      forall j: nat | j + 1 < |n| ensures n[j].next == n[j + 1] && n[j + 1].prev == n[j] {
        if j < i {
          assert old(Linked(j)) && n[j] == c[j] && n[j + 1] == c[j + 1];
        } else if j > i + 1 {
          assert old(Linked(j - 1)) && n[j] == c[j - 1] && n[j + 1] == c[j];
        }
      }
    }

    /** The ends of link i are elements of the list and no others. */
    lemma Apart(i: nat)
      requires Valid() && i + 1 < |Chain()|
      ensures Linked(i) && Chain()[i] in Repr() && Chain()[i + 1] in Repr() && Chain()[i] != Chain()[i + 1]
      ensures forall j :: 0 <= j < |Chain()| && j != i ==> Chain()[j] != Chain()[i]
      ensures forall j :: 0 <= j < |Chain()| && j != i + 1 ==> Chain()[j] != Chain()[i + 1]
    {
    }

    /** list_push */
    method Push(elem: Elem)
      requires Valid() && elem !in Chain()
      modifies this`items, Repr(), elem
      ensures items == [elem] + old(items) && Valid()
    {
      Apart(0);
      InsertBefore(head.next, elem, 0);
    }

    /** list_append */
    method Append(elem: Elem)
      requires Valid() && elem !in Chain()
      modifies this`items, Repr(), elem
      ensures items == old(items) + [elem] && Valid()
    {
      InsertBefore(tail, elem, |items|);
    }

    /** list_remove of item i. */
    method Remove(elem: Elem, ghost i: nat)
      requires Valid() && i < |items| && items[i] == elem
      modifies this`items, Repr()
      ensures items == old(items[..i] + items[i + 1..]) && Valid() && elem !in Chain()
    {
      hide NoDup;
      ghost var c := Chain();
      RemoveNoDup(c, i + 1);
      Apart(i);
      Apart(i + 1);
      assert elem == c[i + 1];
      elem.prev.next := elem.next;
      elem.next.prev := elem.prev;
      items := items[..i] + items[i + 1..];
      ghost var n := Chain();
      assert n == c[..i + 1] + c[i + 2..];
      forall j: nat | j + 1 < |n| ensures n[j].next == n[j + 1] && n[j + 1].prev == n[j] {
        if j < i {
          assert old(Linked(j)) && n[j] == c[j] && n[j + 1] == c[j + 1];
        } else if j > i {
          assert old(Linked(j + 1)) && n[j] == c[j + 1] && n[j + 1] == c[j + 2];
        }
      }
    }

    /** list_pop */
    method Pop() returns (elem: Elem)
      requires Valid() && items != []
      modifies this`items, Repr()
      ensures old(items) == [elem] + items && Valid() && elem !in Chain()
    {
      Apart(0);
      elem := head.next;
      Remove(elem, 0);
    }

    /** list_empty */
    method IsEmpty() returns (r: bool)
      requires Valid()
      ensures r <==> items == []
    {
      ItemAt(0);
      r := head.next == tail;
    }

    /** Element k of the walk from the head: item k, or the tail after the last. */
    lemma ItemAt(k: nat)
      requires Valid() && k <= |items|
      ensures head.next == Chain()[1]
      ensures Chain()[k + 1] == tail <==> k == |items|
      ensures k < |items| ==> Chain()[k + 1] == items[k] && items[k].next == Chain()[k + 2]
    {
      assert Linked(0);
      assert k < |items| ==> Chain()[k + 1] == items[k] && Linked(k + 1);
      assert Chain()[|items| + 1] == tail;
    }

    /** elem_find */
    method Find(elem: Elem) returns (r: bool)
      requires Valid() && elem != tail
      ensures r <==> elem in items
    {
      hide Valid, NoDup;
      ghost var k := 0;
      ItemAt(0);
      var e := head.next;
      while e != tail
        invariant Valid() && k <= |items| && e == Chain()[k + 1] && (e == tail <==> k == |items|)
        invariant k < |items| ==> e == items[k] && e.next == Chain()[k + 2]
        invariant forall j :: 0 <= j < k ==> items[j] != elem
        decreases |items| - k
      {
        if e == elem {
          return true;
        }
        e := e.next;
        k := k + 1;
        ItemAt(k);
      }
      r := false;
    }

    /** list_len */
    method Len() returns (n: nat)
      requires Valid()
      ensures n == |items|
    {
      hide Valid, NoDup;
      ItemAt(0);
      var e := head.next;
      n := 0;
      while e != tail
        invariant Valid() && n <= |items| && e == Chain()[n + 1] && (e == tail <==> n == |items|)
        invariant n < |items| ==> e == items[n] && e.next == Chain()[n + 2]
        decreases |items| - n
      {
        n := n + 1;
        e := e.next;
        ItemAt(n);
      }
    }
  }
}
