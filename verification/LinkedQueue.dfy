/**
  The tail queue of src/queue_netbsd.h, on which the page queue, the ready queues and the slot queue
  are built, refines a sequence.

  A `prev` or `last` link of the original is the address of a link cell: the `first` of the head or
  the `next` of an entry.  Here it is that entry, or null for the head.
 */
module LinkedQueue {

  class Entry {
    var next: Entry?
    var prev: Entry?
    constructor () {}
  }

  class Queue {
    var first: Entry?
    var last: Entry?
    ghost var elems: seq<Entry>

    /** The link behind the first k entries. */
    ghost function At(s: seq<Entry>, k: int): (e: Entry?)
    {
      if 0 <= k < |s| then s[k] else null
    }

    ghost predicate LinkOk(s: seq<Entry>, i: nat)
      requires i < |s|
      reads s[i]
    {
      s[i].next == At(s, i + 1) && s[i].prev == At(s, i - 1)
    }

    /** The links run through the elements of the sequence in order, in both directions. */
    ghost predicate Valid()
      reads this, elems
    {
      && first == At(elems, 0) && last == At(elems, |elems| - 1)
      && (forall i, j :: 0 <= i < j < |elems| ==> elems[i] != elems[j])
      && (forall i: nat {:trigger LinkOk(elems, i)} :: i < |elems| ==> LinkOk(elems, i))
    }

    /** Q_INIT. */
    constructor ()
      ensures Valid() && elems == []
    {
      first, last, elems := null, null, [];
    }

    /** Q_EMPTY. */
    method IsEmpty() returns (yes: bool)
      requires Valid()
      ensures yes <==> elems == []
    {
      yes := first == null;
    }

    /** Q_INSERT_TAIL. */
    method InsertTail(e: Entry)
      requires Valid() && e !in elems
      modifies this, e, last
      ensures Valid() && elems == old(elems) + [e]
    {
      ghost var was := elems;
      e.next := null;
      e.prev := last;
      if last == null {
        first := e;
      } else {
        last.next := e;
      }
      last := e;
      elems := elems + [e];
      forall i: nat | i < |elems|
        ensures LinkOk(elems, i)
      {
        if i < |was| {
          assert old(LinkOk(was, i));
        }
      }
    }

    /** Q_REMOVE of the k-th entry; its own links are left as they are. */
    method Remove(e: Entry, ghost k: nat)
      requires Valid() && k < |elems| && elems[k] == e
      modifies this, e.next, e.prev
      ensures Valid() && elems == old(elems)[..k] + old(elems)[k + 1..]
      ensures e.next == old(e.next) && e.prev == old(e.prev)
    {
      ghost var was := elems;
      assert LinkOk(was, k);
      if e.next != null {
        e.next.prev := e.prev;
      } else {
        last := e.prev;
      }
      if e.prev == null {
        first := e.next;
      } else {
        e.prev.next := e.next;
      }
      elems := elems[..k] + elems[k + 1..];
      forall i: nat | i < |elems|
        ensures LinkOk(elems, i)
      {
        assert old(LinkOk(was, if i < k then i else i + 1));
      }
    }

    /** Q_FOREACH visits the elements in order, each once. */
    method ForEach() returns (visited: seq<Entry>)
      requires Valid()
      ensures visited == elems
    {
      visited := [];
      var e := first;
      while e != null
        invariant |visited| <= |elems| && visited == elems[..|visited|] && e == At(elems, |visited|)
        decreases |elems| - |visited|
      {
        assert LinkOk(elems, |visited|);
        visited := visited + [e];
        e := e.next;
      }
    }

    /** The search loops of the kernel: the first entry that is wanted, or none. */
    method FindFirst(wanted: Entry -> bool) returns (found: Entry?, ghost k: nat)
      requires Valid()
      ensures k <= |elems| && found == At(elems, k) && (found != null ==> wanted(found))
      ensures forall i :: 0 <= i < k ==> !wanted(elems[i])
    {
      found := first;
      k := 0;
      while found != null && !wanted(found)
        invariant k <= |elems| && found == At(elems, k)
        invariant forall i :: 0 <= i < k ==> !wanted(elems[i])
        decreases |elems| - k
      {
        assert LinkOk(elems, k);
        found := found.next;
        k := k + 1;
      }
    }
  }
}
