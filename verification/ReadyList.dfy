/** The ready list as it is in memory: the elements of the threads, linked, in the order the
    scheduler keeps. */
module ReadyList {
  import opened Queues
  import opened KernelState
  import opened IntrusiveList

  // `list_entry` over a sequence of elements
  ghost function Owners(es: seq<Elem>, owner: Elem -> Tid): (r: seq<Tid>)
    ensures |r| == |es| && forall i :: 0 <= i < |es| ==> r[i] == owner(es[i])
  {
    seq(|es|, i requires 0 <= i < |es| => owner(es[i]))
  }

  // `thread_before` on elements
  function ElemBefore(ths: map<Tid, Thread>, owner: Elem -> Tid): (Elem, Elem) -> bool {
    (a: Elem, b: Elem) => ThreadBefore(ths)(owner(a), owner(b))
  }

  // Inserting an element inserts its thread.
  lemma InsertOwner(es: seq<Elem>, e: Elem, ths: map<Tid, Thread>, owner: Elem -> Tid)
    ensures Owners(InsertOrdered(es, e, ElemBefore(ths, owner)), owner) == InsertThread(ths, Owners(es, owner), owner(e))
  {
    var k := InsertPoint(es, e, ElemBefore(ths, owner));
    var ts := Owners(es, owner);
    InsertPointIs(ts, owner(e), ThreadBefore(ths), k);
    hide InsertPoint, ThreadBefore;
    assert InsertThread(ths, ts, owner(e)) == ts[..k] + [owner(e)] + ts[k..];
    PasteOwner(es, e, k, owner);
  }

  lemma PasteOwner(es: seq<Elem>, e: Elem, k: nat, owner: Elem -> Tid)
    requires k <= |es|
    ensures Owners(es[..k] + [e] + es[k..], owner) == Owners(es, owner)[..k] + [owner(e)] + Owners(es, owner)[k..]
  {
  }

  // Taking an element out takes its thread out.
  lemma RemoveOwner(es: seq<Elem>, k: nat, owner: Elem -> Tid)
    requires k < |es| && NoDup(Owners(es, owner))
    ensures Owners(es[..k] + es[k + 1..], owner) == Remove(Owners(es, owner), owner(es[k]))
  {
    var ts := Owners(es, owner);
    var j := RemoveSplits(ts, owner(es[k]));
    assert ts[j] == ts[k];
  }

  class ReadyQueue {
    const list: List
    const owner: Elem -> Tid

    ghost function Threads(): seq<Tid>
      reads this, list
    {
      Owners(list.Items, owner)
    }

    ghost predicate Valid()
      reads this, list, list.Nodes()
    {
      list.Valid() && NoDup(Threads())
    }

    constructor (owner: Elem -> Tid)
      ensures Valid() && Threads() == [] && fresh(list)
    {
      list := new List();
      this.owner := owner;
    }

    /** `thread_enqueue` on linked elements is the insertion into the ready list. */
    method Enqueue(e: Elem, ths: map<Tid, Thread>)
      requires Valid() && e !in list.Nodes() && owner(e) !in Threads()
      modifies list, e, list.Nodes()
      ensures Valid() && Threads() == InsertThread(ths, old(Threads()), owner(e)) && e in list.Items
    {
      InsertOwner(list.Items, e, ths, owner);
      InsertIn(Threads(), owner(e), ThreadBefore(ths));
      InsertIn(list.Items, e, ElemBefore(ths, owner));
      list.InsertOrderedElem(e, ElemBefore(ths, owner));
    }

    /** `thread_schedule_prio` on linked elements takes the first thread. */
    method Next() returns (e: Elem)
      requires Valid() && Threads() != []
      modifies list, list.Nodes()
      ensures Valid() && old(Threads()) == [owner(e)] + Threads() && e !in list.Items
    {
      ghost var es := list.Items;
      assert Owners(es[1..], owner) == Threads()[1..];
      e := list.PopFront();
      forall i | 0 <= i < |es[1..]| ensures es[1..][i] != e { assert owner(es[i + 1]) != owner(es[0]); }
    }

    // `list_remove` of a thread's element
    method TakeOut(e: Elem, ghost k: nat)
      requires Valid() && k < |list.Items| && list.Items[k] == e
      modifies list, list.Nodes()
      ensures Valid() && Threads() == Remove(old(Threads()), owner(e)) && owner(e) !in Threads()
      ensures e !in list.Nodes() && e in old(list.Nodes()) && forall x :: x in list.Nodes() ==> x in old(list.Nodes())
    {
      ghost var es := list.Items;
      RemoveOwner(es, k, owner);
      assert Threads()[k] == owner(e);
      RemoveOut(Threads(), owner(e));
      OffList(list, es, k);
      hide Remove, Linked;
      list.Remove(e, k);
    }

    /** The move of a raised thread within the ready list. */
    method Requeue(e: Elem, ghost k: nat, ths: map<Tid, Thread>)
      requires Valid() && k < |list.Items| && list.Items[k] == e
      modifies list, list.Nodes()
      ensures Valid() && Threads() == InsertThread(ths, Remove(old(Threads()), owner(e)), owner(e))
    {
      ghost var all := list.Nodes();
      hide Remove, InsertThread, Owners, Linked, NoDup;
      TakeOut(e, k);
      assert e in all && forall i :: 0 <= i < |list.Nodes()| ==> list.Nodes()[i] in all;
      Enqueue(e, ths);
    }
  }

  // A node taken out of a list is not on it any more.
  lemma OffList(l: List, es: seq<Elem>, k: nat)
    requires l.Valid() && l.Items == es && k < |es|
    ensures es[k] !in [l.head] + (es[..k] + es[k + 1..]) + [l.tail] && es[k] in l.Nodes()
    ensures forall x :: x in [l.head] + (es[..k] + es[k + 1..]) + [l.tail] ==> x in l.Nodes()
  {
    var q := l.Nodes();
    assert Injective(q) && q[k + 1] == es[k] && q[0] == l.head && q[|q| - 1] == l.tail;
    var r := es[..k] + es[k + 1..];
    forall i | 0 <= i < |r| ensures r[i] != es[k] { assert r[i] == q[if i < k then i + 1 else i + 2]; }
  }
}
