/** The priority donation walk of `donate_pri_acquire`: what it keeps, what it restores, that
    stopping early loses nothing, and when its assertion fails. */
module Donation {
  import opened Queues
  import opened KernelState
  import opened QueueInvariant
  import opened LockInvariant
  import opened ControlInvariant

  // ---- what a walk at priority p may change ----

  ghost predicate ThreadRaised(a: Thread, b: Thread, p: int) {
    && b == a.(ePri := b.ePri, lockQueue := b.lockQueue)
    && (b.ePri == a.ePri || (a.ePri < p == b.ePri && a.lockQueue != []))
    && multiset(b.lockQueue) == multiset(a.lockQueue)
  }

  ghost predicate LockRaised(a: Lock, b: Lock, p: int) {
    b == a.(pri := b.pri) && (b.pri == a.pri || a.pri < p == b.pri)
  }

  /** Nothing but priorities below p, of locks and of threads that hold some, which become p, and
      the order within queues. */
  ghost predicate OnlyRaises(s: State, s': State, p: int) {
    && s'.running == s.running && multiset(s'.ready) == multiset(s.ready)
    && s'.threads.Keys == s.threads.Keys && s'.locks.Keys == s.locks.Keys && s'.semas.Keys == s.semas.Keys
    && (forall t :: t in s.threads ==> ThreadRaised(s.threads[t], s'.threads[t], p))
    && (forall l :: l in s.locks ==> LockRaised(s.locks[l], s'.locks[l], p))
    && (forall x :: x in s.semas ==>
          s'.semas[x].value == s.semas[x].value && multiset(s'.semas[x].waiters) == multiset(s.semas[x].waiters))
  }

  lemma OnlyRaisesTrans(s: State, s1: State, s2: State, p: int)
    requires OnlyRaises(s, s1, p) && OnlyRaises(s1, s2, p)
    ensures OnlyRaises(s, s2, p)
  {
    forall t | t in s.threads ensures ThreadRaised(s.threads[t], s2.threads[t], p) {
      assert ThreadRaised(s.threads[t], s1.threads[t], p) && ThreadRaised(s1.threads[t], s2.threads[t], p);
      assert |s1.threads[t].lockQueue| == |multiset(s.threads[t].lockQueue)|;
    }
    forall l | l in s.locks ensures LockRaised(s.locks[l], s2.locks[l], p) {
      assert LockRaised(s.locks[l], s1.locks[l], p) && LockRaised(s1.locks[l], s2.locks[l], p);
    }
  }

  lemma PasteMembers<T>(a: seq<T>, t: T, b: seq<T>)
    ensures multiset(a + [t] + b) == multiset(a + b) + multiset{t}
  {
  }

  lemma MoveKeepsMembers<T>(ts: seq<T>, t: T, less: (T, T) -> bool)
    requires t in ts
    ensures multiset(InsertOrdered(Remove(ts, t), t, less)) == multiset(ts)
  {
    var k := RemoveSplits(ts, t);
    var rest := Remove(ts, t);
    var m := InsertPoint(rest, t, less);
    hide Remove, InsertPoint;
    assert ts == ts[..k] + [t] + ts[k + 1..];
    PasteMembers(ts[..k], t, ts[k + 1..]);
    assert rest == rest[..m] + rest[m..];
    PasteMembers(rest[..m], t, rest[m..]);
  }

  // The state in the middle of a walk: the running thread's priority is the one donated.
  ghost predicate Walking(s: State, donor: Tid) {
    && QueueInv(s) && LockInv(s) && donor in s.threads
    && Runs(s) && EPri(s.threads, s.running.value) == EPri(s.threads, donor)
  }

  lemma RaiseThreadOnlyRaises(s: State, d: Tid, p: int)
    requires QueueInv(s) && d in s.threads && s.running != Some(d) && s.threads[d].ePri < p && s.threads[d].lockQueue != []
    ensures OnlyRaises(s, RaiseThread(s, d, p), p)
  {
    RaiseThreadQueues(s, d, p);
    assert Queued(s, d);
    var q := s.threads[d].queue.value;
    var s1 := PutTh(s, d, s.threads[d].(ePri := p));
    MoveKeepsMembers(QueueOf(s, q), d, ThreadBefore(s1.threads));
    assert q.WaitersQ? ==> q.sema in s.semas;
  }

  lemma RaiseLockKeeps(s: State, l: Lid, d: Tid, p: int)
    requires QueueInv(s) && LockInv(s) && l in s.locks && s.locks[l].holder == Some(d) && s.locks[l].pri < p
    ensures QueueInv(RaiseLock(s, l, d, p)) && OnlyRaises(s, RaiseLock(s, l, d, p), p)
    ensures d in s.threads && d in RaiseLock(s, l, d, p).threads && RaiseLock(s, l, d, p).threads[d].lockQueue != []
  {
    var s1 := RaiseLock(s, l, d, p);
    assert HolderOk(s, d) && l in s.threads[d].lockQueue;
    MoveKeepsMembers(s.threads[d].lockQueue, l, LockBefore(s1.locks));
    forall q ensures QueueOf(s1, q) == QueueOf(s, q) {}
    FrameQueues(s, s1);
  }

  /** One turn of the loop keeps the queues and lock queues in order. */
  lemma TurnKeeps(s: State, donor: Tid, l: Lid, d: Tid)
    requires Walking(s, donor) && l in s.locks && s.locks[l].holder == Some(d)
    requires s.locks[l].pri < EPri(s.threads, donor)
    ensures var p := EPri(s.threads, donor); var s' := DonateTurn(s, l, d, p);
            && QueueInv(s') && LockInv(s') && (AllExact(s) ==> AllExact(s')) && OnlyRaises(s, s', p)
            && (s.threads[d].ePri < p ==> Walking(s', d) && EPri(s'.threads, d) == p)
  {
    hide QueueInv, LockInv, AllExact, OnlyRaises;
    var p := EPri(s.threads, donor);
    var s1 := RaiseLock(s, l, d, p);
    RaiseLockKeeps(s, l, d, p);
    DonateTurnLocks(s, l, d, p);
    if s.threads[d].ePri < p {
      assert s.running != Some(d);
      RaiseThreadQueues(s1, d, p);
      RaiseThreadOnlyRaises(s1, d, p);
      OnlyRaisesTrans(s, s1, RaiseThread(s1, d, p), p);
    }
  }

  /** A walk that does not panic keeps every invariant and changes only what it may. */
  lemma {:induction false} WalkKeeps(s: State, donor: Tid, l: Lid)
    requires Walking(s, donor) && l in s.locks && Walk(s, donor, l).Done?
    ensures var s' := Walk(s, donor, l).s;
            QueueInv(s') && LockInv(s') && (AllExact(s) ==> AllExact(s')) && OnlyRaises(s, s', EPri(s.threads, donor))
    decreases |Below(s, EPri(s.threads, donor))|
  {
    hide QueueInv, AllExact;
    var p := EPri(s.threads, donor);
    var d := s.locks[l].holder.value;
    if s.locks[l].pri < p {
      TurnKeeps(s, donor, l, d);
      if s.threads[d].ePri < p && s.threads[d].donatedFor.Some? && s.threads[d].donatedFor.value in s.locks {
        TurnShrinks(s, l, d, p);
        var s1 := DonateTurn(s, l, d, p);
        WalkKeeps(s1, d, s.threads[d].donatedFor.value);
        OnlyRaisesTrans(s, s1, Walk(s, donor, l).s, p);
      }
    }
  }

  // ---- the ordering the walk restores ----

  // A requester of a held lock does not run above the lock's priority.
  ghost predicate EdgeOk(s: State, t: Tid)
    requires t in s.threads
  {
    var df := s.threads[t].donatedFor;
    df.Some? && df.value in s.locks && s.locks[df.value].holder.Some? ==> s.threads[t].ePri <= s.locks[df.value].pri
  }

  ghost predicate Ordered(s: State) { forall t :: t in s.threads ==> EdgeOk(s, t) }

  ghost predicate OrderedBut(s: State, d: Tid) { forall t :: t in s.threads && t != d ==> EdgeOk(s, t) }

  lemma TurnOrder(s: State, donor: Tid, l: Lid, d: Tid)
    requires Walking(s, donor) && OrderedBut(s, donor) && s.threads[donor].donatedFor == Some(l)
    requires l in s.locks && s.locks[l].holder == Some(d) && s.locks[l].pri < EPri(s.threads, donor)
    ensures var p := EPri(s.threads, donor); var s' := DonateTurn(s, l, d, p);
            if s.threads[d].ePri < p then OrderedBut(s', d) else Ordered(s')
  {
    var p := EPri(s.threads, donor);
    DonateTurnEffect(s, l, d, p);
    TurnOrderAux(s, DonateTurn(s, l, d, p), donor, l, d);
  }

  lemma TurnOrderAux(s: State, s': State, donor: Tid, l: Lid, d: Tid)
    requires donor in s.threads && d in s.threads && OrderedBut(s, donor) && s.threads[donor].donatedFor == Some(l)
    requires l in s.locks && s.locks[l].holder == Some(d) && s.locks[l].pri < s.threads[donor].ePri
    requires s'.locks == s.locks[l := s.locks[l].(pri := s.threads[donor].ePri)]
    requires d in s'.threads && s'.threads == s.threads[d := s'.threads[d]]
    requires s'.threads[d].donatedFor == s.threads[d].donatedFor
    requires s.threads[d].ePri >= s.threads[donor].ePri ==> s'.threads[d].ePri == s.threads[d].ePri
    ensures if s.threads[d].ePri < s.threads[donor].ePri then OrderedBut(s', d) else Ordered(s')
  {
    forall t | t in s'.threads && !(t == d && s.threads[d].ePri < s.threads[donor].ePri) ensures EdgeOk(s', t) {
      assert t != donor ==> EdgeOk(s, t);
    }
  }

  /** If only the donor's own edge is out of order, the walk leaves every edge in order. */
  lemma {:induction false} WalkOrders(s: State, donor: Tid, l: Lid)
    requires Walking(s, donor) && OrderedBut(s, donor) && s.threads[donor].donatedFor == Some(l)
    requires l in s.locks && Walk(s, donor, l).Done?
    ensures Ordered(Walk(s, donor, l).s)
    decreases |Below(s, EPri(s.threads, donor))|
  {
    var p := EPri(s.threads, donor);
    var d := s.locks[l].holder.value;
    if s.locks[l].pri >= p {
      assert EdgeOk(s, donor);
    } else {
      var s1 := DonateTurn(s, l, d, p);
      TurnKeeps(s, donor, l, d);
      TurnOrder(s, donor, l, d);
      if s.threads[d].ePri < p {
        assert ThreadRaised(s.threads[d], s1.threads[d], p);
        if s.threads[d].donatedFor.Some? && s.threads[d].donatedFor.value in s.locks {
          TurnShrinks(s, l, d, p);
          WalkOrders(s1, d, s.threads[d].donatedFor.value);
        } else {
          assert EdgeOk(s1, d);
        }
      }
    }
  }

  // A chain of waiting: each thread waits for a lock held by the next.
  ghost predicate Waits(s: State, t: Tid, h: Tid) {
    && t in s.threads && s.threads[t].donatedFor.Some?
    && s.threads[t].donatedFor.value in s.locks && s.locks[s.threads[t].donatedFor.value].holder == Some(h)
  }

  ghost predicate Chain(s: State, ts: seq<Tid>) {
    |ts| > 0 && forall i :: 0 <= i < |ts| - 1 ==> Waits(s, ts[i], ts[i + 1])
  }

  /** Along a chain of any length, nobody waits for a holder that runs below it. */
  lemma {:induction false} NoInversionOnChain(s: State, ts: seq<Tid>)
    requires LockInv(s) && Ordered(s) && Chain(s, ts)
    ensures EPri(s.threads, ts[0]) <= EPri(s.threads, ts[|ts| - 1])
  {
    if |ts| > 1 {
      var rest := ts[1..];
      assert Chain(s, rest) by {
        forall i | 0 <= i < |rest| - 1 ensures Waits(s, rest[i], rest[i + 1]) { assert Waits(s, ts[i + 1], ts[i + 2]); }
      }
      NoInversionOnChain(s, rest);
      assert Waits(s, ts[0], ts[1]) && EdgeOk(s, ts[0]);
      HeldBelowHolder(s, ts[1], s.threads[ts[0]].donatedFor.value);
    }
  }

  // ---- the naive walk ----

  /** Raise every lock and holder on the chain from l to at least p, all the way up. */
  function Naive(s: State, l: Lid, p: int, seen: set<Lid>): State
    decreases |s.locks.Keys - seen|
  {
    if l in seen || l !in s.locks || s.locks[l].holder.None? then s
    else
      var d := s.locks[l].holder.value;
      var s1 := if s.locks[l].pri < p then RaiseLock(s, l, d, p) else s;
      var s2 := if EPri(s.threads, d) < p then RaiseThread(s1, d, p) else s1;
      match Th(s, d).donatedFor
      case None => s2
      case Some(l') =>
        assert s2.locks.Keys == s.locks.Keys;
        assert s.locks.Keys - (seen + {l}) == s.locks.Keys - seen - {l};
        Naive(s2, l', p, seen + {l})
  }

  // Beyond a lock already at p the chain is at p or above: the naive walk does nothing there.
  lemma {:induction false} NaiveQuiet(s: State, l: Lid, p: int, seen: set<Lid>)
    requires LockInv(s) && Ordered(s) && (l in s.locks ==> s.locks[l].pri >= p)
    ensures Naive(s, l, p, seen) == s
    decreases |s.locks.Keys - seen|
  {
    if l !in seen && l in s.locks && s.locks[l].holder.Some? {
      var d := s.locks[l].holder.value;
      HeldBelowHolder(s, d, l);
      if s.threads[d].donatedFor.Some? {
        assert EdgeOk(s, d);
        var l' := s.threads[d].donatedFor.value;
        assert s.locks.Keys - (seen + {l}) == s.locks.Keys - seen - {l};
        if l' in s.locks && s.locks[l'].holder.Some? { NaiveQuiet(s, l', p, seen + {l}); }
      }
    }
  }

  // One turn of the naive walk is one turn of the walk.
  lemma NaiveTurn(s: State, l: Lid, d: Tid, p: int, seen: set<Lid>)
    requires l in s.locks && l !in seen && s.locks[l].holder == Some(d) && s.locks[l].pri < p
    ensures var s1 := DonateTurn(s, l, d, p);
            Naive(s, l, p, seen) == match Th(s, d).donatedFor case None => s1 case Some(l') => Naive(s1, l', p, seen + {l})
  {
    assert s.locks.Keys - (seen + {l}) == s.locks.Keys - seen - {l};
  }

  // The second exit: the holder already runs at p or above.
  lemma NaiveStops(s: State, donor: Tid, l: Lid, d: Tid, seen: set<Lid>)
    requires Walking(s, donor) && OrderedBut(s, donor) && s.threads[donor].donatedFor == Some(l)
    requires l in s.locks && l !in seen && s.locks[l].holder == Some(d) && s.locks[l].pri < EPri(s.threads, donor)
    requires d in s.threads && s.threads[d].ePri >= EPri(s.threads, donor)
    ensures Naive(s, l, EPri(s.threads, donor), seen) == DonateTurn(s, l, d, EPri(s.threads, donor))
  {
    var p := EPri(s.threads, donor);
    var s1 := DonateTurn(s, l, d, p);
    NaiveTurn(s, l, d, p, seen);
    TurnKeeps(s, donor, l, d);
    TurnOrder(s, donor, l, d);
    hide DonateTurn, Naive, Walking, OrderedBut, QueueInv, LockInv;
    assert ThreadRaised(s.threads[d], s1.threads[d], p);
    if s.threads[d].donatedFor.Some? { NaiveBeyond(s1, d, p, seen + {l}); }
  }

  lemma NaiveBeyond(s: State, d: Tid, p: int, seen: set<Lid>)
    requires LockInv(s) && Ordered(s) && d in s.threads && s.threads[d].donatedFor.Some? && s.threads[d].ePri >= p
    ensures Naive(s, s.threads[d].donatedFor.value, p, seen) == s
  {
    var l' := s.threads[d].donatedFor.value;
    assert EdgeOk(s, d);
    if l' in s.locks && s.locks[l'].holder.Some? { NaiveQuiet(s, l', p, seen); }
  }

  lemma RaisedSeen(s: State, s1: State, l: Lid, p: int, seen: set<Lid>)
    requires OnlyRaises(s, s1, p) && LPri(s1.locks, l) >= p && forall m :: m in seen ==> LPri(s.locks, m) >= p
    ensures forall m :: m in seen + {l} ==> LPri(s1.locks, m) >= p
  {
    forall m | m in seen + {l} ensures LPri(s1.locks, m) >= p {
      if m in s.locks { assert LockRaised(s.locks[m], s1.locks[m], p); }
    }
  }

  /** Stopping early loses nothing: wherever the walk does not panic it ends in the state of the
      naive walk, on every wait graph, cycles included. */
  lemma {:induction false} WalkIsNaive(s: State, donor: Tid, l: Lid, seen: set<Lid>)
    requires Walking(s, donor) && OrderedBut(s, donor) && s.threads[donor].donatedFor == Some(l)
    requires l in s.locks && Walk(s, donor, l).Done?
    requires forall m :: m in seen ==> LPri(s.locks, m) >= EPri(s.threads, donor)
    ensures Walk(s, donor, l).s == Naive(s, l, EPri(s.threads, donor), seen)
    decreases |Below(s, EPri(s.threads, donor))|
  {
    var p := EPri(s.threads, donor);
    var d := s.locks[l].holder.value;
    if s.locks[l].pri >= p {
      assert EdgeOk(s, donor);
      NaiveQuiet(s, l, p, seen);
    } else if s.threads[d].ePri >= p {
      NaiveStops(s, donor, l, d, seen);
    } else {
      NaiveGoesOn(s, donor, l, d, seen);
    }
  }

  lemma {:induction false} NaiveGoesOn(s: State, donor: Tid, l: Lid, d: Tid, seen: set<Lid>)
    requires Walking(s, donor) && OrderedBut(s, donor) && s.threads[donor].donatedFor == Some(l)
    requires l in s.locks && Walk(s, donor, l).Done? && s.locks[l].holder == Some(d) && d in s.threads
    requires s.locks[l].pri < EPri(s.threads, donor) && s.threads[d].ePri < EPri(s.threads, donor)
    requires forall m :: m in seen ==> LPri(s.locks, m) >= EPri(s.threads, donor)
    ensures Walk(s, donor, l).s == Naive(s, l, EPri(s.threads, donor), seen)
    decreases |Below(s, EPri(s.threads, donor))|, 0
  {
    var p := EPri(s.threads, donor);
    var s1 := DonateTurn(s, l, d, p);
    NaiveTurn(s, l, d, p, seen);
    if s.threads[d].donatedFor.Some? {
      var l' := s.threads[d].donatedFor.value;
      if l' in s.locks {
        TurnGoesOn(s, donor, l, d);
        assert Walk(s, donor, l) == Walk(s1, d, l');
        hide Walk, Naive, DonateTurn, OnlyRaises, Walking, OrderedBut;
        RaisedSeen(s, s1, l, p, seen);
        WalkIsNaive(s1, d, l', seen + {l});
      }
    }
  }

  lemma TurnGoesOn(s: State, donor: Tid, l: Lid, d: Tid)
    requires Walking(s, donor) && OrderedBut(s, donor) && s.threads[donor].donatedFor == Some(l)
    requires l in s.locks && s.locks[l].holder == Some(d)
    requires s.locks[l].pri < EPri(s.threads, donor) && EPri(s.threads, d) < EPri(s.threads, donor)
    ensures var p := EPri(s.threads, donor); var s1 := DonateTurn(s, l, d, p);
            && Walking(s1, d) && OrderedBut(s1, d) && EPri(s1.threads, d) == p && d in s1.threads
            && s1.threads[d].donatedFor == s.threads[d].donatedFor && s1.locks.Keys == s.locks.Keys
            && |Below(s1, p)| < |Below(s, p)| && OnlyRaises(s, s1, p) && LPri(s1.locks, l) == p
  {
    var p := EPri(s.threads, donor);
    TurnKeeps(s, donor, l, d);
    TurnOrder(s, donor, l, d);
    TurnShrinks(s, l, d, p);
    DonateTurnEffect(s, l, d, p);
  }

  // ---- the assertion in the loop ----

  // Lock l and its holder are below p, and the holder waits for l'.
  ghost predicate LowLink(s: State, l: Lid, p: int, l': Lid) {
    && l in s.locks && s.locks[l].holder.Some? && s.locks[l].pri < p
    && var d := s.locks[l].holder.value;
       d in s.threads && s.threads[d].ePri < p && s.threads[d].donatedFor == Some(l')
  }

  /** A chain of waiting from l to a lock without a holder, on which every lock in front of that
      one and every holder is below p. */
  ghost predicate LowPath(s: State, l: Lid, p: int, ls: seq<Lid>) {
    && |ls| > 0 && ls[0] == l && (forall i :: 0 <= i < |ls| - 1 ==> LowLink(s, ls[i], p, ls[i + 1]))
    && ls[|ls| - 1] in s.locks && s.locks[ls[|ls| - 1]].holder.None?
  }

  // Each lock leads to one next lock only, so all such chains from l are as long.
  lemma {:induction false} LowPathUnique(s: State, l: Lid, p: int, ls: seq<Lid>, ms: seq<Lid>)
    requires LowPath(s, l, p, ls) && LowPath(s, l, p, ms)
    ensures |ls| == |ms|
    decreases |ls|
  {
    assert |ls| > 1 ==> LowLink(s, ls[0], p, ls[1]);
    assert |ms| > 1 ==> LowLink(s, ms[0], p, ms[1]);
    if |ls| > 1 {
      LowPathRest(s, l, p, ls, 1);
      LowPathRest(s, l, p, ms, 1);
      LowPathUnique(s, ls[1], p, ls[1..], ms[1..]);
    }
  }

  lemma LowPathRest(s: State, l: Lid, p: int, ls: seq<Lid>, k: nat)
    requires LowPath(s, l, p, ls) && k < |ls|
    ensures LowPath(s, ls[k], p, ls[k..])
  {
    var r := ls[k..];
    forall i | 0 <= i < |r| - 1 ensures LowLink(s, r[i], p, r[i + 1]) { assert LowLink(s, ls[k + i], p, ls[k + i + 1]); }
  }

  lemma LowPathStart(s: State, l: Lid, p: int, ls: seq<Lid>)
    requires LowPath(s, l, p, ls)
    ensures if |ls| == 1 then Lk(s, l).holder.None? else LowLink(s, l, p, ls[1]) && ls[1] in s.locks
  {
    assert |ls| > 1 ==> LowLink(s, ls[0], p, ls[1]);
    assert |ls| > 2 ==> LowLink(s, ls[1], p, ls[2]);
  }

  // So no lock and no holder is on such a chain twice.
  lemma LowPathSimple(s: State, l: Lid, p: int, ls: seq<Lid>, k: nat)
    requires LowPath(s, l, p, ls) && 0 < k < |ls|
    ensures ls[k] != l && (k < |ls| - 1 ==> Lk(s, ls[k]).holder != Lk(s, l).holder)
  {
    if ls[k] == l {
      LowPathRest(s, l, p, ls, k);
      LowPathUnique(s, l, p, ls, ls[k..]);
    } else if k < |ls| - 1 && Lk(s, ls[k]).holder == Lk(s, l).holder {
      assert LowLink(s, ls[0], p, ls[1]) && LowLink(s, ls[k], p, ls[k + 1]);
      LowPathRest(s, l, p, ls, 1);
      LowPathRest(s, l, p, ls, k + 1);
      LowPathUnique(s, ls[1], p, ls[1..], ls[k + 1..]);
    }
  }

  // One turn at l with holder d: all that the chain depends on.
  ghost predicate Turned(s: State, s1: State, l: Lid, d: Tid, p: int) {
    && l in s.locks && d in s.threads && d in s1.threads && s1.locks == s.locks[l := s.locks[l].(pri := p)]
    && s1.threads == s.threads[d := s1.threads[d]]
    && s1.threads[d].ePri == p && s1.threads[d].donatedFor == s.threads[d].donatedFor
  }

  // The rest of the chain is not touched by the turn at its front,
  lemma TurnLeavesPath(s: State, s1: State, l: Lid, d: Tid, p: int, ls: seq<Lid>)
    requires Turned(s, s1, l, d, p) && LowPath(s, l, p, ls) && |ls| > 1 && s.locks[l].holder == Some(d)
    ensures LowPath(s1, ls[1], p, ls[1..])
  {
    LowPathRest(s, l, p, ls, 1);
    var r := ls[1..];
    LowPathSimple(s, l, p, ls, |ls| - 1);
    forall i | 0 <= i < |r| - 1 ensures LowLink(s1, r[i], p, r[i + 1]) {
      LowPathSimple(s, l, p, ls, i + 1);
      assert LowLink(s, r[i], p, r[i + 1]);
    }
  }

  // and a chain after the turn is one before it.
  lemma TurnMakesNoPath(s: State, s1: State, l: Lid, d: Tid, l': Lid, p: int, ls: seq<Lid>)
    requires Turned(s, s1, l, d, p) && LowLink(s, l, p, l') && s.locks[l].holder == Some(d) && LowPath(s1, l', p, ls)
    ensures LowPath(s, l, p, [l] + ls)
  {
    var r := [l] + ls;
    forall i | 0 <= i < |r| - 1 ensures LowLink(s, r[i], p, r[i + 1]) {
      if i > 0 { assert LowLink(s1, ls[i - 1], p, ls[i]); }
    }
  }

  /** `ASSERT(donee != NULL)` fails, from any state, exactly when the chain of waiting from l leads
      to a lock without a holder through locks and holders all below the donor's priority. */
  lemma {:induction false} WalkPanicsIff(s: State, donor: Tid, l: Lid)
    requires l in s.locks
    ensures Walk(s, donor, l).Panic? <==> exists ls :: LowPath(s, l, EPri(s.threads, donor), ls)
    decreases |Below(s, EPri(s.threads, donor))|
  {
    var p := EPri(s.threads, donor);
    if s.locks[l].holder.None? {
      assert LowPath(s, l, p, [l]);
    } else {
      var d := s.locks[l].holder.value;
      if s.locks[l].pri < p && d in s.threads && s.threads[d].ePri < p && s.threads[d].donatedFor.Some?
         && s.threads[d].donatedFor.value in s.locks {
        PanicTurn(s, donor, l, d);
      } else {
        forall ls | LowPath(s, l, p, ls) ensures false { LowPathStart(s, l, p, ls); }
      }
    }
  }

  lemma {:induction false} PanicTurn(s: State, donor: Tid, l: Lid, d: Tid)
    requires l in s.locks && s.locks[l].holder == Some(d) && d in s.threads
    requires s.locks[l].pri < EPri(s.threads, donor) && s.threads[d].ePri < EPri(s.threads, donor)
    requires s.threads[d].donatedFor.Some? && s.threads[d].donatedFor.value in s.locks
    ensures Walk(s, donor, l).Panic? <==> exists ls :: LowPath(s, l, EPri(s.threads, donor), ls)
    decreases |Below(s, EPri(s.threads, donor))|, 0
  {
    var p, l' := EPri(s.threads, donor), s.threads[d].donatedFor.value;
    var s1 := DonateTurn(s, l, d, p);
    DonateTurnEffect(s, l, d, p);
    TurnShrinks(s, l, d, p);
    WalkPanicsIff(s1, d, l');
    assert Walk(s, donor, l) == Walk(s1, d, l');
    hide Walk, DonateTurn, LowPath;
    forall ls | LowPath(s, l, p, ls) ensures exists ms :: LowPath(s1, l', p, ms) {
      LowPathStart(s, l, p, ls);
      TurnLeavesPath(s, s1, l, d, p, ls);
    }
    forall ms | LowPath(s1, l', p, ms) ensures exists ls :: LowPath(s, l, p, ls) {
      TurnMakesNoPath(s, s1, l, d, l', p, ms);
    }
  }
}
