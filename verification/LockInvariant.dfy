/** A thread's `lock_queue` holds exactly the locks it holds, sorted by lock priority, and the
    thread's effective priority is at least (in calm runs: exactly) the priority at its head. */
module LockInvariant {
  import opened Queues
  import opened KernelState

  ghost predicate LDesc(lks: map<Lid, Lock>, ls: seq<Lid>) {
    forall i, j :: 0 <= i < j < |ls| ==> LPri(lks, ls[i]) >= LPri(lks, ls[j])
  }

  ghost predicate HoldsExactly(lks: map<Lid, Lock>, t: Tid, ls: seq<Lid>) {
    NoDup(ls) && LDesc(lks, ls) && forall l :: l in ls <==> l in lks && lks[l].holder == Some(t)
  }

  ghost predicate HolderOk(s: State, t: Tid)
    requires t in s.threads
  {
    && HoldsExactly(s.locks, t, s.threads[t].lockQueue)
    && (s.threads[t].lockQueue != [] ==> s.threads[t].ePri >= LPri(s.locks, s.threads[t].lockQueue[0]))
  }

  ghost predicate LockInv(s: State) {
    && (forall t :: t in s.threads ==> HolderOk(s, t))
    && (forall l :: l in s.locks && s.locks[l].holder.Some? ==> s.locks[l].holder.value in s.threads)
  }

  // The effective priority is the head of the lock queue, or the base priority without locks.
  ghost predicate Exact(s: State, t: Tid)
    requires t in s.threads
  {
    var th := s.threads[t];
    th.ePri == if th.lockQueue == [] then th.bPri else LPri(s.locks, th.lockQueue[0])
  }

  ghost predicate AllExact(s: State) { forall t :: t in s.threads ==> Exact(s, t) }

  /** The head of the queue is the maximum: no held lock's priority is above its holder's. */
  lemma HeldBelowHolder(s: State, t: Tid, l: Lid)
    requires LockInv(s) && t in s.threads && l in s.locks && s.locks[l].holder == Some(t)
    ensures s.locks[l].pri <= LPri(s.locks, s.threads[t].lockQueue[0]) <= s.threads[t].ePri
  {
    assert HolderOk(s, t) && l in s.threads[t].lockQueue;
  }

  lemma InsertLDesc(lks: map<Lid, Lock>, ls: seq<Lid>, l: Lid)
    requires LDesc(lks, ls)
    ensures LDesc(lks, InsertLock(lks, ls, l))
    ensures LPri(lks, InsertLock(lks, ls, l)[0])
            == if ls == [] || LPri(lks, l) >= LPri(lks, ls[0]) then LPri(lks, l) else LPri(lks, ls[0])
  {
    var k := InsertPoint(ls, l, LockBefore(lks));
    var r := InsertLock(lks, ls, l);
    assert forall i :: 0 <= i < |r| ==> r[i] == if i < k then ls[i] else if i == k then l else ls[i - 1];
    forall i | 0 <= i < k ensures LPri(lks, ls[i]) > LPri(lks, l) {
      assert !LockBefore(lks)(l, ls[i]);
    }
    if k < |ls| { assert LockBefore(lks)(l, ls[k]); }
  }

  lemma CutLDesc(lks: map<Lid, Lock>, ls: seq<Lid>, k: nat)
    requires LDesc(lks, ls) && k < |ls|
    ensures LDesc(lks, ls[..k] + ls[k + 1..])
  {
    var r := ls[..k] + ls[k + 1..];
    assert forall i :: 0 <= i < |r| ==> r[i] == ls[if i < k then i else i + 1];
  }

  lemma LDescFrame(lks: map<Lid, Lock>, lks': map<Lid, Lock>, ls: seq<Lid>)
    requires LDesc(lks, ls) && forall l :: l in ls ==> LPri(lks, l) == LPri(lks', l)
    ensures LDesc(lks', ls)
  {
    forall i, j | 0 <= i < j < |ls| ensures LPri(lks', ls[i]) >= LPri(lks', ls[j]) {
      assert ls[i] in ls && ls[j] in ls;
    }
  }

  // Taking l out of its holder's queue.
  lemma CutHeld(lks: map<Lid, Lock>, t: Tid, ls: seq<Lid>, l: Lid)
    requires HoldsExactly(lks, t, ls) && l in ls
    ensures var rest := Remove(ls, l);
            NoDup(rest) && LDesc(lks, rest) && forall l' :: l' in rest <==> l' in ls && l' != l
    ensures ls[0] != l ==> Remove(ls, l) != [] && Remove(ls, l)[0] == ls[0]
  {
    var k := RemoveSplits(ls, l);
    RemoveOut(ls, l);
    CutLDesc(lks, ls, k);
  }

  // Putting l, now held by t, into the rest of its queue.
  lemma PasteHeld(lks: map<Lid, Lock>, t: Tid, rest: seq<Lid>, l: Lid)
    requires NoDup(rest) && LDesc(lks, rest) && l in lks && lks[l].holder == Some(t)
    requires forall l' :: l' in rest <==> l' in lks && lks[l'].holder == Some(t) && l' != l
    ensures HoldsExactly(lks, t, InsertLock(lks, rest, l))
    ensures LPri(lks, InsertLock(lks, rest, l)[0])
            == if rest == [] || LPri(lks, l) >= LPri(lks, rest[0]) then LPri(lks, l) else LPri(lks, rest[0])
  {
    InsertIn(rest, l, LockBefore(lks));
    InsertLDesc(lks, rest, l);
  }

  // A change to lock l leaves the queues of the threads that do not hold it, before or after.
  lemma BystanderHolds(s: State, lks: map<Lid, Lock>, l: Lid, t: Tid)
    requires t in s.threads && HolderOk(s, t) && l in s.locks && l in lks && lks == s.locks[l := lks[l]]
    requires s.locks[l].holder != Some(t) && lks[l].holder != Some(t)
    ensures HoldsExactly(lks, t, s.threads[t].lockQueue)
    ensures forall l' :: l' in s.threads[t].lockQueue ==> LPri(lks, l') == LPri(s.locks, l')
  {
    LDescFrame(s.locks, lks, s.threads[t].lockQueue);
  }

  lemma OwnLocks(s: State, t: Tid, l: Lid)
    requires LockInv(s) && t in s.threads && l in s.locks && s.locks[l].holder == None
    ensures LockInv(Own(s, t, l))
    ensures AllExact(s) ==> AllExact(Own(s, t, l))
  {
    var s' := Own(s, t, l);
    var ls := s.threads[t].lockQueue;
    assert HolderOk(s, t);
    forall u | u in s'.threads
      ensures HolderOk(s', u) && (AllExact(s) ==> Exact(s', u))
    {
      assert AllExact(s) ==> Exact(s, u);
      if u == t {
        LDescFrame(s.locks, s'.locks, ls);
        PasteHeld(s'.locks, t, ls, l);
      } else {
        assert HolderOk(s, u);
        BystanderHolds(s, s'.locks, l, u);
      }
    }
  }

  /** Releasing leaves exactly the maximum over the locks still held, and with the last lock
      every donation is gone: the effective priority is the base priority again. */
  lemma DisownLocks(s: State, t: Tid, l: Lid)
    requires LockInv(s) && t in s.threads && l in s.locks && s.locks[l].holder == Some(t)
    ensures LockInv(Disown(s, t, l)) && Exact(Disown(s, t, l), t)
    ensures AllExact(s) ==> AllExact(Disown(s, t, l))
  {
    var s' := Disown(s, t, l);
    var ls := s.threads[t].lockQueue;
    assert HolderOk(s, t) && l in ls;
    CutHeld(s.locks, t, ls, l);
    LDescFrame(s.locks, s'.locks, Remove(ls, l));
    assert HolderOk(s', t) && Exact(s', t);
    forall u | u in s'.threads
      ensures HolderOk(s', u) && (AllExact(s) ==> Exact(s', u))
    {
      assert AllExact(s) ==> Exact(s, u);
      if u != t {
        assert HolderOk(s, u);
        BystanderHolds(s, s'.locks, l, u);
      }
    }
  }

  // The threads and locks after one turn of the donation loop.
  lemma DonateTurnEffect(s: State, l: Lid, d: Tid, p: int)
    requires l in s.locks && d in s.threads
    ensures var s' := DonateTurn(s, l, d, p); var th := s.threads[d];
            && s'.locks == s.locks[l := s.locks[l].(pri := p)]
            && s'.threads == s.threads[d := th.(lockQueue := InsertLock(s'.locks, Remove(th.lockQueue, l), l),
                                               ePri := if p <= th.ePri then th.ePri else p)]
  {
  }

  // The holder's queue is in order again, and its priority no lower than the new head.
  lemma DonateTurnHolder(s: State, l: Lid, d: Tid, p: int)
    requires LockInv(s) && l in s.locks && s.locks[l].holder == Some(d) && s.locks[l].pri < p
    ensures d in DonateTurn(s, l, d, p).threads && HolderOk(DonateTurn(s, l, d, p), d)
    ensures Exact(s, d) ==> Exact(DonateTurn(s, l, d, p), d)
  {
    var s' := DonateTurn(s, l, d, p);
    DonateTurnEffect(s, l, d, p);
    var ls := s.threads[d].lockQueue;
    assert HolderOk(s, d) && l in ls;
    CutHeld(s.locks, d, ls, l);
    var rest := Remove(ls, l);
    LDescFrame(s.locks, s'.locks, rest);
    PasteHeld(s'.locks, d, rest, l);
    assert LPri(s.locks, l) <= LPri(s.locks, ls[0]);
    if rest != [] {
      assert rest[0] in rest && LPri(s'.locks, rest[0]) == LPri(s.locks, rest[0]) <= LPri(s.locks, ls[0]);
    }
  }

  lemma DonateTurnLocks(s: State, l: Lid, d: Tid, p: int)
    requires LockInv(s) && l in s.locks && s.locks[l].holder == Some(d) && s.locks[l].pri < p
    ensures LockInv(DonateTurn(s, l, d, p))
    ensures AllExact(s) ==> AllExact(DonateTurn(s, l, d, p))
  {
    var s' := DonateTurn(s, l, d, p);
    DonateTurnHolder(s, l, d, p);
    DonateTurnEffect(s, l, d, p);
    forall u | u in s'.threads
      ensures HolderOk(s', u) && (AllExact(s) ==> Exact(s', u))
    {
      assert AllExact(s) ==> Exact(s, u);
      if u != d {
        assert HolderOk(s, u);
        BystanderHolds(s, s'.locks, l, u);
      }
    }
  }

  // Steps that leave holders, lock priorities and effective priorities alone.
  lemma FrameLocks(s: State, s': State)
    requires LockInv(s) && s'.locks.Keys == s.locks.Keys && s.threads.Keys == s'.threads.Keys
    requires forall l :: l in s.locks ==> s'.locks[l].holder == s.locks[l].holder && s'.locks[l].pri == s.locks[l].pri
    requires forall t :: t in s.threads ==>
               s'.threads[t].lockQueue == s.threads[t].lockQueue && s'.threads[t].ePri == s.threads[t].ePri
               && s'.threads[t].bPri == s.threads[t].bPri
    ensures LockInv(s') && (AllExact(s) ==> AllExact(s'))
  {
    forall t | t in s'.threads ensures HolderOk(s', t) && (AllExact(s) ==> Exact(s', t)) {
      assert HolderOk(s, t) && (AllExact(s) ==> Exact(s, t));
      LDescFrame(s.locks, s'.locks, s.threads[t].lockQueue);
    }
  }

  /** A change of base priority keeps the effective-priority equation exactly when it does not
      raise the base above the effective priority of a thread that holds locks. */
  lemma SetPriorityLocks(s: State, t: Tid, p: int)
    requires LockInv(s) && t in s.threads
    ensures LockInv(SetPriority(s, t, p))
    ensures AllExact(s) ==>
              (AllExact(SetPriority(s, t, p))
               <==> p == s.threads[t].bPri || p <= s.threads[t].ePri || s.threads[t].lockQueue == [])
  {
    var s' := SetPriority(s, t, p);
    var th := s.threads[t];
    forall u | u in s'.threads ensures HolderOk(s', u) { assert HolderOk(s, u); }
    if AllExact(s) {
      assert Exact(s, t);
      if p == th.bPri || p <= th.ePri || th.lockQueue == [] {
        forall u | u in s'.threads ensures Exact(s', u) { assert Exact(s, u); }
      } else {
        assert !Exact(s', t);
      }
    }
  }

  lemma CreateLocks(s: State, t: Tid, p: int)
    requires LockInv(s) && t !in s.threads
    ensures LockInv(Create(s, t, p)) && (AllExact(s) ==> AllExact(Create(s, t, p)))
  {
    var s' := Create(s, t, p);
    forall u | u in s'.threads ensures HolderOk(s', u) && (AllExact(s) ==> Exact(s', u)) {
      if u != t { assert HolderOk(s, u) && (AllExact(s) ==> Exact(s, u)); }
    }
  }
}
