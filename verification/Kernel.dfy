/** The kernel's threads, locks and semaphores as one object whose fields the regions of
    `thread.c` and `synch.c` update in place; each method performs one region. */
module KernelObject {
  import opened Queues
  import opened KernelState
  import opened QueueInvariant
  import opened LockInvariant
  import opened ControlInvariant
  import opened KernelRuns
  import opened Accounts

  // The first of a sorted queue is of the highest priority in it.
  lemma FrontTops(ths: map<Tid, Thread>, q: seq<Tid>)
    requires Desc(ths, q)
    ensures q != [] ==> Tops(ths, q[0], q)
  {
  }

  // Every step keeps what holds of the object.
  lemma StepValid(s: State, a: Action)
    requires Inv(s) && Unaided(s) && Enabled(s, a) && Apply(s, a).Done?
    ensures Inv(Apply(s, a).s) && Unaided(Apply(s, a).s)
  {
    hide Inv, Apply, Unaided;
    StepKeeps(s, a);
    StepOwn(s, a);
  }

  // What `lock_acquire` needs to go on with after requesting l, and after a walk from there.
  lemma RequestFit(s: State, t: Tid, l: Lid)
    requires Inv(s) && s.running == Some(t) && s.threads[t].pc == Free && l in s.locks
    ensures LockInv(Request(s, t, l)) && l in s.semas && Desc(Request(s, t, l).threads, s.ready)
    ensures var w := Walk(Request(s, t, l), t, l);
            w.Done? ==> t in w.s.threads && l in w.s.semas && Desc(w.s.threads, w.s.ready) && Desc(w.s.threads, w.s.semas[l].waiters)
    ensures Desc(Request(s, t, l).threads, s.semas[l].waiters)
  {
    var s2 := Request(s, t, l);
    AcquireStart(s, t, l);
    ReadySorted(s2);
    assert l in s2.semas;
    WaitersSorted(s2, l);
    if Walk(s2, t, l).Done? {
      WalkAtTest(s2, t, l);
      ReadySorted(Walk(s2, t, l).s);
      WaitersSorted(Walk(s2, t, l).s, l);
    }
  }

  // A try succeeds exactly when nobody holds the lock or is still releasing it.
  lemma TrySucceeds(s: State, l: Lid)
    requires Inv(s) && Enabled(s, TryAcquiring(l))
    ensures l in s.semas && (s.semas[l].value > 0 <==> s.locks[l].holder == None && Releasers(s, l) == {})
    ensures s.locks[l].holder != s.running
  {
    assert LockCounts(s, l);
  }

  lemma ReadySorted(s: State)
    requires QueueInv(s)
    ensures Desc(s.threads, s.ready) && forall t :: t in s.ready ==> t in s.threads
  {
    assert QueueOk(s, ReadyQ) && QueueOf(s, ReadyQ) == s.ready;
  }

  lemma WaitersSorted(s: State, x: Sid)
    requires QueueInv(s) && x in s.semas
    ensures Desc(s.threads, s.semas[x].waiters) && (s.semas[x].waiters != [] ==> s.semas[x].waiters[0] in s.threads)
  {
    assert QueueOk(s, WaitersQ(x)) && QueueOf(s, WaitersQ(x)) == s.semas[x].waiters;
    if s.semas[x].waiters != [] { assert s.semas[x].waiters[0] in s.semas[x].waiters; }
  }

  lemma ReleaseFit(s: State)
    requires Inv(s) && Enabled(s, FinishingRelease)
    ensures s.threads[s.running.value].pc.lock in s.semas && Desc(s.threads, s.ready)
  {
    assert PcOk(s, s.running.value);
    ReadySorted(s);
  }

  // r is q with t put behind every thread of at least its priority and ahead of the others.
  ghost predicate PlacedIn(ths: map<Tid, Thread>, q: seq<Tid>, t: Tid, r: seq<Tid>) {
    exists k :: 0 <= k <= |q| && r == q[..k] + [t] + q[k..]
      && (forall i :: 0 <= i < k ==> EPri(ths, q[i]) >= EPri(ths, t))
      && (forall i :: k <= i < |q| ==> EPri(ths, t) > EPri(ths, q[i]))
  }

  function Max(a: int, b: int): int { if a < b then b else a }

  // Nobody in the queue runs above t.
  ghost predicate Tops(ths: map<Tid, Thread>, t: Tid, q: seq<Tid>) { forall u :: u in q ==> EPri(ths, u) <= EPri(ths, t) }

  ghost predicate SameThreads(a: seq<Tid>, b: seq<Tid>) { multiset(a) == multiset(b) }

  // `list_insert_ordered` puts t there in any sorted queue.
  lemma PlacedAt(ths: map<Tid, Thread>, ths': map<Tid, Thread>, q: seq<Tid>, t: Tid)
    requires Desc(ths, q) && forall u :: EPri(ths', u) == EPri(ths, u)
    ensures PlacedIn(ths', q, t, InsertThread(ths, q, t))
  {
    var k := InsertDesc(ths, q, t);
  }

  lemma PlacedMembers(ths: map<Tid, Thread>, q: seq<Tid>, t: Tid, r: seq<Tid>)
    requires PlacedIn(ths, q, t, r)
    ensures multiset(r) == multiset([t] + q)
  {
    var k :| 0 <= k <= |q| && r == q[..k] + [t] + q[k..];
    assert q == q[..k] + q[k..];
  }

  // The next thread comes off the ready list and nobody there ran above it; none if it was empty.
  ghost predicate NextRuns(s: State, s': State) {
    if s'.running.Some? then s.ready == [s'.running.value] + s'.ready && Tops(s'.threads, s'.running.value, s.ready)
    else s.ready == [] && s'.ready == []
  }

  // One test of x by t: a positive value is taken and t runs on; otherwise t sleeps in order.
  ghost predicate TestDone(s: State, s': State, t: Tid, x: Sid)
    requires x in s.semas
  {
    if s.semas[x].value > 0 then
      s'.semas == s.semas[x := Sema(s.semas[x].value - 1, s.semas[x].waiters)] && s'.running == s.running && s'.ready == s.ready
    else
      && x in s'.semas && s'.semas == s.semas[x := Sema(0, s'.semas[x].waiters)]
      && PlacedIn(s'.threads, s.semas[x].waiters, t, s'.semas[x].waiters) && NextRuns(s, s')
  }

  // One up of x: the value rises by one, and the first waiter, above whom none waited, is ready.
  ghost predicate Raised(s: State, s': State, x: Sid)
    requires x in s.semas
  {
    && x in s'.semas && s'.semas == s.semas[x := Sema(s.semas[x].value + 1, s'.semas[x].waiters)]
    && s'.running == s.running && s'.locks == s.locks
    && if s.semas[x].waiters == [] then s'.semas[x].waiters == [] && s'.ready == s.ready
       else
         && s.semas[x].waiters == [s.semas[x].waiters[0]] + s'.semas[x].waiters
         && Tops(s.threads, s.semas[x].waiters[0], s.semas[x].waiters)
         && PlacedIn(s'.threads, s.ready, s.semas[x].waiters[0], s'.ready)
  }

  class Kernel {
    var threads: map<Tid, Thread>
    var locks: map<Lid, Lock>
    var semas: map<Sid, Sema>
    var ready: seq<Tid>
    var running: Option<Tid>

    ghost function View(): State
      reads this
    {
      State(threads, locks, semas, ready, running)
    }

    ghost predicate Valid()
      reads this
    {
      Inv(View()) && Unaided(View())
    }

    // `thread_init` and `lock_init` for the given locks and semaphores.
    constructor (main: Tid, priority: int, lockIds: set<Lid>, semaValues: map<Sid, nat>)
      requires lockIds !! semaValues.Keys
      ensures Valid() && Initial(View())
    {
      threads := map[main := Thread(priority, priority, None, [], None, Free)];
      locks := map l | l in lockIds :: Lock(None, 1, 0);
      semas := map x | x in lockIds + semaValues.Keys :: if x in lockIds then Sema(1, []) else Sema(semaValues[x], []);
      ready := [];
      running := Some(main);
      new;
      InitialInv(View());
    }

    // `list_insert_ordered` with `thread_before`
    method InsertByPriority(q: seq<Tid>, t: Tid) returns (r: seq<Tid>)
      ensures r == InsertThread(threads, q, t)
    {
      var k := 0;
      while k < |q| && EPri(threads, t) <= EPri(threads, q[k])
        invariant k <= |q| && forall i :: 0 <= i < k ==> EPri(threads, t) <= EPri(threads, q[i])
      {
        k := k + 1;
      }
      InsertPointIs(q, t, ThreadBefore(threads), k);
      r := q[..k] + [t] + q[k..];
    }

    // `list_insert_ordered` with `lock_before`
    method InsertByLockPriority(q: seq<Lid>, l: Lid) returns (r: seq<Lid>)
      ensures r == InsertLock(locks, q, l)
    {
      var k := 0;
      while k < |q| && LPri(locks, l) < LPri(locks, q[k])
        invariant k <= |q| && forall i :: 0 <= i < k ==> LPri(locks, l) < LPri(locks, q[i])
      {
        k := k + 1;
      }
      InsertPointIs(q, l, LockBefore(locks), k);
      r := q[..k] + [l] + q[k..];
    }

    /** `thread_enqueue`: the ready list stays sorted, and t is behind every thread of at least its
        priority and ahead of every thread below it. */
    method ThreadEnqueue(t: Tid)
      requires t in threads && Desc(threads, ready)
      modifies this`threads, this`ready
      ensures View() == Enqueue(old(View()), t)
      ensures Desc(threads, ready) && PlacedIn(threads, old(ready), t, ready)
    {
      threads := threads[t := threads[t].(queue := Some(ReadyQ))];
      DescFrame(old(threads), threads, ready);
      ghost var k := InsertDesc(threads, ready, t);
      ready := InsertByPriority(ready, t);
    }

    /** `schedule` through `thread_schedule_prio`: the next thread is off the ready list and of the
        highest priority there; nobody runs only if nobody was ready. */
    method ScheduleNext()
      requires Desc(threads, ready)
      modifies this`ready, this`running
      ensures View() == Schedule(old(View()))
      ensures if running.Some? then old(ready) == [running.value] + ready else old(ready) == []
      ensures running.Some? ==> Tops(threads, running.value, old(ready))
    {
      if ready != [] {
        running, ready := Some(ready[0]), ready[1..];
      } else {
        running := None;
      }
    }

    /** `thread_yield`: afterwards nobody ready runs above the running thread, and the threads ready
        or running are the same as before. */
    method ThreadYield()
      requires Valid() && Enabled(View(), Yielding)
      modifies this
      ensures Valid() && Apply(old(View()), Yielding) == Done(View())
      ensures running.Some? && Tops(threads, running.value, ready)
      ensures SameThreads([running.value] + ready, [old(running).value] + old(ready))
    {
      ReadySorted(View());
      hide Inv, Unaided, Yield, Desc, Tops, SameThreads;
      StepValid(View(), Yielding);
      YieldRegion();
    }

    method YieldRegion()
      requires Runs(View()) && Desc(threads, ready)
      modifies this
      ensures View() == Yield(old(View()), old(running).value)
      ensures running.Some? && Tops(threads, running.value, ready)
      ensures SameThreads([running.value] + ready, [old(running).value] + old(ready))
    {
      hide Desc, PlacedIn, InsertThread;
      ThreadEnqueue(running.value);
      ghost var q := ready;
      PlacedMembers(threads, old(ready), running.value, q);
      ScheduleNext();
    }

    /** `thread_set_priority`: the base priority is the new one, and so is the effective one of a
        thread without locks; one that holds some is raised at most. */
    method ThreadSetPriority(newPriority: int)
      requires Valid() && Enabled(View(), SettingPriority(newPriority))
      modifies this`threads
      ensures Valid() && Apply(old(View()), SettingPriority(newPriority)) == Done(View())
      ensures var t := running.value; var was := old(threads)[t];
              && t in threads && threads == old(threads)[t := was.(bPri := newPriority, ePri := threads[t].ePri)]
              && (was.lockQueue == [] ==> threads[t].ePri == newPriority)
              && (was.lockQueue != [] && was.bPri != newPriority ==> threads[t].ePri == Max(was.ePri, newPriority))
              && (was.bPri == newPriority ==> threads == old(threads))
    {
      StepValid(View(), SettingPriority(newPriority));
      var t := running.value;
      if newPriority == threads[t].bPri { return; }
      var th := threads[t];
      if newPriority > th.ePri {
        th := th.(ePri := newPriority);
      } else if th.lockQueue == [] {
        th := th.(ePri := newPriority);
      }
      threads := threads[t := th.(bPri := newPriority)];
    }

    /** `thread_create`: without a page for the thread nothing changes; with one it has the given
        priority and is ready, behind every ready thread of at least that. */
    method ThreadCreate(t: Tid, priority: int, pageOk: bool) returns (ok: bool)
      requires Valid() && Enabled(View(), Creating(t, priority))
      modifies this
      ensures Valid() && ok == pageOk
      ensures if ok then Apply(old(View()), Creating(t, priority)) == Done(View()) else View() == old(View())
      ensures ok ==> threads == old(threads)[t := Thread(priority, priority, None, [], Some(ReadyQ), Free)]
      ensures ok ==> PlacedIn(threads, old(ready), t, ready)
    {
      if !pageOk { return false; }
      StepValid(View(), Creating(t, priority));
      ReadySorted(View());
      hide Inv, Unaided, Create, Desc, PlacedIn;
      CreateRegion(t, priority);
      return true;
    }

    // `init_thread`, then `thread_unblock`
    method CreateRegion(t: Tid, priority: int)
      requires t !in threads && Desc(threads, ready) && forall u :: u in ready ==> u in threads
      modifies this
      ensures View() == Create(old(View()), t, priority) && PlacedIn(threads, old(ready), t, ready)
      ensures threads == old(threads)[t := Thread(priority, priority, None, [], Some(ReadyQ), Free)]
    {
      hide InsertThread, PlacedIn;
      threads := threads[t := Thread(priority, priority, None, [], None, Free)];
      DescFrame(old(threads), threads, ready);
      hide Desc;
      ThreadEnqueue(t);
    }

    // One test of the loop of `sema_down`, and what `lock_acquire` does after it.
    method SemaTest(t: Tid, x: Sid)
      requires t in threads && x in semas && running == Some(t) && Desc(threads, ready) && Desc(threads, semas[x].waiters)
      modifies this
      ensures View() == TryFinish(old(View()), t, x) && TestDone(old(View()), View(), t, x)
    {
      if semas[x].value == 0 {
        var waiters := InsertByPriority(semas[x].waiters, t);
        semas := semas[x := semas[x].(waiters := waiters)];
        threads := threads[t := threads[t].(queue := Some(WaitersQ(x)), pc := InDown(x))];
        PlacedAt(old(threads), threads, old(semas)[x].waiters, t);
        DescFrame(old(threads), threads, ready);
        ScheduleNext();
      } else {
        semas := semas[x := semas[x].(value := semas[x].value - 1)];
        if x in locks {
          locks := locks[x := locks[x].(pri := threads[t].ePri, holder := Some(t))];
          var queue := InsertByLockPriority(threads[t].lockQueue, x);
          threads := threads[t := threads[t].(donatedFor := None, pc := Free, lockQueue := queue)];
        } else {
          threads := threads[t := threads[t].(pc := Free)];
        }
      }
    }

    // `sema_down` up to where it sleeps or is done
    method SemaDown(x: Sid)
      requires Valid() && Enabled(View(), Downing(x))
      modifies this
      ensures Valid() && Apply(old(View()), Downing(x)) == Done(View())
      ensures TestDone(old(View()), View(), old(running).value, x)
    {
      StepValid(View(), Downing(x));
      ReadySorted(View());
      WaitersSorted(View(), x);
      hide Inv, Unaided, TryFinish;
      SemaTest(running.value, x);
    }

    // A thread dispatched inside `sema_down` tests the value again.
    method SemaResume()
      requires Valid() && Enabled(View(), Resuming)
      modifies this
      ensures Valid() && Apply(old(View()), Resuming) == Done(View())
      ensures var x := old(threads[running.value].pc.sema); x in old(semas) && TestDone(old(View()), View(), old(running).value, x)
    {
      StepValid(View(), Resuming);
      assert PcOk(View(), running.value);
      ReadySorted(View());
      WaitersSorted(View(), threads[running.value].pc.sema);
      hide Inv, Unaided, TryFinish;
      SemaTest(running.value, threads[running.value].pc.sema);
    }

    // `sema_try_down`
    method SemaTryDown(x: Sid) returns (success: bool)
      requires Valid() && Enabled(View(), TryDowning(x))
      modifies this`semas
      ensures Valid() && Apply(old(View()), TryDowning(x)) == Done(View())
      ensures success <==> old(semas)[x].value > 0
      ensures semas == if success then old(semas)[x := Sema(old(semas)[x].value - 1, old(semas)[x].waiters)] else old(semas)
    {
      StepValid(View(), TryDowning(x));
      hide Inv, Unaided;
      success := semas[x].value > 0;
      if success { semas := semas[x := semas[x].(value := semas[x].value - 1)]; }
    }

    // The region of `sema_up`.
    method SemaUpRegion(x: Sid)
      requires x in semas && (semas[x].waiters != [] ==> semas[x].waiters[0] in threads)
      requires Desc(threads, ready) && Desc(threads, semas[x].waiters)
      modifies this
      ensures View() == Wake(old(View()), x) && Raised(old(View()), View(), x)
    {
      FrontTops(threads, semas[x].waiters);
      hide Desc, InsertThread, PlacedIn;
      if semas[x].waiters != [] {
        var t := semas[x].waiters[0];
        semas := semas[x := semas[x].(waiters := semas[x].waiters[1..])];
        ThreadEnqueue(t);
      }
      semas := semas[x := semas[x].(value := semas[x].value + 1)];
    }

    method SemaUp(x: Sid)
      requires Valid() && Enabled(View(), Upping(x))
      modifies this
      ensures Valid() && Apply(old(View()), Upping(x)) == Done(View())
      ensures Raised(old(View()), View(), x)
    {
      StepValid(View(), Upping(x));
      ReadySorted(View());
      WaitersSorted(View(), x);
      hide Inv, Unaided, Wake;
      SemaUpRegion(x);
    }

    /** `donate_pri_acquire`: moves donor, lock and donee up the chain of waiting. Returns whether
        the walk got by without its assertion failing. */
    method DonatePriAcquire(self: Tid, l: Lid) returns (ok: bool)
      requires l in locks && self in threads && LockInv(View())
      modifies this
      ensures running == old(running)
      ensures Walk(old(View()), self, l) == if ok then Done(View()) else Panic
    {
      ghost var s0 := View();
      var lock, donor, donee := l, self, locks[l].holder;
      while true
        invariant lock in locks && donor in threads && donee == locks[lock].holder && running == old(running)
        invariant LockInv(View())
        invariant Walk(View(), donor, lock) == Walk(s0, self, l)
        decreases |Below(View(), EPri(threads, donor))|
      {
        if donee == None { return false; }
        var d := donee.value;
        if locks[lock].pri >= threads[donor].ePri { return true; }
        var p := threads[donor].ePri;
        ghost var s := View();
        DonateTurnLocks(s, lock, d, p);
        TurnShrinks(s, lock, d, p);
        var more := RaiseLockAndHolder(lock, d, p);
        if !more || threads[d].donatedFor == None || threads[d].donatedFor.value !in locks { return true; }
        donor, lock := d, threads[d].donatedFor.value;
        donee := locks[lock].holder;
      }
    }

    // One turn of the loop; whether the holder was below p.
    method RaiseLockAndHolder(l: Lid, d: Tid, p: int) returns (more: bool)
      requires l in locks && d in threads
      modifies this
      ensures View() == DonateTurn(old(View()), l, d, p) && more == (old(threads)[d].ePri < p)
      ensures d in threads && threads[d].donatedFor == old(threads)[d].donatedFor && running == old(running)
    {
      // Raise the lock and move it within its holder's queue.
      locks := locks[l := locks[l].(pri := p)];
      var queue := InsertByLockPriority(Remove(threads[d].lockQueue, l), l);
      threads := threads[d := threads[d].(lockQueue := queue)];
      if p <= threads[d].ePri { return false; }

      // Raise the holder and move it within the list it stands in.
      threads := threads[d := threads[d].(ePri := p)];
      RequeueThread(d);
      return true;
    }

    // `list_remove`, then `list_insert_ordered` into the list `queue` names
    method RequeueThread(d: Tid)
      requires d in threads
      modifies this`ready, this`semas
      ensures View() == Requeue(old(View()), d)
    {
      match threads[d].queue
      case None =>
      case Some(ReadyQ) =>
        ready := InsertByPriority(Remove(ready, d), d);
      case Some(WaitersQ(x)) =>
        var sm := if x in semas then semas[x] else Sema(0, []);
        var waiters := InsertByPriority(Remove(sm.waiters, d), d);
        semas := semas[x := sm.(waiters := waiters)];
    }

    /** `lock_acquire` up to where it sleeps or has the lock; false if the donation walk's
        assertion fails. */
    method LockAcquire(l: Lid) returns (ok: bool)
      requires Valid() && Enabled(View(), Acquiring(l))
      modifies this
      ensures ok ==> Valid()
      ensures Apply(old(View()), Acquiring(l)) == if ok then Done(View()) else Panic
      ensures ok ==> l in locks
                     && (locks[l].holder == old(running) <==> old(locks[l].holder) == None && old(Releasers(View(), l)) == {})
    {
      ghost var s := View();
      hide Inv, Unaided, Apply;
      ok := LockAcquireRegion(l);
      if ok {
        StepValid(s, Acquiring(l));
        AcquireTakesIff(s, l);
      }
    }

    method LockAcquireRegion(l: Lid) returns (ok: bool)
      requires Valid() && Enabled(View(), Acquiring(l))
      modifies this
      ensures Apply(old(View()), Acquiring(l)) == if ok then Done(View()) else Panic
    {
      var t := running.value;
      RequestFit(View(), t, l);
      hide Inv, Desc, LockInv, Walk, TryFinish, Wrap8;
      RequestFields(t, l);
      ghost var s2 := View();
      ok := true;
      if locks[l].state < 0 && locks[l].holder.Some? {
        ok := DonatePriAcquire(t, l);
        if !ok { return; }
      }
      SemaTest(t, l);
    }

    // the state and `donated_for`
    method RequestFields(t: Tid, l: Lid)
      requires t in threads && l in locks
      modifies this`locks, this`threads
      ensures View() == Request(old(View()), t, l)
    {
      locks := locks[l := locks[l].(state := Wrap8(locks[l].state - 1))];
      threads := threads[t := threads[t].(donatedFor := Some(l))];
    }

    method LockTryAcquire(l: Lid) returns (success: bool)
      requires Valid() && Enabled(View(), TryAcquiring(l))
      modifies this
      ensures Valid() && Apply(old(View()), TryAcquiring(l)) == Done(View())
      ensures success <==> old(locks[l].holder) == None && old(Releasers(View(), l)) == {}
      ensures success <==> locks[l].holder == running
    {
      ghost var s := View();
      StepValid(s, TryAcquiring(l));
      TrySucceeds(s, l);
      hide Inv, Unaided;
      success := LockTryAcquireRegion(l);
    }

    method LockTryAcquireRegion(l: Lid) returns (success: bool)
      requires Valid() && Enabled(View(), TryAcquiring(l))
      modifies this
      ensures View() == TryAcquire(old(View()), old(running).value, l) && success == (old(semas)[l].value > 0)
      ensures l in locks && running == old(running)
      ensures if success then locks[l].holder == running else locks == old(locks)
    {
      ghost var s := View();
      assert LockCounts(s, l);
      assert PcOk(s, running.value);
      hide Inv, ControlInv, LockCounts, InsertLock;
      var t := running.value;
      success := semas[l].value > 0;
      if success {
        semas := semas[l := semas[l].(value := semas[l].value - 1)];
        locks := locks[l := locks[l].(state := Wrap8(locks[l].state - 1))];
        locks := locks[l := locks[l].(pri := threads[t].ePri, holder := Some(t))];
        var queue := InsertByLockPriority(threads[t].lockQueue, l);
        threads := threads[t := threads[t].(donatedFor := None, pc := Free, lockQueue := queue)];
        assert View() == TryAcquire(s, t, l);
      }
    }

    // The interrupt-off region of `lock_release`.
    method LockReleaseRegion(l: Lid)
      requires Valid() && Enabled(View(), Disowning(l))
      modifies this
      ensures Valid() && Apply(old(View()), Disowning(l)) == Done(View())
      ensures l in locks && locks[l].holder == None
      ensures var t := old(running).value; t in threads && LeftWith(old(View()), View(), t, l)
    {
      StepValid(View(), Disowning(l));
      ReleaseIs(View(), l);
      hide Inv, Unaided, Disown, LeftWith;
      ReleaseFields(l);
    }

    method ReleaseFields(l: Lid)
      requires Enabled(View(), Disowning(l))
      modifies this
      ensures View() == Disown(old(View()), old(running).value, l)
    {
      var t := running.value;
      locks := locks[l := Lock(None, locks[l].state, 0)];
      var rest := Remove(threads[t].lockQueue, l);
      var e := if rest == [] then threads[t].bPri else LPri(locks, rest[0]);
      locks := locks[l := locks[l].(state := Wrap8(locks[l].state + 1))];
      threads := threads[t := threads[t].(lockQueue := rest, pc := Releasing(l), ePri := e)];
      assert View() == Disown(old(View()), t, l);
    }

    // The `sema_up` that ends `lock_release`.
    method LockReleaseUp()
      requires Valid() && Enabled(View(), FinishingRelease)
      modifies this
      ensures Valid() && Apply(old(View()), FinishingRelease) == Done(View())
      ensures var l := old(threads[running.value].pc.lock); l in old(semas) && Raised(old(View()), View(), l)
    {
      StepValid(View(), FinishingRelease);
      ReleaseFit(View());
      WaitersSorted(View(), threads[running.value].pc.lock);
      hide Inv, Unaided, FinishRelease;
      ReleaseUpRegion(running.value, threads[running.value].pc.lock);
    }

    method ReleaseUpRegion(t: Tid, l: Lid)
      requires t in threads && l in semas && (semas[l].waiters != [] ==> semas[l].waiters[0] in threads)
      requires Desc(threads, ready) && Desc(threads, semas[l].waiters)
      modifies this
      ensures View() == FinishRelease(old(View()), t, l) && Raised(old(View()), View(), l)
    {
      threads := threads[t := threads[t].(pc := Free)];
      DescFrame(old(threads), threads, ready);
      DescFrame(old(threads), threads, semas[l].waiters);
      FrontTops(old(threads), semas[l].waiters);
      hide Desc, Wake;
      SemaUpRegion(l);
    }
  }
}
