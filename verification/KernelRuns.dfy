/** What holds in every state of every run of the scheduler, semaphores and locks. */
module KernelRuns {
  import opened Queues
  import opened KernelState
  import opened QueueInvariant
  import opened LockInvariant
  import opened ControlInvariant
  import opened Donation

  ghost predicate Inv(s: State) { QueueInv(s) && LockInv(s) && ControlInv(s) }

  // One running thread, all locks as `lock_init` leaves them, nobody waiting.
  ghost predicate Initial(s: State) {
    && s.ready == [] && Runs(s) && s.threads.Keys == {s.running.value}
    && s.threads[s.running.value].bPri == s.threads[s.running.value].ePri
    && s.threads[s.running.value].donatedFor == None && s.threads[s.running.value].lockQueue == []
    && s.threads[s.running.value].pc == Free
    && (forall l :: l in s.locks ==> s.locks[l] == Lock(None, 1, 0) && l in s.semas && s.semas[l].value == 1)
    && (forall x :: x in s.semas ==> s.semas[x].waiters == [])
  }

  lemma InitialInv(s: State)
    requires Initial(s)
    ensures Inv(s) && AllExact(s) && Ordered(s)
  {
    var t := s.running.value;
    forall q ensures QueueOk(s, q) { assert QueueOf(s, q) == []; }
    assert HolderOk(s, t);
    forall l | l in s.locks ensures LockCounts(s, l) {
      assert Requesters(s, l) == {} && Releasers(s, l) == {};
    }
  }

  // ---- one step ----

  lemma AcquireStart(s: State, t: Tid, l: Lid)
    requires Inv(s) && s.running == Some(t) && t in s.threads && s.threads[t].pc == Free && l in s.locks
    ensures var s2 := Request(s, t, l);
            && QueueInv(s2) && LockInv(s2) && (AllExact(s) ==> AllExact(s2)) && AtTest(s2, t, l)
            && (Ordered(s) ==> OrderedBut(s2, t))
            && (s2.locks[l].holder.None? && Ordered(s) ==> Ordered(s2))
  {
    var s2 := Request(s, t, l);
    forall q ensures QueueOf(s2, q) == QueueOf(s, q) {}
    FrameQueues(s, s2);
    FrameLocks(s, s2);
    RequestControl(s, t, l);
    if Ordered(s) {
      forall u | u in s2.threads && u != t ensures EdgeOk(s2, u) { assert EdgeOk(s, u); }
    }
  }

  // The walk inside `lock_acquire` leaves the thread at the test of `sema_down`.
  lemma WalkAtTest(s: State, t: Tid, l: Lid)
    requires QueueInv(s) && LockInv(s) && AtTest(s, t, l) && l in s.locks && s.running == Some(t)
    requires Walk(s, t, l).Done?
    ensures var s3 := Walk(s, t, l).s;
            && QueueInv(s3) && LockInv(s3) && (AllExact(s) ==> AllExact(s3)) && AtTest(s3, t, l) && s3.running == Some(t)
            && (OrderedBut(s, t) ==> Ordered(s3)) && OnlyRaises(s, s3, EPri(s.threads, t))
            && EPri(s3.threads, t) == EPri(s.threads, t)
  {
    var s3 := Walk(s, t, l).s;
    var p := EPri(s.threads, t);
    WalkKeeps(s, t, l);
    forall u | u in s.threads
      ensures s3.threads[u].pc == s.threads[u].pc && s3.threads[u].donatedFor == s.threads[u].donatedFor
    {
      assert ThreadRaised(s.threads[u], s3.threads[u], p);
    }
    forall m | m in s.locks
      ensures s3.locks[m].holder == s.locks[m].holder && s3.locks[m].state == s.locks[m].state
    {
      assert LockRaised(s.locks[m], s3.locks[m], p);
    }
    FrameControl(s, s3);
    assert ControlBut(s3, t);
    forall y | y in s3.semas ensures t !in s3.semas[y].waiters {
      SameMembers(s.semas[y].waiters, s3.semas[y].waiters);
    }
    if OrderedBut(s, t) { WalkOrders(s, t, l); }
  }

  lemma SleepLocks(s: State, t: Tid, x: Sid)
    requires LockInv(s) && t in s.threads
    ensures LockInv(Sleep(s, t, x)) && (AllExact(s) ==> AllExact(Sleep(s, t, x)))
    ensures Ordered(Sleep(s, t, x)) <==> Ordered(s)
  {
    var s' := Sleep(s, t, x);
    FrameLocks(s, s');
    assert forall u :: u in s.threads ==> (EdgeOk(s', u) <==> EdgeOk(s, u));
  }

  lemma SleepKeeps(s: State, t: Tid, x: Sid)
    requires QueueInv(s) && LockInv(s) && AtTest(s, t, x) && s.running == Some(t) && s.semas[x].value == 0
    ensures Inv(Sleep(s, t, x)) && (AllExact(s) ==> AllExact(Sleep(s, t, x)))
    ensures Ordered(Sleep(s, t, x)) <==> Ordered(s)
  {
    SleepQueues(s, t, x);
    SleepControl(s, t, x);
    SleepLocks(s, t, x);
  }

  // No requester of l runs above t: t is a rightful next holder.
  ghost predicate TopRequester(s: State, t: Tid, l: Lid) {
    forall u :: u in Requesters(s, l) && u != t ==> EPri(s.threads, u) <= EPri(s.threads, t)
  }

  /** Becoming the holder keeps the donation order exactly when no other requester runs above
      the new holder. */
  lemma OwnOrderedIff(s: State, t: Tid, l: Lid)
    requires t in s.threads && l in s.locks && Ordered(s) && s.locks[l].holder == None
    ensures Ordered(Own(s, t, l)) <==> TopRequester(s, t, l)
  {
    var s' := Own(s, t, l);
    if TopRequester(s, t, l) {
      forall u | u in s'.threads ensures EdgeOk(s', u) {
        assert EdgeOk(s, u);
        if s'.threads[u].donatedFor == Some(l) { assert u in Requesters(s, l); }
      }
    } else {
      var u :| u in Requesters(s, l) && u != t && EPri(s.threads, u) > EPri(s.threads, t);
      assert !EdgeOk(s', u);
    }
  }

  lemma OrderedFrame(s: State, s1: State)
    requires s1.threads == s.threads && s1.locks.Keys == s.locks.Keys
    requires forall l :: l in s.locks ==> s1.locks[l].holder == s.locks[l].holder && s1.locks[l].pri == s.locks[l].pri
    ensures Ordered(s1) <==> Ordered(s)
  {
    forall u | u in s.threads ensures EdgeOk(s1, u) <==> EdgeOk(s, u) {
      var df := s.threads[u].donatedFor;
      if df.Some? {
        var l := df.value;
        assert l in s1.locks.Keys <==> l in s.locks.Keys;
        assert l in s.locks ==> s1.locks[l].holder == s.locks[l].holder;
      }
    }
    assert Ordered(s) ==> forall u :: u in s1.threads ==> EdgeOk(s, u);
    assert Ordered(s1) ==> forall u :: u in s.threads ==> EdgeOk(s1, u);
  }

  lemma TakeOrdered(s: State, t: Tid, x: Sid)
    requires t in s.threads && x in s.semas && s.semas[x].value > 0 && Ordered(s)
    requires x in s.locks ==> s.locks[x].holder == None
    ensures x in s.locks ==> (Ordered(TryFinish(s, t, x)) <==> TopRequester(s, t, x))
    ensures x !in s.locks ==> Ordered(TryFinish(s, t, x))
  {
    var s1 := SetValue(s, x, s.semas[x].value - 1);
    OrderedFrame(s, s1);
    if x in s.locks {
      OwnOrderedIff(s1, t, x);
      assert Requesters(s1, x) == Requesters(s, x);
    } else {
      var s' := TryFinish(s, t, x);
      forall u | u in s'.threads ensures EdgeOk(s', u) { assert EdgeOk(s1, u); }
    }
  }

  lemma TakeLocks(s: State, t: Tid, x: Sid)
    requires LockInv(s) && t in s.threads && x in s.semas && s.semas[x].value > 0
    requires x in s.locks ==> s.locks[x].holder == None
    ensures LockInv(TryFinish(s, t, x)) && (AllExact(s) ==> AllExact(TryFinish(s, t, x)))
  {
    var s1 := SetValue(s, x, s.semas[x].value - 1);
    FrameLocks(s, s1);
    if x in s.locks { OwnLocks(s1, t, x); } else { FrameLocks(s1, TryFinish(s, t, x)); }
  }

  lemma TakeKeeps(s: State, t: Tid, x: Sid)
    requires QueueInv(s) && LockInv(s) && AtTest(s, t, x) && s.running == Some(t) && s.semas[x].value > 0
    ensures Inv(TryFinish(s, t, x)) && (AllExact(s) ==> AllExact(TryFinish(s, t, x)))
    ensures Ordered(s) && x in s.locks ==> (Ordered(TryFinish(s, t, x)) <==> TopRequester(s, t, x))
    ensures Ordered(s) && x !in s.locks ==> Ordered(TryFinish(s, t, x))
  {
    TakeControl(s, t, x);
    TakeLocks(s, t, x);
    TakeQueues(s, t, x);
    if Ordered(s) { TakeOrdered(s, t, x); }
  }

  lemma TakeQueues(s: State, t: Tid, x: Sid)
    requires QueueInv(s) && s.running == Some(t) && x in s.semas && s.semas[x].value > 0
    ensures QueueInv(TryFinish(s, t, x))
  {
    var s' := TryFinish(s, t, x);
    forall q ensures QueueOf(s', q) == QueueOf(s, q) {}
    FrameQueues(s, s');
  }

  // A thread at rest in its own code, or just dispatched inside `sema_down`, is at the test.
  lemma AtTestFromInv(s: State, t: Tid, x: Sid)
    requires Inv(s) && s.running == Some(t) && x in s.semas
    requires s.threads[t].pc == InDown(x) || (s.threads[t].pc == Free && x !in s.locks)
    ensures AtTest(s, t, x)
  {
    assert PcOk(s, t);
    forall y | y in s.semas ensures t !in s.semas[y].waiters {
      assert QueueOk(s, WaitersQ(y)) && QueueOf(s, WaitersQ(y)) == s.semas[y].waiters;
    }
  }

  // `lock_acquire`: perhaps a donation, then the test of `sema_down`.
  lemma AcquireUnfold(s: State, l: Lid)
    requires Enabled(s, Acquiring(l))
    ensures var t, s2 := s.running.value, Request(s, s.running.value, l);
            Apply(s, Acquiring(l)) ==
            if s.locks[l].holder.Some? && s2.locks[l].state < 0 then
              match Walk(s2, t, l) case Panic => Panic case Done(s3) => Done(TryFinish(s3, t, l))
            else
              Done(TryFinish(s2, t, l))
  {
    hide Walk, TryFinish, Wrap8;
  }

  lemma AtTestKeeps(s: State, t: Tid, x: Sid)
    requires QueueInv(s) && LockInv(s) && AtTest(s, t, x) && s.running == Some(t)
    ensures Inv(TryFinish(s, t, x)) && (AllExact(s) ==> AllExact(TryFinish(s, t, x)))
  {
    if s.semas[x].value == 0 { SleepKeeps(s, t, x); } else { TakeKeeps(s, t, x); }
  }

  lemma AcquireKeeps(s: State, l: Lid)
    requires Inv(s) && Enabled(s, Acquiring(l)) && Apply(s, Acquiring(l)).Done?
    ensures Inv(Apply(s, Acquiring(l)).s) && (AllExact(s) ==> AllExact(Apply(s, Acquiring(l)).s))
  {
    var t, s2 := s.running.value, Request(s, s.running.value, l);
    AcquireStart(s, t, l);
    AcquireUnfold(s, l);
    hide Inv, QueueInv, LockInv, AtTest, AllExact, Walk, TryFinish, Apply, Ordered, OrderedBut, OnlyRaises;
    if s.locks[l].holder.Some? && s2.locks[l].state < 0 {
      WalkAtTest(s2, t, l);
      AtTestKeeps(Walk(s2, t, l).s, t, l);
    } else {
      AtTestKeeps(s2, t, l);
    }
  }

  // `lock_try_acquire` up to the point where the lock changes hands.
  function Tried(s: State, l: Lid): State {
    PutLk(SetValue(s, l, if Sm(s, l).value == 0 then 0 else Sm(s, l).value - 1), l,
          Lk(s, l).(state := Wrap8(Lk(s, l).state - 1)))
  }

  lemma TriedKeeps(s: State, l: Lid)
    requires QueueInv(s) && LockInv(s) && l in s.locks && l in s.semas
    ensures QueueInv(Tried(s, l)) && LockInv(Tried(s, l)) && (AllExact(s) ==> AllExact(Tried(s, l)))
    ensures (Ordered(s) <==> Ordered(Tried(s, l))) && Requesters(Tried(s, l), l) == Requesters(s, l)
  {
    var s1 := Tried(s, l);
    forall q ensures QueueOf(s1, q) == QueueOf(s, q) {}
    FrameQueues(s, s1);
    FrameLocks(s, s1);
    OrderedFrame(s, s1);
  }

  lemma TryAcquireKeeps(s: State, t: Tid, l: Lid)
    requires Inv(s) && s.running == Some(t) && s.threads[t].pc == Free && l in s.locks
    ensures Inv(TryAcquire(s, t, l)) && (AllExact(s) ==> AllExact(TryAcquire(s, t, l)))
    ensures Ordered(s) && s.semas[l].value > 0 ==> (Ordered(TryAcquire(s, t, l)) <==> TopRequester(s, t, l))
  {
    TryAcquireControl(s, t, l);
    if s.semas[l].value > 0 {
      var s1 := Tried(s, l);
      TriedKeeps(s, l);
      OwnLocks(s1, t, l);
      OwnQueues(s1, t, l);
      if Ordered(s) { OwnOrderedIff(s1, t, l); }
      assert TryAcquire(s, t, l) == Own(s1, t, l);
    }
  }

  lemma OwnQueues(s: State, t: Tid, l: Lid)
    requires QueueInv(s) && s.running == Some(t)
    ensures QueueInv(Own(s, t, l))
  {
    var s' := Own(s, t, l);
    forall q ensures QueueOf(s', q) == QueueOf(s, q) {}
    FrameQueues(s, s');
  }

  lemma DisownKeeps(s: State, t: Tid, l: Lid)
    requires Inv(s) && s.running == Some(t) && s.threads[t].pc == Free && l in s.locks && s.locks[l].holder == Some(t)
    ensures Inv(Disown(s, t, l)) && (AllExact(s) ==> AllExact(Disown(s, t, l)))
    ensures Ordered(s) ==> Ordered(Disown(s, t, l))
  {
    var s' := Disown(s, t, l);
    DisownControl(s, t, l);
    DisownLocks(s, t, l);
    forall q ensures QueueOf(s', q) == QueueOf(s, q) {}
    FrameQueues(s, s');
    if Ordered(s) {
      forall u | u in s'.threads ensures EdgeOk(s', u) { assert EdgeOk(s, u) && PcOk(s, u); }
    }
  }

  // Places in queues and in the code may change, nothing else about threads and locks.
  ghost predicate OnlyMoves(s: State, s': State) {
    && s'.locks == s.locks && s'.threads.Keys == s.threads.Keys
    && forall t :: t in s.threads ==>
         s'.threads[t] == s.threads[t].(queue := s'.threads[t].queue, pc := s'.threads[t].pc)
  }

  lemma MovesKeep(s: State, s': State)
    requires LockInv(s) && OnlyMoves(s, s')
    ensures LockInv(s') && (AllExact(s) ==> AllExact(s')) && (Ordered(s) ==> Ordered(s'))
  {
    FrameLocks(s, s');
    if Ordered(s) { forall u | u in s'.threads ensures EdgeOk(s', u) { assert EdgeOk(s, u); } }
  }

  lemma FinishReleaseKeeps(s: State, t: Tid, l: Lid)
    requires Inv(s) && s.running == Some(t) && s.threads[t].pc == Releasing(l)
    ensures Inv(FinishRelease(s, t, l)) && OnlyMoves(s, FinishRelease(s, t, l))
  {
    assert PcOk(s, t);
    assert QueueOk(s, WaitersQ(l)) && QueueOf(s, WaitersQ(l)) == s.semas[l].waiters;
    FinishReleaseControl(s, t, l);
    var s1 := PutTh(s, t, s.threads[t].(pc := Free));
    forall q ensures QueueOf(s1, q) == QueueOf(s, q) {}
    FrameQueues(s, s1);
    WakeQueues(s1, l);
    WakeMoves(s1, l);
    assert OnlyMoves(s, FinishRelease(s, t, l));
    hide QueueInv, OnlyMoves, ControlInv, FinishRelease;
    MovesKeep(s, FinishRelease(s, t, l));
  }

  lemma WakeMoves(s: State, x: Sid)
    requires QueueInv(s) && x in s.semas
    ensures OnlyMoves(s, Wake(s, x))
  {
    if s.semas[x].waiters != [] {
      assert QueueOk(s, WaitersQ(x)) && QueueOf(s, WaitersQ(x)) == s.semas[x].waiters;
      assert s.semas[x].waiters[0] in s.semas[x].waiters;
    }
  }

  lemma UpKeeps(s: State, x: Sid)
    requires Inv(s) && x in s.semas && x !in s.locks
    ensures Inv(Wake(s, x)) && OnlyMoves(s, Wake(s, x))
  {
    assert QueueOk(s, WaitersQ(x)) && QueueOf(s, WaitersQ(x)) == s.semas[x].waiters;
    WakeControl(s, x);
    WakeQueues(s, x);
    WakeMoves(s, x);
    MovesKeep(s, Wake(s, x));
  }

  lemma YieldKeeps(s: State, t: Tid)
    requires Inv(s) && s.running == Some(t)
    ensures Inv(Yield(s, t)) && OnlyMoves(s, Yield(s, t))
  {
    YieldQueues(s, t);
    FrameControl(s, Yield(s, t));
    MovesKeep(s, Yield(s, t));
  }

  lemma DispatchKeeps(s: State)
    requires Inv(s) && s.running == None
    ensures Inv(Schedule(s)) && OnlyMoves(s, Schedule(s))
  {
    ScheduleQueues(s);
    FrameControl(s, Schedule(s));
    MovesKeep(s, Schedule(s));
  }

  lemma SetPriorityKeeps(s: State, t: Tid, p: int)
    requires Inv(s) && s.running == Some(t) && s.threads[t].pc == Free
    ensures Inv(SetPriority(s, t, p)) && (Ordered(s) ==> Ordered(SetPriority(s, t, p)))
  {
    assert t in s.threads;
    hide LockInv, ControlInv, QueueInv, SetPriority, Ordered;
    SetPriorityLocks(s, t, p);
    SetPriorityFrames(s, t, p);
    if Ordered(s) { SetPriorityOrdered(s, t, p); }
  }

  lemma SetPriorityFrames(s: State, t: Tid, p: int)
    requires ControlInv(s) && QueueInv(s) && s.running == Some(t) && t in s.threads && s.threads[t].pc == Free
    ensures ControlInv(SetPriority(s, t, p)) && QueueInv(SetPriority(s, t, p))
  {
    hide ControlInv, QueueInv, PutTh;
    var th := s.threads[t];
    OwnPriorities(s, t, th.(ePri := p, bPri := p));
    OwnPriorities(s, t, th.(bPri := p));
  }

  // The running thread's priorities matter neither to the queues nor to the counts.
  lemma OwnPriorities(s: State, t: Tid, th: Thread)
    requires ControlInv(s) && QueueInv(s) && s.running == Some(t) && t in s.threads
    requires th == s.threads[t].(ePri := th.ePri, bPri := th.bPri)
    ensures ControlInv(PutTh(s, t, th)) && QueueInv(PutTh(s, t, th))
  {
    var s' := PutTh(s, t, th);
    hide ControlInv, QueueInv;
    FrameControl(s, s');
    forall q ensures QueueOf(s', q) == QueueOf(s, q) {}
    FrameQueues(s, s');
  }

  lemma SetPriorityOrdered(s: State, t: Tid, p: int)
    requires ControlInv(s) && Ordered(s) && t in s.threads && s.threads[t].pc == Free
    ensures Ordered(SetPriority(s, t, p))
  {
    var s' := SetPriority(s, t, p);
    forall u | u in s'.threads ensures EdgeOk(s', u) { assert EdgeOk(s, u) && PcOk(s, u); }
  }

  lemma CreateKeeps(s: State, t: Tid, p: int)
    requires Inv(s) && t !in s.threads
    ensures Inv(Create(s, t, p)) && (AllExact(s) ==> AllExact(Create(s, t, p)))
    ensures Ordered(s) ==> Ordered(Create(s, t, p))
  {
    var s' := Create(s, t, p);
    CreateLocks(s, t, p);
    CreateControl(s, t, p);
    var s1 := PutTh(s, t, Thread(p, p, None, [], None, Free));
    forall q ensures QueueOk(s1, q) && t !in QueueOf(s1, q) {
      assert QueueOk(s, q) && QueueOf(s1, q) == QueueOf(s, q);
      DescFrame(s.threads, s1.threads, QueueOf(s, q));
    }
    forall u | u in s1.threads && u != t ensures s1.running == Some(u) || Queued(s1, u) {
      assert s.running == Some(u) || Queued(s, u);
    }
    EnqueueQueues(s1, t);
    if Ordered(s) { forall u | u in s'.threads && u != t ensures EdgeOk(s', u) { assert EdgeOk(s, u); } }
  }

  // Steps that only move threads between queues, or change a semaphore's value.
  predicate Moving(a: Action) {
    a.FinishingRelease? || a.TryDowning? || a.Upping? || a.Yielding? || a.Dispatching?
  }

  lemma MovingKeeps(s: State, a: Action)
    requires Inv(s) && Enabled(s, a) && Moving(a)
    ensures Inv(Apply(s, a).s) && OnlyMoves(s, Apply(s, a).s)
    ensures (AllExact(s) ==> AllExact(Apply(s, a).s)) && (Ordered(s) ==> Ordered(Apply(s, a).s))
  {
    hide AllExact, Ordered, OnlyMoves, QueueInv, LockInv, Wake, Yield, Schedule, FinishRelease;
    match a {
      case FinishingRelease => FinishReleaseKeeps(s, s.running.value, s.threads[s.running.value].pc.lock);
      case TryDowning(x) => TryDownKeeps(s, x);
      case Upping(x) => UpKeeps(s, x);
      case Yielding => YieldKeeps(s, s.running.value);
      case Dispatching => DispatchKeeps(s);
    }
    MovesKeep(s, Apply(s, a).s);
  }

  lemma TryDownKeeps(s: State, x: Sid)
    requires Inv(s) && x in s.semas && x !in s.locks
    ensures var s' := if s.semas[x].value == 0 then s else SetValue(s, x, s.semas[x].value - 1);
            Inv(s') && OnlyMoves(s, s')
  {
    if s.semas[x].value > 0 {
      var s' := SetValue(s, x, s.semas[x].value - 1);
      TryDownControl(s, x);
      forall q ensures QueueOf(s', q) == QueueOf(s, q) {}
      FrameQueues(s, s');
      MovesKeep(s, s');
    }
  }

  // A step does not raise the base above the effective priority of a thread that holds locks.
  ghost predicate Calm(s: State, a: Action)
    requires Enabled(s, a)
  {
    a.SettingPriority? ==>
      var th := s.threads[s.running.value];
      a.p == th.bPri || a.p <= th.ePri || th.lockQueue == []
  }

  /** Every step that does not panic keeps the invariants; the effective-priority equation
      survives exactly the calm ones. */
  lemma StepKeeps(s: State, a: Action)
    requires Inv(s) && Enabled(s, a) && Apply(s, a).Done?
    ensures Inv(Apply(s, a).s)
    ensures AllExact(s) ==> (AllExact(Apply(s, a).s) <==> Calm(s, a))
  {
    match a
    case Acquiring(l) => AcquireKeeps(s, l);
    case TryAcquiring(l) => TryAcquireKeeps(s, s.running.value, l);
    case Disowning(l) => DisownKeeps(s, s.running.value, l);
    case Downing(x) => TestKeeps(s, x);
    case Resuming => TestKeeps(s, s.threads[s.running.value].pc.sema);
    case SettingPriority(p) =>
      SetPriorityKeeps(s, s.running.value, p);
      SetPriorityLocks(s, s.running.value, p);
    case Creating(t, p) => CreateKeeps(s, t, p);
    case _ => MovingKeeps(s, a);
  }

  // The running thread tests the value of x: it was woken there, or x is no lock.
  lemma TestKeeps(s: State, x: Sid)
    requires Inv(s) && Runs(s)
    requires s.threads[s.running.value].pc == InDown(x) || (RunsFree(s) && x in s.semas && x !in s.locks)
    ensures var s' := TryFinish(s, s.running.value, x);
            && Inv(s') && (AllExact(s) ==> AllExact(s'))
            && (Ordered(s) ==> (Ordered(s') <==> (x in s.locks && Sm(s, x).value > 0 ==> TopRequester(s, s.running.value, x))))
  {
    var t := s.running.value;
    assert PcOk(s, t);
    AtTestFromInv(s, t, x);
    if s.semas[x].value == 0 { SleepKeeps(s, t, x); } else { TakeKeeps(s, t, x); }
  }
}
