/** Runs of the kernel in which it falls short, step by step. */
module KernelWitnesses {
  import opened Queues
  import opened KernelState
  import opened QueueInvariant
  import opened LockInvariant
  import opened ControlInvariant
  import opened Donation
  import opened KernelRuns
  import opened KernelTheorems

  const READY: Option<Queue> := Some(ReadyQ)

  // Thread 0 runs at priority 10; locks 1 and 2 are free.
  const S0 := State(
    map[0 := Thread(10, 10, None, [], None, Free)],
    map[1 := Lock(None, 1, 0), 2 := Lock(None, 1, 0)], map[1 := Sema(1, []), 2 := Sema(1, [])], [], Some(0))
  // It acquires lock 2, creates thread 1 at the same priority and is preempted.
  const S1 := State(
    map[0 := Thread(10, 10, None, [2], None, Free)],
    map[1 := Lock(None, 1, 0), 2 := Lock(Some(0), 0, 10)], map[1 := Sema(1, []), 2 := Sema(0, [])], [], Some(0))
  const S2 := State(
    map[0 := Thread(10, 10, None, [2], None, Free), 1 := Thread(10, 10, None, [], READY, Free)],
    map[1 := Lock(None, 1, 0), 2 := Lock(Some(0), 0, 10)], map[1 := Sema(1, []), 2 := Sema(0, [])], [1], Some(0))
  const S3 := State(
    map[0 := Thread(10, 10, None, [2], READY, Free), 1 := Thread(10, 10, None, [], READY, Free)],
    map[1 := Lock(None, 1, 0), 2 := Lock(Some(0), 0, 10)], map[1 := Sema(1, []), 2 := Sema(0, [])], [0], Some(1))
  // Thread 1 acquires lock 1 and sleeps on lock 2.
  const S4 := State(
    map[0 := Thread(10, 10, None, [2], READY, Free), 1 := Thread(10, 10, None, [1], READY, Free)],
    map[1 := Lock(Some(1), 0, 10), 2 := Lock(Some(0), 0, 10)], map[1 := Sema(0, []), 2 := Sema(0, [])], [0], Some(1))
  const S5 := State(
    map[0 := Thread(10, 10, None, [2], READY, Free), 1 := Thread(10, 10, Some(2), [1], Some(WaitersQ(2)), InDown(2))],
    map[1 := Lock(Some(1), 0, 10), 2 := Lock(Some(0), -1, 10)], map[1 := Sema(0, []), 2 := Sema(0, [1])], [], Some(0))
  // Thread 0 releases lock 2; thread 1 is ready but not above it, so there is no yield.
  const S6 := State(
    map[0 := Thread(10, 10, None, [], READY, Releasing(2)), 1 := Thread(10, 10, Some(2), [1], Some(WaitersQ(2)), InDown(2))],
    map[1 := Lock(Some(1), 0, 10), 2 := Lock(None, 0, 0)], map[1 := Sema(0, []), 2 := Sema(0, [1])], [], Some(0))
  const S7 := State(
    map[0 := Thread(10, 10, None, [], READY, Free), 1 := Thread(10, 10, Some(2), [1], READY, InDown(2))],
    map[1 := Lock(Some(1), 0, 10), 2 := Lock(None, 0, 0)], map[1 := Sema(0, []), 2 := Sema(1, [])], [1], Some(0))
  // It creates thread 2 at priority 20 and yields to it.
  const S8 := State(
    map[0 := Thread(10, 10, None, [], READY, Free), 1 := Thread(10, 10, Some(2), [1], READY, InDown(2)),
        2 := Thread(20, 20, None, [], READY, Free)],
    map[1 := Lock(Some(1), 0, 10), 2 := Lock(None, 0, 0)], map[1 := Sema(0, []), 2 := Sema(1, [])], [2, 1], Some(0))
  const S9 := State(
    map[0 := Thread(10, 10, None, [], READY, Free), 1 := Thread(10, 10, Some(2), [1], READY, InDown(2)),
        2 := Thread(20, 20, None, [], READY, Free)],
    map[1 := Lock(Some(1), 0, 10), 2 := Lock(None, 0, 0)], map[1 := Sema(0, []), 2 := Sema(1, [])], [1, 0], Some(2))

  // ---- steps in general ----

  lemma InsertFirst(q: seq<int>, x: int, less: (int, int) -> bool)
    requires q != [] ==> less(x, q[0])
    ensures InsertOrdered(q, x, less) == [x] + q
  {
    assert InsertPoint(q, x, less) == 0;
  }

  lemma InsertLast(q: seq<int>, x: int, less: (int, int) -> bool)
    requires forall i :: 0 <= i < |q| ==> !less(x, q[i])
    ensures InsertOrdered(q, x, less) == q + [x]
  {
    assert InsertPoint(q, x, less) == |q|;
  }

  // A thread that does not run below its other locks acquires a free one.
  lemma AcquireFree(s: State, l: Lid, s': State)
    requires Enabled(s, Acquiring(l)) && s.locks[l].holder == None && l in s.semas && s.semas[l].value == 1
    requires var th := s.threads[s.running.value];
             th.donatedFor == None && (th.lockQueue != [] ==> th.lockQueue[0] != l && LPri(s.locks, th.lockQueue[0]) <= th.ePri)
    requires s'.running == s.running && s'.ready == s.ready
    requires s'.threads == s.threads[s.running.value := s.threads[s.running.value].(lockQueue := [l] + s.threads[s.running.value].lockQueue)]
    requires s'.locks == s.locks[l := Lock(s.running, Wrap8(s.locks[l].state - 1), s.threads[s.running.value].ePri)]
    requires s'.semas == s.semas[l := s.semas[l].(value := 0)]
    ensures StepOk(s, Acquiring(l), s')
  {
    var t := s.running.value;
    var th := s.threads[t];
    var s2 := SetValue(Request(s, t, l), l, 0);
    var s3 := PutLk(s2, l, Lk(s2, l).(pri := EPri(s2.threads, t), holder := Some(t)));
    InsertFirst(th.lockQueue, l, LockBefore(s3.locks));
    assert Th(s2, t) == th.(donatedFor := Some(l)) && InsertLock(s3.locks, th.lockQueue, l) == [l] + th.lockQueue;
    var r := Own(s2, t, l);
    assert r.locks == s.locks[l := Lock(Some(t), Wrap8(s.locks[l].state - 1), th.ePri)];
    assert r.threads == s.threads[t := th.(lockQueue := [l] + th.lockQueue)];
    assert r.semas == s.semas[l := s.semas[l].(value := 0)];
  }

  // A thread is created ahead of everybody ready.
  lemma CreateAhead(s: State, t: Tid, p: int)
    requires t !in s.threads && 0 <= p <= PRI_MAX && (s.ready != [] ==> s.ready[0] != t && EPri(s.threads, s.ready[0]) < p)
    ensures StepOk(s, Creating(t, p), s.(threads := s.threads[t := Thread(p, p, None, [], READY, Free)], ready := [t] + s.ready))
  {
    var ths := s.threads[t := Thread(p, p, None, [], READY, Free)];
    assert s.threads[t := Thread(p, p, None, [], None, Free)][t := Thread(p, p, None, [], READY, Free)] == ths;
    InsertFirst(s.ready, t, ThreadBefore(ths));
  }

  // The running thread is preempted and goes behind everybody ready.
  lemma YieldBehind(s: State)
    requires Runs(s) && s.ready != []
    requires forall i :: 0 <= i < |s.ready| ==> s.ready[i] != s.running.value && EPri(s.threads, s.ready[i]) >= EPri(s.threads, s.running.value)
    ensures var t := s.running.value;
            StepOk(s, Yielding, s.(threads := s.threads[t := s.threads[t].(queue := READY)],
                                   ready := s.ready[1..] + [t], running := Some(s.ready[0])))
  {
    var t := s.running.value;
    InsertLast(s.ready, t, ThreadBefore(s.threads[t := s.threads[t].(queue := READY)]));
    assert (s.ready + [t])[1..] == s.ready[1..] + [t];
  }

  // `sema_up` wakes the only waiter, which goes ahead of everybody ready.
  lemma WakeAhead(s: State, x: Sid, w: Tid)
    requires x in s.semas && s.semas[x].waiters == [w] && w in s.threads
    requires s.ready != [] ==> s.ready[0] != w && EPri(s.threads, s.ready[0]) < EPri(s.threads, w)
    ensures Wake(s, x) == s.(threads := s.threads[w := s.threads[w].(queue := READY)],
                             semas := s.semas[x := Sema(s.semas[x].value + 1, [])], ready := [w] + s.ready)
  {
    assert [w][1..] == [];
    InsertFirst(s.ready, w, ThreadBefore(s.threads[w := s.threads[w].(queue := READY)]));
  }

  // The only one to sleep on x; somebody is ready.
  lemma SleepAlone(s: State, t: Tid, x: Sid)
    requires t in s.threads && x in s.semas && s.semas[x].waiters == [] && s.ready != []
    ensures Sleep(s, t, x) == s.(threads := s.threads[t := s.threads[t].(queue := Some(WaitersQ(x)), pc := InDown(x))],
                                 semas := s.semas[x := s.semas[x].(waiters := [t])],
                                 ready := s.ready[1..], running := Some(s.ready[0]))
  {
    InsertFirst([], t, ThreadBefore(s.threads));
    assert s.semas[x].(waiters := InsertThread(s.threads, [], t)) == s.semas[x].(waiters := [t]);
  }

  // ---- the run ----

  lemma Step0()
    ensures StepOk(S0, Acquiring(2), S1)
  {
    assert S1.threads == S0.threads[0 := S1.threads[0]] && S1.locks == S0.locks[2 := S1.locks[2]] && S1.semas == S0.semas[2 := S1.semas[2]];
    assert [2] + S0.threads[0].lockQueue == [2];
    AcquireFree(S0, 2, S1);
  }

  lemma Step1()
    ensures StepOk(S1, Creating(1, 10), S2)
  {
    CreateAhead(S1, 1, 10);
    assert S2.threads == S1.threads[1 := S2.threads[1]];
  }

  lemma Step2()
    ensures StepOk(S2, Yielding, S3)
  {
    YieldBehind(S2);
    assert S3.threads == S2.threads[0 := S3.threads[0]];
  }

  lemma Step3()
    ensures StepOk(S3, Acquiring(1), S4)
  {
    assert S4.threads == S3.threads[1 := S4.threads[1]] && S4.locks == S3.locks[1 := S4.locks[1]] && S4.semas == S3.semas[1 := S4.semas[1]];
    assert [1] + S3.threads[1].lockQueue == [1];
    AcquireFree(S3, 1, S4);
  }

  lemma Step4()
    ensures StepOk(S4, Acquiring(2), S5)
  {
    var s2 := Request(S4, 1, 2);
    assert s2.threads[1] == Thread(10, 10, Some(2), [1], READY, Free) && s2.locks[2] == Lock(Some(0), -1, 10);
    assert Walk(s2, 1, 2) == Done(s2);
    AcquireUnfold(S4, 2);
    SleepAlone(s2, 1, 2);
    assert S5.threads == s2.threads[1 := S5.threads[1]] && S5.locks == s2.locks && S5.semas == s2.semas[2 := S5.semas[2]];
  }

  lemma Step5()
    ensures StepOk(S5, Disowning(2), S6)
  {
    assert Remove([2], 2) == [];
    assert S6.threads == S5.threads[0 := S6.threads[0]] && S6.locks == S5.locks[2 := S6.locks[2]];
  }

  lemma Step6()
    ensures StepOk(S6, FinishingRelease, S7)
  {
    var s1 := PutTh(S6, 0, Thread(10, 10, None, [], READY, Free));
    WakeAhead(s1, 2, 1);
    assert S7.threads == s1.threads[1 := S7.threads[1]] && S7.semas == s1.semas[2 := S7.semas[2]];
  }

  lemma Step7()
    ensures StepOk(S7, Creating(2, 20), S8)
  {
    CreateAhead(S7, 2, 20);
    assert S8.threads == S7.threads[2 := S8.threads[2]];
  }

  lemma Step8()
    ensures StepOk(S8, Yielding, S9)
  {
    YieldBehind(S8);
    assert S9.threads == S8.threads[0 := S9.threads[0]];
  }

  lemma ReachS4()
    ensures Reachable(S4)
  {
    ReachableStart(S0);
    Step0();
    ReachableStep(S0, Acquiring(2), S1);
    Step1();
    ReachableStep(S1, Creating(1, 10), S2);
    Step2();
    ReachableStep(S2, Yielding, S3);
    Step3();
    ReachableStep(S3, Acquiring(1), S4);
  }

  lemma ReachS9()
    ensures Reachable(S9)
  {
    ReachS4();
    Step4();
    ReachableStep(S4, Acquiring(2), S5);
    Step5();
    ReachableStep(S5, Disowning(2), S6);
    Step6();
    ReachableStep(S6, FinishingRelease, S7);
    Step7();
    ReachableStep(S7, Creating(2, 20), S8);
    Step8();
    ReachableStep(S8, Yielding, S9);
  }

  /** The holder d of l waits for a lock that nobody holds at the moment: acquiring l with a
      higher priority than d's fails the assertion. */
  lemma WaitingForFreePanics(s: State, l: Lid, d: Tid, l': Lid)
    requires Enabled(s, Acquiring(l)) && s.locks[l].holder == Some(d) && d in s.threads && d != s.running.value
    requires Wrap8(s.locks[l].state - 1) < 0
    requires s.locks[l].pri < s.threads[s.running.value].ePri && s.threads[d].ePri < s.threads[s.running.value].ePri
    requires s.threads[d].donatedFor == Some(l') && l' in s.locks && l' != l && s.locks[l'].holder == None
    ensures Apply(s, Acquiring(l)) == Panic
  {
    var t := s.running.value;
    var s2 := Request(s, t, l);
    AcquireUnfold(s, l);
    var s3 := DonateTurn(s2, l, d, s.threads[t].ePri);
    DonateTurnEffect(s2, l, d, s.threads[t].ePri);
    assert Walk(s3, d, l') == Panic;
  }

  /** The donation walk's assertion does fail in a run from the initial state: a lock's holder is
      waiting for a second lock that has just been released when a higher thread wants the first. */
  lemma PanicReachable() returns (s: State, a: Action)
    ensures Reachable(s) && Enabled(s, a) && Apply(s, a) == Panic
  {
    s, a := S9, Acquiring(1);
    ReachS9();
    WaitingForFreePanics(S9, 1, 1, 2);
  }
}
