/** Runs that meet the conditions under which the donation order, the effective-priority equation
    and the base floor fail; all of them runs of the code with its own yields. */
module KernelShortfalls {
  import opened Queues
  import opened KernelState
  import opened QueueInvariant
  import opened LockInvariant
  import opened ControlInvariant
  import opened Donation
  import opened KernelRuns
  import opened KernelTheorems
  import opened KernelWitnesses

  lemma ReachableInv(s: State)
    requires Reachable(s)
    ensures Inv(s)
  {
    var ss, acts :| IsRun(ss, acts) && ss[|acts|] == s;
    RunInv(ss, acts, |acts|);
  }

  // ---- a barging acquirer below a requester ----

  // Thread 0 acquires lock 1 at 10 and creates thread 1 at 20, which it yields to.
  const U1 := State(
    map[0 := Thread(10, 10, None, [1], None, Free)],
    map[1 := Lock(Some(0), 0, 10), 2 := Lock(None, 1, 0)], map[1 := Sema(0, []), 2 := Sema(1, [])], [], Some(0))
  const U2 := State(
    map[0 := Thread(10, 10, None, [1], None, Free), 1 := Thread(20, 20, None, [], READY, Free)],
    map[1 := Lock(Some(0), 0, 10), 2 := Lock(None, 1, 0)], map[1 := Sema(0, []), 2 := Sema(1, [])], [1], Some(0))
  const U3 := State(
    map[0 := Thread(10, 10, None, [1], READY, Free), 1 := Thread(20, 20, None, [], READY, Free)],
    map[1 := Lock(Some(0), 0, 10), 2 := Lock(None, 1, 0)], map[1 := Sema(0, []), 2 := Sema(1, [])], [0], Some(1))
  // Thread 1 donates 20 to thread 0 and sleeps on lock 1.
  const U4 := State(
    map[0 := Thread(10, 20, None, [1], READY, Free), 1 := Thread(20, 20, Some(1), [], Some(WaitersQ(1)), InDown(1))],
    map[1 := Lock(Some(0), -1, 20), 2 := Lock(None, 1, 0)], map[1 := Sema(0, [1]), 2 := Sema(1, [])], [], Some(0))
  // Thread 0 acquires lock 2 at 20, so that releasing lock 1 leaves it at 20: no yield.
  const U5 := State(
    map[0 := Thread(10, 20, None, [2, 1], READY, Free), 1 := Thread(20, 20, Some(1), [], Some(WaitersQ(1)), InDown(1))],
    map[1 := Lock(Some(0), -1, 20), 2 := Lock(Some(0), 0, 20)], map[1 := Sema(0, [1]), 2 := Sema(0, [])], [], Some(0))
  const U6 := State(
    map[0 := Thread(10, 20, None, [2], READY, Releasing(1)), 1 := Thread(20, 20, Some(1), [], Some(WaitersQ(1)), InDown(1))],
    map[1 := Lock(None, 0, 0), 2 := Lock(Some(0), 0, 20)], map[1 := Sema(0, [1]), 2 := Sema(0, [])], [], Some(0))
  const U7 := State(
    map[0 := Thread(10, 20, None, [2], READY, Free), 1 := Thread(20, 20, Some(1), [], READY, InDown(1))],
    map[1 := Lock(None, 0, 0), 2 := Lock(Some(0), 0, 20)], map[1 := Sema(1, []), 2 := Sema(0, [])], [1], Some(0))
  // Releasing lock 2, which nobody waits for, puts it back to 10 without a yield.
  const U8 := State(
    map[0 := Thread(10, 10, None, [], READY, Releasing(2)), 1 := Thread(20, 20, Some(1), [], READY, InDown(1))],
    map[1 := Lock(None, 0, 0), 2 := Lock(None, 1, 0)], map[1 := Sema(1, []), 2 := Sema(0, [])], [1], Some(0))
  const U9 := State(
    map[0 := Thread(10, 10, None, [], READY, Free), 1 := Thread(20, 20, Some(1), [], READY, InDown(1))],
    map[1 := Lock(None, 0, 0), 2 := Lock(None, 1, 0)], map[1 := Sema(1, []), 2 := Sema(1, [])], [1], Some(0))

  lemma ToU1()
    ensures StepOk(S0, Acquiring(1), U1)
  {
    assert U1.threads == S0.threads[0 := U1.threads[0]] && U1.locks == S0.locks[1 := U1.locks[1]] && U1.semas == S0.semas[1 := U1.semas[1]];
    assert [1] + S0.threads[0].lockQueue == [1];
    AcquireFree(S0, 1, U1);
  }

  lemma ToU2()
    ensures StepOk(U1, Creating(1, 20), U2)
  {
    CreateAhead(U1, 1, 20);
    assert U2.threads == U1.threads[1 := U2.threads[1]];
  }

  lemma ToU3()
    ensures StepOk(U2, Yielding, U3)
  {
    YieldBehind(U2);
    assert U3.threads == U2.threads[0 := U3.threads[0]];
  }

  // A lock and its ready holder, alone on both their queues, are raised.
  lemma RaiseAlone(s: State, l: Lid, d: Tid, p: int)
    requires l in s.locks && d in s.threads && s.threads[d].lockQueue == [l] && s.threads[d].queue == READY
    requires s.ready == [d] && s.threads[d].ePri < p
    ensures DonateTurn(s, l, d, p) == s.(threads := s.threads[d := s.threads[d].(ePri := p)], locks := s.locks[l := s.locks[l].(pri := p)])
  {
    var s1 := RaiseLock(s, l, d, p);
    var locks := s.locks[l := s.locks[l].(pri := p)];
    assert Remove([l], l) == [] && Remove([d], d) == [];
    InsertFirst([], l, LockBefore(locks));
    assert InsertLock(locks, Remove(s.threads[d].lockQueue, l), l) == s.threads[d].lockQueue;
    assert s1 == s.(locks := locks);
    InsertFirst([], d, ThreadBefore(s.threads[d := s.threads[d].(ePri := p)]));
  }

  // The holder is raised and goes on; the caller sleeps alone on the lock.
  lemma AcquireDonates(s: State, l: Lid, d: Tid, s': State)
    requires Enabled(s, Acquiring(l)) && s.locks[l].holder == Some(d) && d in s.threads && s.running != Some(d)
    requires s.threads[d].lockQueue == [l] && s.threads[d].queue == READY && s.threads[d].donatedFor == None && s.ready == [d]
    requires Wrap8(s.locks[l].state - 1) < 0 && l in s.semas && s.semas[l] == Sema(0, [])
    requires var p := s.threads[s.running.value].ePri; s.locks[l].pri < p && s.threads[d].ePri < p
    requires s'.running == Some(d) && s'.ready == [] && s'.semas == s.semas[l := Sema(0, [s.running.value])]
    requires var t, th := s.running.value, s.threads[s.running.value];
             && s'.locks == s.locks[l := Lock(Some(d), Wrap8(s.locks[l].state - 1), th.ePri)]
             && s'.threads == s.threads[t := th.(donatedFor := Some(l), queue := Some(WaitersQ(l)), pc := InDown(l))]
                                       [d := s.threads[d].(ePri := th.ePri)]
    ensures StepOk(s, Acquiring(l), s')
  {
    var t, p := s.running.value, s.threads[s.running.value].ePri;
    var s2 := Request(s, t, l);
    DonatesOnce(s2, t, l, d);
    AcquireUnfold(s, l);
    hide Walk, DonateTurn, Wrap8, Sleep, Apply, InsertThread, InsertLock, Own;
    var s3 := DonateTurn(s2, l, d, p);
    SleepAlone(s3, t, l);
    var r := Sleep(s3, t, l);
    assert r.threads == s'.threads && r.locks == s'.locks && r.semas == s'.semas && r.ready == [];
    assert r == s' && TryFinish(s3, t, l) == r;
  }

  // The walk ends with the first holder.
  lemma DonatesOnce(s: State, t: Tid, l: Lid, d: Tid)
    requires t in s.threads && l in s.locks && s.locks[l].holder == Some(d) && d in s.threads && t != d
    requires s.threads[d].lockQueue == [l] && s.threads[d].queue == READY && s.threads[d].donatedFor == None && s.ready == [d]
    requires s.locks[l].pri < s.threads[t].ePri && s.threads[d].ePri < s.threads[t].ePri
    ensures var p := s.threads[t].ePri; var s' := DonateTurn(s, l, d, p);
            && Walk(s, t, l) == Done(s')
            && s' == s.(threads := s.threads[d := s.threads[d].(ePri := p)], locks := s.locks[l := s.locks[l].(pri := p)])
  {
    RaiseAlone(s, l, d, s.threads[t].ePri);
  }

  lemma ToU4()
    ensures StepOk(U3, Acquiring(1), U4)
  {
    assert U4.threads == U3.threads[1 := U4.threads[1]][0 := U4.threads[0]];
    assert U4.locks == U3.locks[1 := U4.locks[1]] && U4.semas == U3.semas[1 := U4.semas[1]];
    AcquireDonates(U3, 1, 0, U4);
  }

  lemma ToU5()
    ensures StepOk(U4, Acquiring(2), U5)
  {
    assert U5.threads == U4.threads[0 := U5.threads[0]] && U5.locks == U4.locks[2 := U5.locks[2]] && U5.semas == U4.semas[2 := U5.semas[2]];
    assert [2] + U4.threads[0].lockQueue == [2, 1];
    AcquireFree(U4, 2, U5);
  }

  lemma ToU6()
    ensures StepOk(U5, Disowning(1), U6)
  {
    assert Remove([2, 1], 1) == [2];
    assert U6.threads == U5.threads[0 := U6.threads[0]] && U6.locks == U5.locks[1 := U6.locks[1]];
  }

  // The end of a release that wakes the only waiter, with nobody ready.
  lemma FinishWakes(s: State, l: Lid, w: Tid, s': State)
    requires Runs(s) && s.threads[s.running.value].pc == Releasing(l) && l in s.semas && s.semas[l] == Sema(0, [w])
    requires w in s.threads && s.running != Some(w) && s.ready == []
    requires s'.threads == s.threads[s.running.value := s.threads[s.running.value].(pc := Free)][w := s.threads[w].(queue := READY)]
    requires s'.locks == s.locks && s'.semas == s.semas[l := Sema(1, [])] && s'.ready == [w] && s'.running == s.running
    ensures StepOk(s, FinishingRelease, s')
  {
    var s1 := PutTh(s, s.running.value, s.threads[s.running.value].(pc := Free));
    WakeAhead(s1, l, w);
  }

  lemma ToU7()
    ensures StepOk(U6, FinishingRelease, U7)
  {
    assert U7.threads == U6.threads[0 := U7.threads[0]][1 := U7.threads[1]] && U7.semas == U6.semas[1 := U7.semas[1]];
    FinishWakes(U6, 1, 1, U7);
  }

  lemma ToU8()
    ensures StepOk(U7, Disowning(2), U8)
  {
    assert Remove([2], 2) == [];
    assert U8.threads == U7.threads[0 := U8.threads[0]] && U8.locks == U7.locks[2 := U8.locks[2]];
  }

  lemma ToU9()
    ensures StepOk(U8, FinishingRelease, U9)
  {
    assert U9.threads == U8.threads[0 := U9.threads[0]] && U9.semas == U8.semas[2 := U9.semas[2]];
  }

  lemma ReachU1()
    ensures Reachable(U1)
  {
    hide StepOk, Reachable;
    ReachableStart(S0);
    ToU1();
    ReachableStep(S0, Acquiring(1), U1);
  }

  lemma ReachU4()
    ensures Reachable(U4)
  {
    hide StepOk, Reachable;
    ReachU1();
    ToU2();
    ReachableStep(U1, Creating(1, 20), U2);
    ToU3();
    ReachableStep(U2, Yielding, U3);
    ToU4();
    ReachableStep(U3, Acquiring(1), U4);
  }

  lemma ReachU9()
    ensures Reachable(U9)
  {
    hide StepOk, Reachable;
    ReachU4();
    ToU5();
    ReachableStep(U4, Acquiring(2), U5);
    ToU6();
    ReachableStep(U5, Disowning(1), U6);
    ToU7();
    ReachableStep(U6, FinishingRelease, U7);
    ToU8();
    ReachableStep(U7, Disowning(2), U8);
    ToU9();
    ReachableStep(U8, FinishingRelease, U9);
  }

  /** A run reaches a state in which a thread takes a lock that a higher one has been woken for, and
      the donation order is gone. */
  lemma BargingReachable() returns (s: State, a: Action)
    ensures Reachable(s) && Ordered(s) && Enabled(s, a) && !Fair(s, a)
    ensures Apply(s, a).Done? && !Ordered(Apply(s, a).s)
  {
    s, a := U9, Acquiring(1);
    ReachU9();
    ReachableInv(U9);
    assert Ordered(U9);
    assert 1 in Requesters(U9, 1) && EPri(U9.threads, 0) < EPri(U9.threads, 1);
    hide Ordered, Inv;
    AcquireFreeOrderedIff(U9, 1);
  }

  // ---- a base priority above the locks held ----

  // From S1, thread 0 acquires lock 1 as well and sets its base to 20.
  const V1 := State(
    map[0 := Thread(10, 10, None, [1, 2], None, Free)],
    map[1 := Lock(Some(0), 0, 10), 2 := Lock(Some(0), 0, 10)], map[1 := Sema(0, []), 2 := Sema(0, [])], [], Some(0))
  const V2 := State(
    map[0 := Thread(20, 20, None, [1, 2], None, Free)],
    map[1 := Lock(Some(0), 0, 10), 2 := Lock(Some(0), 0, 10)], map[1 := Sema(0, []), 2 := Sema(0, [])], [], Some(0))

  lemma ToV1()
    ensures StepOk(S1, Acquiring(1), V1)
  {
    assert V1.threads == S1.threads[0 := V1.threads[0]] && V1.locks == S1.locks[1 := V1.locks[1]] && V1.semas == S1.semas[1 := V1.semas[1]];
    assert [1] + S1.threads[0].lockQueue == [1, 2];
    AcquireFree(S1, 1, V1);
  }

  lemma ReachV1()
    ensures Reachable(V1)
  {
    hide StepOk, Reachable;
    ReachableStart(S0);
    Step0();
    ReachableStep(S0, Acquiring(2), S1);
    ToV1();
    ReachableStep(S1, Acquiring(1), V1);
  }

  /** A run in which a change of base priority breaks the effective-priority equation. */
  lemma InexactReachable() returns (s: State, a: Action)
    ensures Reachable(s) && AllExact(s) && Enabled(s, a) && a.SettingPriority? && !Calm(s, a)
    ensures Apply(s, a).Done? && !AllExact(Apply(s, a).s)
  {
    s, a := V1, SettingPriority(20);
    ReachV1();
    hide Reachable;
    ReachableInv(V1);
    StepKeeps(V1, a);
  }

  /** A run in which releasing a lock leaves the thread running below its base priority. */
  lemma BelowBaseReachable() returns (s: State, a: Action)
    ensures Reachable(s) && Enabled(s, a) && a.Disowning? && Apply(s, a).Done?
    ensures var t := s.running.value; t in Apply(s, a).s.threads && Apply(s, a).s.threads[t].ePri < Apply(s, a).s.threads[t].bPri
  {
    s, a := V2, Disowning(1);
    ReachV1();
    hide Reachable;
    assert V2.threads == V1.threads[0 := V2.threads[0]];
    assert StepOk(V1, SettingPriority(20), V2);
    ReachableStep(V1, SettingPriority(20), V2);
    assert Remove([1, 2], 1) == [2];
  }

  // ---- 128 requesters ----

  const SLEEPER := Thread(10, 10, Some(1), [], Some(WaitersQ(1)), InDown(1))

  // k threads sleep on lock 1, which thread 0 holds; all are at priority 10.
  ghost predicate IsCrowd(s: State, k: nat) {
    && (forall t :: t in s.threads <==> 0 <= t <= k) && (forall t :: 1 <= t <= k ==> s.threads[t] == SLEEPER)
    && s.threads[0] == Thread(10, 10, None, [1], s.threads[0].queue, Free)
    && 1 in s.locks && s.locks[1] == Lock(Some(0), Wrap8(0 - k), 10)
    && 1 in s.semas && s.semas[1].value == 0 && |s.semas[1].waiters| == k
    && (forall t :: t in s.semas[1].waiters ==> 1 <= t <= k)
    && s.ready == [] && s.running == Some(0)
  }

  // Thread k + 1 is created at priority p and dispatched, thread 0 being put behind it.
  function Join(s: State, k: nat, p: int): State
    requires 0 in s.threads
  {
    s.(threads := s.threads[k + 1 := Thread(p, p, None, [], READY, Free)][0 := s.threads[0].(queue := READY)],
       ready := [0], running := Some(k + 1))
  }

  lemma ReachJoined(s: State, k: nat, p: int)
    requires Reachable(s) && IsCrowd(s, k) && 10 <= p <= PRI_MAX
    ensures Reachable(Join(s, k, p))
  {
    CreateAhead(s, k + 1, p);
    var s1 := s.(threads := s.threads[k + 1 := Thread(p, p, None, [], READY, Free)], ready := [k + 1] + s.ready);
    YieldBehind(s1);
    assert s1.ready[1..] + [0] == [0];
    hide Reachable, StepOk;
    ReachableStep(s, Creating(k + 1, p), s1);
    ReachableStep(s1, Yielding, Join(s, k, p));
  }

  // A thread that does not run above the lock sleeps behind all its waiters; nobody is raised.
  lemma AcquireBehind(s: State, l: Lid, d: Tid)
    requires Enabled(s, Acquiring(l)) && s.locks[l].holder == Some(d) && s.threads[s.running.value].ePri <= s.locks[l].pri
    requires l in s.semas && s.semas[l].value == 0 && s.ready != []
    requires forall i :: 0 <= i < |s.semas[l].waiters| ==> EPri(s.threads, s.semas[l].waiters[i]) >= s.threads[s.running.value].ePri
    ensures var t, th := s.running.value, s.threads[s.running.value];
            StepOk(s, Acquiring(l), State(
              s.threads[t := th.(donatedFor := Some(l), queue := Some(WaitersQ(l)), pc := InDown(l))],
              s.locks[l := s.locks[l].(state := Wrap8(s.locks[l].state - 1))],
              s.semas[l := Sema(0, s.semas[l].waiters + [t])], s.ready[1..], Some(s.ready[0])))
  {
    var t, th := s.running.value, s.threads[s.running.value];
    var s2 := Request(s, t, l);
    AcquireUnfold(s, l);
    assert s2.locks[l].holder == Some(d) && s2.locks[l].pri >= EPri(s2.threads, t);
    assert Walk(s2, t, l) == Done(s2);
    hide Walk, Wrap8;
    InsertLast(s.semas[l].waiters, t, ThreadBefore(s2.threads));
    var r := Sleep(s2, t, l);
    assert r.threads == s.threads[t := th.(donatedFor := Some(l), queue := Some(WaitersQ(l)), pc := InDown(l))];
    assert r.semas == s.semas[l := Sema(0, s.semas[l].waiters + [t])];
  }

  lemma JoinedFacts(s: State, k: nat, p: int)
    requires IsCrowd(s, k)
    ensures 0 in s.threads
    ensures var s1 := Join(s, k, p);
            && Enabled(s1, Acquiring(1)) && Ordered(s1) && s1.locks[1] == Lock(Some(0), Wrap8(0 - k), 10)
            && forall i :: 0 <= i < |s.semas[1].waiters| ==> EPri(s1.threads, s.semas[1].waiters[i]) == 10
  {
    var s1 := Join(s, k, p);
    forall i | 0 <= i < |s.semas[1].waiters| ensures EPri(s1.threads, s.semas[1].waiters[i]) == 10 {
      assert s.semas[1].waiters[i] in s.semas[1].waiters;
    }
  }

  // What the new thread's request and sleep make of the state.
  function Slept(s: State, k: nat): State
    requires 0 in s.threads && 1 in s.locks && 1 in s.semas
  {
    var s1 := Join(s, k, 10);
    State(s1.threads[k + 1 := SLEEPER], s1.locks[1 := s1.locks[1].(state := Wrap8(s1.locks[1].state - 1))],
          s1.semas[1 := Sema(0, s1.semas[1].waiters + [k + 1])], [], Some(0))
  }

  lemma SleptIsCrowd(s: State, k: nat)
    requires IsCrowd(s, k)
    ensures IsCrowd(Slept(s, k), k + 1)
  {
    assert Wrap8(Wrap8(0 - k) - 1) == Wrap8(0 - (k + 1));
  }

  lemma JoinedSleeps(s: State, k: nat)
    requires IsCrowd(s, k)
    ensures 0 in s.threads && StepOk(Join(s, k, 10), Acquiring(1), Slept(s, k))
  {
    JoinedFacts(s, k, 10);
    var s1 := Join(s, k, 10);
    AcquireBehind(s1, 1, 0);
    hide StepOk, Ordered, Enabled;
    assert s1.ready[1..] == [];
  }

  lemma CrowdGrows(s: State, k: nat)
    requires Reachable(s) && IsCrowd(s, k)
    ensures exists s' :: Reachable(s') && IsCrowd(s', k + 1)
  {
    hide Reachable, StepOk;
    ReachJoined(s, k, 10);
    JoinedSleeps(s, k);
    ReachableStep(Join(s, k, 10), Acquiring(1), Slept(s, k));
    SleptIsCrowd(s, k);
  }

  lemma {:induction false} CrowdReachable(k: nat)
    ensures exists s :: Reachable(s) && IsCrowd(s, k)
  {
    if k == 0 {
      ReachU1();
      hide Reachable;
      assert IsCrowd(U1, 0);
    } else {
      CrowdReachable(k - 1);
      hide Reachable, IsCrowd;
      var s :| Reachable(s) && IsCrowd(s, k - 1);
      CrowdGrows(s, k - 1);
    }
  }

  lemma CountOf(s: State, l: Lid)
    requires Inv(s) && l in s.locks && s.locks[l].holder.Some? && s.locks[l].state == -128
    ensures |Requesters(s, l)| % 256 == 128
  {
    assert LockCounts(s, l);
  }

  // With 128 sleepers the state is at its lowest; a thread at 20 asks for the lock in vain.
  lemma CrowdUnheard(s: State, a: Action)
    requires Reachable(s) && IsCrowd(s, 128) && a == Acquiring(1)
    ensures 0 in s.threads
    ensures var s1 := Join(s, 128, 20);
            && Reachable(s1) && Ordered(s1) && Enabled(s1, a) && !Heard(s1, 1)
            && Apply(s1, a).Done? && !Ordered(Apply(s1, a).s)
  {
    JoinedFacts(s, 128, 20);
    ReachJoined(s, 128, 20);
    var s1 := Join(s, 128, 20);
    assert EPri(s1.threads, 129) == 20;
    hide Reachable, Ordered, Apply, IsCrowd, Inv;
    ReachableInv(s1);
    CountOf(s1, 1);
    AcquirePanicsIff(s1, 1);
    AcquireHeldOrderedIff(s1, 1);
  }

  /** A run in which 128 threads have asked for a lock and the next, running above it, gets no
      donation made: it sleeps above the lock it waits for. */
  lemma UnheardReachable() returns (s: State, a: Action)
    ensures Reachable(s) && Ordered(s) && Enabled(s, a) && a.Acquiring? && !Heard(s, a.l)
    ensures Apply(s, a).Done? && !Ordered(Apply(s, a).s)
  {
    CrowdReachable(128);
    hide Reachable, IsCrowd, Ordered;
    var s0 :| Reachable(s0) && IsCrowd(s0, 128);
    a := Acquiring(1);
    CrowdUnheard(s0, a);
    s := Join(s0, 128, 20);
  }
}
