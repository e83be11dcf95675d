/** Runs in which a thread is put on the ready list while in the gap of `cond_wait`. */
module CondWaitWitnesses {
  import opened Queues
  import opened RwLock
  import opened CondWait

  // Thread 2 is above the others.
  const PRI: Tid -> int := (t: Tid) => if t == 2 then 20 else 10

  ghost predicate Reached(o: Outcome) {
    exists os, acts, pris :: IsSchedRun(os, acts, pris) && os[|acts|] == o
  }

  lemma ReachedStart(s: Sched)
    requires Initial(s)
    ensures Reached(Whole(s))
  {
    var os, acts: seq<Action>, pris: seq<Tid -> int> := [Whole(s)], [], [];
    assert IsSchedRun(os, acts, pris) && os[|acts|] == Whole(s);
  }

  lemma ReachedStep(o: Outcome, a: Action, pri: Tid -> int, o': Outcome)
    requires Reached(o) && Takes(o, a, pri, o')
    ensures Reached(o')
  {
    var os, acts, pris :| IsSchedRun(os, acts, pris) && os[|acts|] == o;
    var os', acts', pris' := os + [o'], acts + [a], pris + [pri];
    hide Takes;
    forall k | 0 <= k < |acts'| ensures Takes(os'[k], acts'[k], pris'[k], os'[k + 1]) {
      if k < |acts| { assert Takes(os[k], acts[k], pris[k], os[k + 1]); }
    }
    assert IsSchedRun(os', acts', pris') && os'[|acts'|] == o';
  }

  /** If a thread above it waits for the guard, a thread that has just put itself on the condition's
      list tears it: once it has released the guard, each of its next steps does. */
  lemma HighWaiterTears(s: Sched, t: Tid, r: bool, pri: Tid -> int)
    requires Sound(s) && s.running == Some(t) && t in s.gap && s.gap[t].Listed? && s.guard != [] && pri(s.guard[0]) > pri(t)
    ensures var o := Apply(s, Going(r), pri);
            && o.Whole? && o.s.running == Some(t)
            && forall a :: Enabled(o.s, a) && !a.Rousing? ==> Apply(o.s, a, pri) == Torn
  {
    StepTornIff(s, Going(r), pri);
    var s1 := Apply(s, Going(r), pri).s;
    GapRuns(s, t);
    UpThreads(s, pri);
    assert s1.gap[t] == Released(Some(s.guard[0])) && s1.running == Some(t);
    forall a | Enabled(s1, a) && !a.Rousing? ensures Apply(s1, a, pri) == Torn {
      GapRuns(s1, t);
      StepTornIff(s1, a, pri);
    }
  }

  // ---- the runs ----

  const ONE_IN := Counts(0, 0, 1, 0)
  const ONE_WAITS := Counts(0, 1, 1, 0)

  // Thread 0 runs, thread 1 is ready, thread 2 sleeps elsewhere. Thread 0 enters as a writer.
  const A0 := Sched(Monitor(Counts(0, 0, 0, 0), false, map[]), true, [1], [], [], [], [2], Some(0), {2}, map[])
  const A1 := Sched(Monitor(Counts(0, 0, 0, 0), false, map[0 := Entering(false)]), true, [1], [], [], [], [2], Some(0), {2}, map[])
  const A2 := Sched(Monitor(Counts(0, 0, 0, 0), true, map[0 := Testing(false)]), false, [1], [], [], [], [2], Some(0), {2}, map[])
  const A3 := Sched(Monitor(ONE_IN, true, map[0 := Admitted(false)]), false, [1], [], [], [], [2], Some(0), {2}, map[])
  const A4 := Sched(Monitor(ONE_IN, false, map[0 := Inside(false)]), true, [1], [], [], [], [2], Some(0), {2}, map[])
  // It sleeps inside; thread 1 comes as a reader and has the guard.
  const A5 := Sched(Monitor(ONE_IN, false, map[0 := Inside(false)]), true, [], [], [], [], [2, 0], Some(1), {0, 2}, map[])
  const A6 := Sched(Monitor(ONE_IN, false, map[0 := Inside(false), 1 := Entering(true)]), true, [], [], [], [], [2, 0], Some(1), {0, 2}, map[])
  const A7 := Sched(Monitor(ONE_IN, true, map[0 := Inside(false), 1 := Testing(true)]), false, [], [], [], [], [2, 0], Some(1), {0, 2}, map[])
  // First run: it goes onto the condition's list. Nobody is ready.
  const B8 := Sched(Monitor(ONE_WAITS, false, map[0 := Inside(false), 1 := Asleep(true)]), false, [], [], [1], [], [2, 0], Some(1),
                    {0, 2}, map[1 := Listed])
  // Second run: thread 2 is woken, preempts thread 1 and sleeps on the guard.
  const C8 := Sched(Monitor(ONE_IN, true, map[0 := Inside(false), 1 := Testing(true)]), false, [2], [], [], [], [0], Some(1), {0}, map[])
  const C9 := Sched(Monitor(ONE_IN, true, map[0 := Inside(false), 1 := Testing(true)]), false, [1], [], [], [], [0], Some(2), {0}, map[])
  const C10 := Sched(Monitor(ONE_IN, true, map[0 := Inside(false), 1 := Testing(true), 2 := Entering(true)]), false, [1], [], [], [], [0],
                     Some(2), {0}, map[])
  const C11 := Sched(Monitor(ONE_IN, true, map[0 := Inside(false), 1 := Testing(true), 2 := Entering(true)]), false, [], [2], [], [], [0],
                     Some(1), {0, 2}, map[])
  const C12 := Sched(Monitor(ONE_WAITS, false, map[0 := Inside(false), 1 := Asleep(true), 2 := Entering(true)]), false, [], [2], [1], [], [0],
                     Some(1), {0, 2}, map[1 := Listed])

  lemma InsertEmpty(t: Tid, less: (Tid, Tid) -> bool)
    ensures InsertOrdered([], t, less) == [t]
  {
  }

  lemma InsertBehind(u: Tid, t: Tid, less: (Tid, Tid) -> bool)
    requires !less(t, u)
    ensures InsertOrdered([u], t, less) == [u, t]
  {
    InsertPointIs([u], t, less, 1);
  }

  // The only one to wait on the readers' condition.
  lemma WaitsAlone(s: Sched, t: Tid, s': Sched)
    requires s.running == Some(t) && PcOf(s.m, t) == Testing(true) && MustWait(s.m.counts, true) && !OnList(s, t) && s.readers == []
    requires s' == s.(m := s'.m, readers := [t], gap := s.gap[t := Listed])
    requires s'.m == Monitor(AddWaiting(s.m.counts, true, 1), false, s.m.pcs[t := Asleep(true)])
    ensures Takes(Whole(s), Going(true), PRI, Whole(s'))
  {
    InsertEmpty(t, Before(PRI));
  }

  // The only one to sleep on the guard; another is ready.
  lemma SleepsOnGuard(s: Sched, t: Tid, s': Sched)
    requires s.running == Some(t) && WantsGuard(PcOf(s.m, t)) && !s.free && !OnList(s, t) && s.guard == [] && |s.ready| == 1
    requires s' == s.(guard := [t], ready := [], running := Some(s.ready[0]), blocked := s.blocked + {t})
    ensures Takes(Whole(s), Going(true), PRI, Whole(s'))
  {
    InsertEmpty(t, Before(PRI));
  }

  lemma ToA1()
    ensures Takes(Whole(A0), Going(false), PRI, Whole(A1))
  {
    assert A1.m.pcs == A0.m.pcs[0 := Entering(false)];
  }

  lemma ToA2()
    ensures Takes(Whole(A1), Going(false), PRI, Whole(A2))
  {
    assert A2.m.pcs == A1.m.pcs[0 := Testing(false)];
  }

  lemma ToA3()
    ensures Takes(Whole(A2), Going(false), PRI, Whole(A3))
  {
    assert A3.m.pcs == A2.m.pcs[0 := Admitted(false)];
  }

  lemma ToA4()
    ensures Takes(Whole(A3), Going(false), PRI, Whole(A4))
  {
    assert A4.m.pcs == A3.m.pcs[0 := Inside(false)];
  }

  lemma ToA5()
    ensures Takes(Whole(A4), Napping, PRI, Whole(A5))
  {
    InsertBehind(2, 0, Before(PRI));
    assert A5.blocked == A4.blocked + {0};
  }

  lemma ToA6()
    ensures Takes(Whole(A5), Going(true), PRI, Whole(A6))
  {
    assert A6.m.pcs == A5.m.pcs[1 := Entering(true)];
  }

  lemma ToA7()
    ensures Takes(Whole(A6), Going(true), PRI, Whole(A7))
  {
    assert A7.m.pcs == A6.m.pcs[1 := Testing(true)];
  }

  lemma ToB8()
    ensures Takes(Whole(A7), Going(true), PRI, Whole(B8))
  {
    assert B8.m.pcs == A7.m.pcs[1 := Asleep(true)] && B8.gap == A7.gap[1 := Listed];
    WaitsAlone(A7, 1, B8);
  }

  lemma ToC8()
    ensures Takes(Whole(A7), Rousing(2), PRI, Whole(C8))
  {
    InsertEmpty(2, Before(PRI));
    assert Remove(A7.others, 2) == C8.others && A7.blocked - {2} == C8.blocked;
  }

  lemma ToC9()
    ensures Takes(Whole(C8), Yielding, PRI, Whole(C9))
  {
    InsertBehind(2, 1, Before(PRI));
  }

  lemma ToC10()
    ensures Takes(Whole(C9), Going(true), PRI, Whole(C10))
  {
    assert C10.m.pcs == C9.m.pcs[2 := Entering(true)];
  }

  lemma ToC11()
    ensures Takes(Whole(C10), Going(true), PRI, Whole(C11))
  {
    assert C11.blocked == C10.blocked + {2};
    SleepsOnGuard(C10, 2, C11);
  }

  lemma ToC12()
    ensures Takes(Whole(C11), Going(true), PRI, Whole(C12))
  {
    assert C12.m.pcs == C11.m.pcs[1 := Asleep(true)] && C12.gap == C11.gap[1 := Listed];
    WaitsAlone(C11, 1, C12);
  }

  lemma ReachA0()
    ensures Reached(Whole(A0))
  {
    ReachedStart(A0);
  }

  lemma ReachA7()
    ensures Reached(Whole(A7))
  {
    hide *;
    ReachA0();
    ToA1();
    ReachedStep(Whole(A0), Going(false), PRI, Whole(A1));
    ToA2();
    ReachedStep(Whole(A1), Going(false), PRI, Whole(A2));
    ToA3();
    ReachedStep(Whole(A2), Going(false), PRI, Whole(A3));
    ToA4();
    ReachedStep(Whole(A3), Going(false), PRI, Whole(A4));
    ToA5();
    ReachedStep(Whole(A4), Napping, PRI, Whole(A5));
    ToA6();
    ReachedStep(Whole(A5), Going(true), PRI, Whole(A6));
    ToA7();
    ReachedStep(Whole(A6), Going(true), PRI, Whole(A7));
  }

  lemma ReachB8()
    ensures Reached(Whole(B8))
  {
    hide *;
    ReachA7();
    ToB8();
    ReachedStep(Whole(A7), Going(true), PRI, Whole(B8));
  }

  lemma ReachC12()
    ensures Reached(Whole(C12))
  {
    hide *;
    ReachA7();
    ToC8();
    ReachedStep(Whole(A7), Rousing(2), PRI, Whole(C8));
    ToC9();
    ReachedStep(Whole(C8), Yielding, PRI, Whole(C9));
    ToC10();
    ReachedStep(Whole(C9), Going(true), PRI, Whole(C10));
    ToC11();
    ReachedStep(Whole(C10), Going(true), PRI, Whole(C11));
    ToC12();
    ReachedStep(Whole(C11), Going(true), PRI, Whole(C12));
  }

  /** A run in which the timer makes a thread in the gap yield while nobody else is ready: the element
      is inserted again although the same thread would go on running. */
  lemma YieldToItselfTears() returns (s: Sched, a: Action)
    ensures Reached(Whole(s)) && s.ready == [] && Enabled(s, a) && a.Yielding? && Apply(s, a, PRI) == Torn
  {
    s, a := B8, Yielding;
    ReachB8();
    hide Reached;
  }

  lemma WaitsAt12()
    ensures C12.running == Some(1) && 1 in C12.gap && C12.gap[1].Listed? && C12.guard == [2]
  {
  }

  /** A run in which the code's own yield tears the lists: the guard that `cond_wait` releases is
      waited for by a thread of higher priority. */
  lemma OwnYieldTears() returns (s: Sched, a: Action)
    ensures Reached(Whole(s)) && Enabled(s, a) && a.Going? && Apply(s, a, PRI) == Torn
  {
    WaitsAt12();
    a := Going(true);
    assert Enabled(C12, a);
    hide C12, Reached, Sound, Apply;
    ReachC12();
    ReachedSound(C12);
    HighWaiterTears(C12, 1, true, PRI);
    s := Apply(C12, a, PRI).s;
    ReachedStep(Whole(C12), a, PRI, Whole(s));
  }

  lemma ReachedSound(s: Sched)
    requires Reached(Whole(s))
    ensures Sound(s)
  {
    var os, acts, pris :| IsSchedRun(os, acts, pris) && os[|acts|] == Whole(s);
    RunSound(os, acts, pris, |acts|);
  }
}
