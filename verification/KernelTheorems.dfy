/** Theorems over whole runs: mutual exclusion and accounting, exact effective priorities, no
    stranded sleeper, the donation order, and the runs in which the code falls short. */
module KernelTheorems {
  import opened Queues
  import opened KernelState
  import opened QueueInvariant
  import opened LockInvariant
  import opened ControlInvariant
  import opened Donation
  import opened KernelRuns

  ghost predicate StepOk(s: State, a: Action, s': State) { Enabled(s, a) && Apply(s, a) == Done(s') }

  /** A run that has not panicked: its states and the actions between them. */
  ghost predicate IsRun(ss: seq<State>, acts: seq<Action>) {
    && |ss| == |acts| + 1 && Initial(ss[0])
    && forall i :: 0 <= i < |acts| ==> StepOk(ss[i], acts[i], ss[i + 1])
  }

  ghost predicate Reachable(s: State) { exists ss, acts :: IsRun(ss, acts) && ss[|acts|] == s }

  lemma ReachableStep(s: State, a: Action, s': State)
    requires Reachable(s) && StepOk(s, a, s')
    ensures Reachable(s')
  {
    var ss, acts :| IsRun(ss, acts) && ss[|acts|] == s;
    var ss', acts' := ss + [s'], acts + [a];
    hide StepOk;
    forall i | 0 <= i < |acts'| ensures StepOk(ss'[i], acts'[i], ss'[i + 1]) {
      if i < |acts| { assert StepOk(ss[i], acts[i], ss[i + 1]); }
    }
    assert IsRun(ss', acts') && ss'[|acts'|] == s';
  }

  lemma ReachableStart(s: State)
    requires Initial(s)
    ensures Reachable(s)
  {
    var ss, acts: seq<Action> := [s], [];
    assert IsRun(ss, acts) && ss[|acts|] == s;
  }

  // ---- every interleaving, barging acquirers included ----

  lemma {:induction false} RunInv(ss: seq<State>, acts: seq<Action>, n: nat)
    requires IsRun(ss, acts) && n < |ss|
    ensures Inv(ss[n])
  {
    if n == 0 {
      InitialInv(ss[0]);
    } else {
      RunInv(ss, acts, n - 1);
      assert StepOk(ss[n - 1], acts[n - 1], ss[n]);
      StepKeeps(ss[n - 1], acts[n - 1]);
    }
  }

  /** In every state of every run, a lock is in a thread's queue exactly when that thread holds it,
      once; `state` counts holder and requesters; and value, holder and releaser add up to one. */
  lemma MutualExclusion(ss: seq<State>, acts: seq<Action>, n: nat, l: Lid)
    requires IsRun(ss, acts) && n < |ss| && l in ss[n].locks
    ensures var s := ss[n];
            && (forall t :: t in s.threads ==> (l in s.threads[t].lockQueue <==> s.locks[l].holder == Some(t)))
            && (forall t :: t in s.threads ==> NoDup(s.threads[t].lockQueue))
            && s.locks[l].state == Wrap8(1 - Held(s.locks[l]) - |Requesters(s, l)|)
            && Sm(s, l).value + Held(s.locks[l]) + |Releasers(s, l)| == 1
  {
    RunInv(ss, acts, n);
    var s := ss[n];
    assert LockCounts(s, l);
    forall t | t in s.threads ensures (l in s.threads[t].lockQueue <==> s.locks[l].holder == Some(t)) && NoDup(s.threads[t].lockQueue) {
      assert HolderOk(s, t);
    }
  }

  /** No semaphore strands a sleeper: while somebody sleeps on x and its value is positive, a
      thread that is running or ready is about to test it again. */
  lemma NobodyStranded(ss: seq<State>, acts: seq<Action>, n: nat, x: Sid)
    requires IsRun(ss, acts) && n < |ss| && x in ss[n].semas && ss[n].semas[x].waiters != []
    ensures ss[n].semas[x].value <= |Popped(ss[n], x)|
    ensures forall t :: t in Popped(ss[n], x) ==> ss[n].running == Some(t) || t in ss[n].ready
    ensures ss[n].semas[x].value > 0 ==>
              exists t :: t in Popped(ss[n], x) && (ss[n].running == Some(t) || t in ss[n].ready)
  {
    RunInv(ss, acts, n);
    var s := ss[n];
    assert NoStrand(s, x);
    forall t | t in Popped(s, x) ensures s.running == Some(t) || t in s.ready {
      assert s.running == Some(t) || Queued(s, t);
      assert forall y :: y in s.semas ==> WaitersOk(s, y);
    }
    if s.semas[x].value > 0 {
      var t := Member(Popped(s, x));
    }
  }

  /** Every queue is sorted by effective priority in every state, so whoever is dispatched or
      woken next is of the highest priority there. */
  lemma QueuesSorted(ss: seq<State>, acts: seq<Action>, n: nat, q: Queue)
    requires IsRun(ss, acts) && n < |ss|
    ensures var s := ss[n]; NoDup(QueueOf(s, q)) && Desc(s.threads, QueueOf(s, q))
    ensures forall t :: t in QueueOf(ss[n], q) ==> EPri(ss[n].threads, QueueOf(ss[n], q)[0]) >= EPri(ss[n].threads, t)
  {
    RunInv(ss, acts, n);
    assert QueueOk(ss[n], q);
  }

  // ---- effective priorities in calm runs ----

  ghost predicate CalmStep(s: State, a: Action) { Enabled(s, a) && Calm(s, a) }

  /** In a calm run every thread's effective priority is the highest priority among the locks it
      holds, or its base priority when it holds none. */
  lemma {:induction false} CalmRunExact(ss: seq<State>, acts: seq<Action>, n: nat)
    requires IsRun(ss, acts) && n < |ss| && forall i :: 0 <= i < n ==> CalmStep(ss[i], acts[i])
    ensures Inv(ss[n]) && AllExact(ss[n])
    ensures forall t, l :: t in ss[n].threads && l in ss[n].threads[t].lockQueue ==> LPri(ss[n].locks, l) <= ss[n].threads[t].ePri
  {
    RunInv(ss, acts, n);
    if n == 0 {
      InitialInv(ss[0]);
    } else {
      CalmRunExact(ss, acts, n - 1);
      assert StepOk(ss[n - 1], acts[n - 1], ss[n]) && CalmStep(ss[n - 1], acts[n - 1]);
      StepKeeps(ss[n - 1], acts[n - 1]);
    }
    forall t, l | t in ss[n].threads && l in ss[n].threads[t].lockQueue ensures LPri(ss[n].locks, l) <= ss[n].threads[t].ePri {
      assert HolderOk(ss[n], t);
      HeldBelowHolder(ss[n], t, l);
    }
  }

  // ---- the donation order ----

  // The lock that changes hands in this step, if one does.
  function Takes(s: State, a: Action): Option<Lid>
    requires Enabled(s, a)
  {
    match a
    case Acquiring(l) => if Sm(s, l).value > 0 then Some(l) else None
    case TryAcquiring(l) => if Sm(s, l).value > 0 then Some(l) else None
    case Resuming =>
      var x := s.threads[s.running.value].pc.sema;
      if x in s.locks && Sm(s, x).value > 0 then Some(x) else None
    case _ => None
  }

  // `lock_acquire` of a held lock donates, or the caller does not run above the lock.
  ghost predicate Heard(s: State, l: Lid)
    requires Enabled(s, Acquiring(l))
  {
    s.locks[l].holder.Some? ==> |Requesters(s, l)| % 256 < 128 || EPri(s.threads, s.running.value) <= s.locks[l].pri
  }

  // A lock changes hands only to a requester nobody else requesting it runs above, and nobody
  // asks for a lock in vain where the 8-bit state has wrapped.
  ghost predicate Fair(s: State, a: Action) {
    && Enabled(s, a)
    && (Takes(s, a).Some? ==> TopRequester(s, s.running.value, Takes(s, a).value))
    && (a.Acquiring? ==> Heard(s, a.l))
  }

  /** With the lock held, `lock_acquire` donates exactly while the number of requesters, modulo
      256, is below 128: the int8_t state turns positive again after that. */
  lemma DonatesIff(s: State, t: Tid, l: Lid)
    requires Inv(s) && l in s.locks && s.locks[l].holder.Some?
    ensures Request(s, t, l).locks[l].state < 0 <==> |Requesters(s, l)| % 256 < 128
  {
    assert LockCounts(s, l);
  }

  lemma HeldValue(s: State, l: Lid)
    requires ControlInv(s) && l in s.locks && s.locks[l].holder.Some?
    ensures s.semas[l].value == 0
  {
    assert LockCounts(s, l);
  }

  // ---- the assertion in the donation walk ----

  // The caller is at p itself, so its own request is no link of a chain below p.
  lemma RequestPaths(s: State, t: Tid, l: Lid, p: int, ls: seq<Lid>)
    requires t in s.threads && l in s.locks && s.threads[t].ePri >= p
    ensures LowPath(Request(s, t, l), l, p, ls) <==> LowPath(s, l, p, ls)
  {
    var s2 := Request(s, t, l);
    forall m, m' ensures LowLink(s2, m, p, m') <==> LowLink(s, m, p, m') {}
  }

  /** `lock_acquire` fails its assertion exactly when the lock is held, donation takes place, and
      the chain of waiting from the lock leads to one without a holder through locks and holders
      all below the caller. */
  lemma AcquirePanicsIff(s: State, l: Lid)
    requires Inv(s) && Enabled(s, Acquiring(l))
    ensures Apply(s, Acquiring(l)).Panic? <==>
              && s.locks[l].holder.Some? && |Requesters(s, l)| % 256 < 128
              && exists ls :: LowPath(s, l, EPri(s.threads, s.running.value), ls)
  {
    var t, s2 := s.running.value, Request(s, s.running.value, l);
    var p := EPri(s.threads, t);
    AcquireUnfold(s, l);
    if s.locks[l].holder.Some? { DonatesIff(s, t, l); }
    WalkPanicsIff(s2, t, l);
    assert EPri(s2.threads, t) == p;
    hide LowPath, Walk, TryFinish, Request;
    forall ls ensures LowPath(s2, l, p, ls) <==> LowPath(s, l, p, ls) { RequestPaths(s, t, l, p, ls); }
  }

  // ---- the order over steps and runs ----

  lemma DonateThenSleep(s: State, t: Tid, l: Lid)
    requires QueueInv(s) && LockInv(s) && AtTest(s, t, l) && l in s.locks && s.running == Some(t)
    requires s.semas[l].value == 0 && OrderedBut(s, t) && Walk(s, t, l).Done?
    ensures Sm(Walk(s, t, l).s, l).value == 0 && Ordered(Sleep(Walk(s, t, l).s, t, l))
  {
    WalkAtTest(s, t, l);
    SleepKeeps(Walk(s, t, l).s, t, l);
  }

  lemma AcquireHeldOrderedIff(s: State, l: Lid)
    requires Inv(s) && Ordered(s) && Enabled(s, Acquiring(l)) && Apply(s, Acquiring(l)).Done? && s.locks[l].holder.Some?
    ensures Ordered(Apply(s, Acquiring(l)).s) <==> Heard(s, l)
  {
    var t, s2 := s.running.value, Request(s, s.running.value, l);
    AcquireStart(s, t, l);
    HeldValue(s, l);
    DonatesIff(s, t, l);
    AcquireUnfold(s, l);
    if s2.locks[l].state < 0 {
      DonateThenSleep(s2, t, l);
    } else {
      SleepKeeps(s2, t, l);
      assert Ordered(s2) <==> EdgeOk(s2, t);
    }
  }

  lemma RequestTop(s: State, t: Tid, l: Lid)
    requires ControlInv(s) && t in s.threads && s.threads[t].pc == Free && l in s.locks
    ensures TopRequester(Request(s, t, l), t, l) <==> TopRequester(s, t, l)
  {
    RequestControl(s, t, l);
  }

  // The lock is free, or just being released: the test follows at once.
  lemma RequestThenTest(s: State, t: Tid, l: Lid)
    requires Inv(s) && Ordered(s) && s.running == Some(t) && s.threads[t].pc == Free && l in s.locks && s.locks[l].holder.None?
    ensures var s2 := Request(s, t, l);
            Ordered(TryFinish(s2, t, l)) <==> (Sm(s, l).value > 0 ==> TopRequester(s, t, l))
  {
    var s2 := Request(s, t, l);
    AcquireStart(s, t, l);
    RequestTop(s, t, l);
    assert l in s.semas && s2.semas == s.semas && s2.running == s.running;
    if s.semas[l].value == 0 {
      hide QueueInv, LockInv, Ordered, ControlBut, TopRequester;
      SleepKeeps(s2, t, l);
    } else {
      hide QueueInv, LockInv, Ordered, ControlBut, TopRequester;
      TakeKeeps(s2, t, l);
    }
  }

  lemma AcquireFreeOrderedIff(s: State, l: Lid)
    requires Inv(s) && Ordered(s) && Enabled(s, Acquiring(l)) && s.locks[l].holder.None?
    ensures Apply(s, Acquiring(l)).Done? && (Ordered(Apply(s, Acquiring(l)).s) <==> Fair(s, Acquiring(l)))
  {
    AcquireUnfold(s, l);
    hide Inv, Ordered, TryFinish, Walk, Apply, TopRequester;
    RequestThenTest(s, s.running.value, l);
  }

  /** A step keeps the donation order if and only if it is fair. */
  lemma StepOrderedIff(s: State, a: Action)
    requires Inv(s) && Ordered(s) && Enabled(s, a) && Apply(s, a).Done?
    ensures Ordered(Apply(s, a).s) <==> Fair(s, a)
  {
    match a
    case Acquiring(l) =>
      if s.locks[l].holder.Some? {
        HeldValue(s, l);
        AcquireHeldOrderedIff(s, l);
      } else {
        AcquireFreeOrderedIff(s, l);
      }
    case TryAcquiring(l) => TryAcquireKeeps(s, s.running.value, l);
    case Disowning(l) => DisownKeeps(s, s.running.value, l);
    case Downing(x) => TestKeeps(s, x);
    case Resuming => TestKeeps(s, s.threads[s.running.value].pc.sema);
    case SettingPriority(p) => SetPriorityKeeps(s, s.running.value, p);
    case Creating(t, p) => CreateKeeps(s, t, p);
    case _ => MovingKeeps(s, a);
  }

  ghost predicate OrderedUpTo(ss: seq<State>, n: nat) { forall i :: 0 <= i <= n && i < |ss| ==> Ordered(ss[i]) }

  ghost predicate FairUpTo(ss: seq<State>, acts: seq<Action>, n: nat)
    requires n <= |acts| <= |ss|
  {
    forall i :: 0 <= i < n ==> Fair(ss[i], acts[i])
  }

  /** A run keeps the donation order in all its states if and only if all its steps are fair. */
  lemma {:induction false} RunOrderedIff(ss: seq<State>, acts: seq<Action>, n: nat)
    requires IsRun(ss, acts) && n < |ss|
    ensures OrderedUpTo(ss, n) <==> FairUpTo(ss, acts, n)
  {
    if n == 0 {
      InitialInv(ss[0]);
    } else {
      RunInv(ss, acts, n - 1);
      RunOrderedIff(ss, acts, n - 1);
      assert StepOk(ss[n - 1], acts[n - 1], ss[n]);
      hide Inv, Ordered, Fair, IsRun;
      assert OrderedUpTo(ss, n) <==> OrderedUpTo(ss, n - 1) && Ordered(ss[n]);
      if Ordered(ss[n - 1]) { StepOrderedIff(ss[n - 1], acts[n - 1]); }
    }
  }

  /** In every fair run each requester's priority is at most that of its lock, which is at most
      its holder's; so no chain of waiting, however long, ends in a thread below its start. */
  lemma FairRunOrdered(ss: seq<State>, acts: seq<Action>, n: nat)
    requires IsRun(ss, acts) && n < |ss| && FairUpTo(ss, acts, n)
    ensures Inv(ss[n]) && Ordered(ss[n])
    ensures forall ts: seq<Tid> :: Chain(ss[n], ts) ==> EPri(ss[n].threads, ts[0]) <= EPri(ss[n].threads, ts[|ts| - 1])
  {
    RunInv(ss, acts, n);
    RunOrderedIff(ss, acts, n);
    hide IsRun, Fair;
    assert Ordered(ss[n]);
    forall ts: seq<Tid> | Chain(ss[n], ts) ensures EPri(ss[n].threads, ts[0]) <= EPri(ss[n].threads, ts[|ts| - 1]) {
      NoInversionOnChain(ss[n], ts);
    }
  }
}
