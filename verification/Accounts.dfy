/** What the steps of a run add up to: the value of a semaphore, the threads there are, and a
    thread's own priority. */
module Accounts {
  import opened Queues
  import opened KernelState
  import opened QueueInvariant
  import opened LockInvariant
  import opened ControlInvariant
  import opened Donation
  import opened KernelRuns
  import opened KernelTheorems

  // ---- semaphores ----

  // The step tests the value of x, in `sema_down` or `sema_try_down`.
  ghost predicate Tests(s: State, a: Action, x: Sid) {
    || a == Downing(x) || a == TryDowning(x)
    || (a == Resuming && s.running.Some? && Th(s, s.running.value).pc == InDown(x))
  }

  ghost predicate Passes(s: State, a: Action, x: Sid) { Tests(s, a, x) && Sm(s, x).value > 0 }

  // What one step does to the value of x.
  ghost function Change(s: State, a: Action, x: Sid): int {
    if a == Upping(x) then 1 else if Passes(s, a, x) then -1 else 0
  }

  ghost predicate ValueStep(s: State, a: Action, s': State, x: Sid) {
    && s'.semas.Keys == s.semas.Keys && s'.locks.Keys == s.locks.Keys
    && Sm(s', x).value == Sm(s, x).value + Change(s, a, x)
  }

  // A test of y changes the value of no other semaphore.
  lemma TestValue(s: State, t: Tid, y: Sid, x: Sid)
    requires y in s.semas
    ensures var s' := TryFinish(s, t, y);
            && s'.semas.Keys == s.semas.Keys && s'.locks.Keys == s.locks.Keys
            && Sm(s', x).value == if x == y && Sm(s, y).value > 0 then Sm(s, y).value - 1 else Sm(s, x).value
  {
    hide InsertThread, InsertLock;
  }

  lemma WakeValue(s: State, y: Sid, x: Sid)
    requires y in s.semas
    ensures var s' := Wake(s, y);
            && s'.semas.Keys == s.semas.Keys && s'.locks == s.locks
            && Sm(s', x).value == Sm(s, x).value + if x == y then 1 else 0
  {
    hide InsertThread;
  }

  // No semaphore or lock comes or goes, and x keeps its value.
  ghost predicate SameValue(s: State, s': State, x: Sid) {
    s'.semas.Keys == s.semas.Keys && s'.locks.Keys == s.locks.Keys && Sm(s', x).value == Sm(s, x).value
  }

  lemma SameValueTrans(s: State, s1: State, s2: State, x: Sid)
    requires SameValue(s, s1, x) && SameValue(s1, s2, x)
    ensures SameValue(s, s2, x)
  {
  }

  lemma RequestValue(s: State, t: Tid, l: Lid, x: Sid)
    requires l in s.locks
    ensures SameValue(s, Request(s, t, l), x)
  {
  }

  lemma RaisedValue(s: State, s': State, p: int, x: Sid)
    requires OnlyRaises(s, s', p)
    ensures SameValue(s, s', x)
  {
  }

  lemma OtherTestValue(s: State, t: Tid, y: Sid, x: Sid)
    requires y in s.semas && x != y
    ensures SameValue(s, TryFinish(s, t, y), x)
  {
    hide TryFinish;
    TestValue(s, t, y, x);
  }

  lemma AcquireValue(s: State, l: Lid, x: Sid)
    requires Inv(s) && Enabled(s, Acquiring(l)) && Apply(s, Acquiring(l)).Done? && x != l
    ensures SameValue(s, Apply(s, Acquiring(l)).s, x)
  {
    var t := s.running.value;
    assert l in s.semas;
    hide Inv, QueueInv, LockInv, ControlInv, TryFinish, Walk, Apply, OnlyRaises, SameValue;
    var s2, s' := Request(s, t, l), Apply(s, Acquiring(l)).s;
    AcquireStart(s, t, l);
    AcquireUnfold(s, l);
    RequestValue(s, t, l, x);
    if s2.locks[l].state < 0 && s2.locks[l].holder.Some? {
      var s3 := Walk(s2, t, l).s;
      WalkAtTest(s2, t, l);
      RaisedValue(s2, s3, EPri(s2.threads, t), x);
      SameValueTrans(s, s2, s3, x);
      OtherTestValue(s3, t, l, x);
      SameValueTrans(s, s3, s', x);
    } else {
      OtherTestValue(s2, t, l, x);
      SameValueTrans(s, s2, s', x);
    }
  }

  predicate Direct(a: Action) {
    || a.TryAcquiring? || a.Disowning? || a.Yielding? || a.Dispatching? || a.SettingPriority? || a.Creating? || a.TryDowning?
  }

  lemma DirectValue(s: State, a: Action, x: Sid)
    requires Enabled(s, a) && Direct(a) && x in s.semas && x !in s.locks && forall l :: l in s.locks ==> l in s.semas
    ensures ValueStep(s, a, Apply(s, a).s, x)
  {
    hide InsertThread, InsertLock, Wrap8, LPri;
  }

  // The semaphore whose value the step tests.
  function Tested(s: State, a: Action): Sid
    requires Enabled(s, a) && (a.Downing? || a.Resuming?)
  {
    if a.Downing? then a.x else s.threads[s.running.value].pc.sema
  }

  lemma TestStep(s: State, a: Action, x: Sid)
    requires Inv(s) && Enabled(s, a) && (a.Downing? || a.Resuming?)
    ensures ValueStep(s, a, Apply(s, a).s, x)
  {
    assert PcOk(s, s.running.value);
    hide TryFinish, Inv;
    TestValue(s, s.running.value, Tested(s, a), x);
  }

  lemma UpStep(s: State, a: Action, x: Sid)
    requires Inv(s) && Enabled(s, a) && (a.Upping? || a.FinishingRelease?) && x !in s.locks
    ensures ValueStep(s, a, Apply(s, a).s, x)
  {
    if a.Upping? {
      hide Wake, Inv;
      WakeValue(s, a.x, x);
    } else {
      var t := s.running.value;
      assert PcOk(s, t) && s.threads[t].pc.lock in s.semas;
      hide Wake, Inv;
      WakeValue(PutTh(s, t, Th(s, t).(pc := Free)), s.threads[t].pc.lock, x);
    }
  }

  /** One step: only an up of x raises its value, only a test that finds it positive lowers it. */
  lemma StepValue(s: State, a: Action, x: Sid)
    requires Inv(s) && Enabled(s, a) && Apply(s, a).Done? && x in s.semas && x !in s.locks
    ensures ValueStep(s, a, Apply(s, a).s, x)
  {
    hide QueueInv, LockInv, TryFinish, Wake, Apply;
    if a.Acquiring? {
      AcquireValue(s, a.l, x);
    } else if a.Downing? || a.Resuming? {
      TestStep(s, a, x);
    } else if a.Upping? || a.FinishingRelease? {
      UpStep(s, a, x);
    } else {
      DirectValue(s, a, x);
    }
  }

  lemma RunStep(ss: seq<State>, acts: seq<Action>, n: nat)
    requires IsRun(ss, acts) && 0 < n < |ss|
    ensures |ss| == |acts| + 1 && Inv(ss[n - 1]) && StepOk(ss[n - 1], acts[n - 1], ss[n])
  {
    RunInv(ss, acts, n - 1);
  }

  lemma RunValue(s: State, a: Action, s': State, x: Sid)
    requires Inv(s) && StepOk(s, a, s') && x in s.semas && x !in s.locks
    ensures ValueStep(s, a, s', x)
  {
    hide Inv, Apply, Enabled, ValueStep;
    StepValue(s, a, x);
  }

  lemma ValueIs(s: State, a: Action, s': State, x: Sid)
    requires ValueStep(s, a, s', x) && x in s.semas && x !in s.locks
    ensures x in s'.semas && x !in s'.locks
    ensures s'.semas[x].value == s.semas[x].value + (if a == Upping(x) then 1 else 0) - (if Passes(s, a, x) then 1 else 0)
  {
  }

  // How often x was raised in the first n steps.
  ghost function Ups(acts: seq<Action>, x: Sid, n: nat): nat
    requires n <= |acts|
  {
    if n == 0 then 0 else Ups(acts, x, n - 1) + if acts[n - 1] == Upping(x) then 1 else 0
  }

  // How many of the tests of x in them found it positive.
  ghost function Downs(ss: seq<State>, acts: seq<Action>, x: Sid, n: nat): nat
    requires n <= |acts| <= |ss|
  {
    if n == 0 then 0 else Downs(ss, acts, x, n - 1) + if Passes(ss[n - 1], acts[n - 1], x) then 1 else 0
  }

  /** In every state of every run the value of a semaphore that is no lock's is its initial value,
      plus the ups so far, less the successful downs and tries. */
  lemma {:induction false} SemaValue(ss: seq<State>, acts: seq<Action>, x: Sid, n: nat)
    requires IsRun(ss, acts) && n < |ss| && x in ss[0].semas && x !in ss[0].locks
    ensures x in ss[n].semas && x !in ss[n].locks
    ensures ss[n].semas[x].value == ss[0].semas[x].value + Ups(acts, x, n) - Downs(ss, acts, x, n)
  {
    hide IsRun, StepOk, Inv, Apply, Enabled, Tests, ValueStep;
    if n > 0 {
      SemaValue(ss, acts, x, n - 1);
      RunStep(ss, acts, n);
      RunValue(ss[n - 1], acts[n - 1], ss[n], x);
      ValueIs(ss[n - 1], acts[n - 1], ss[n], x);
    }
  }

  /** A thread gets past its test of x exactly when it finds a positive value; otherwise it sleeps
      there. */
  lemma TestIs(s: State, a: Action, x: Sid)
    requires Inv(s) && Enabled(s, a) && Tests(s, a, x) && !a.TryDowning?
    ensures var t, s' := s.running.value, Apply(s, a).s;
            if Sm(s, x).value > 0 then s'.running == Some(t) && s'.threads[t].pc == Free && s'.ready == s.ready
            else s'.threads[t].pc == InDown(x) && t in s'.semas[x].waiters && s'.running != Some(t)
  {
    var t := s.running.value;
    assert PcOk(s, t) && QueueOk(s, ReadyQ) && QueueOf(s, ReadyQ) == s.ready;
    if Sm(s, x).value == 0 {
      InsertIn(Sm(s, x).waiters, t, ThreadBefore(s.threads));
    }
  }

  // ---- locks ----

  lemma TestHolder(s: State, t: Tid, l: Lid)
    requires l in s.locks && l in s.semas && s.locks[l].holder != Some(t)
    ensures var s' := TryFinish(s, t, l);
            && l in s'.locks && (s'.locks[l].holder == Some(t) <==> s.semas[l].value > 0)
            && (s.semas[l].value > 0 ==> s'.locks[l].pri == EPri(s.threads, t))
            && (s.semas[l].value == 0 ==> s'.locks == s.locks && l in s'.semas && t in s'.semas[l].waiters)
  {
    InsertIn(s.semas[l].waiters, t, ThreadBefore(s.threads));
    hide InsertThread, InsertLock;
    assert InsertThread(s.threads, s.semas[l].waiters, t) == InsertOrdered(s.semas[l].waiters, t, ThreadBefore(s.threads));
  }

  /** `lock_acquire` has the lock at once, at the caller's priority, exactly when nobody held it or
      was still releasing it; otherwise the caller is left waiting for it. */
  lemma AcquireTakesIff(s: State, l: Lid)
    requires Inv(s) && Enabled(s, Acquiring(l)) && Apply(s, Acquiring(l)).Done?
    ensures var s' := Apply(s, Acquiring(l)).s;
            && l in s'.locks && (s'.locks[l].holder == s.running <==> s.locks[l].holder == None && Releasers(s, l) == {})
            && (s'.locks[l].holder == s.running ==> s'.locks[l].pri == EPri(s.threads, s.running.value))
            && (s'.locks[l].holder != s.running ==> l in s'.semas && s.running.value in s'.semas[l].waiters)
  {
    var t := s.running.value;
    assert l in s.semas && LockCounts(s, l);
    hide Inv, QueueInv, LockInv, ControlInv, TryFinish, Walk, Apply;
    var s2 := Request(s, t, l);
    AcquireStart(s, t, l);
    AcquireUnfold(s, l);
    if s2.locks[l].state < 0 && s2.locks[l].holder.Some? {
      var s3 := Walk(s2, t, l).s;
      WalkAtTest(s2, t, l);
      assert LockRaised(s2.locks[l], s3.locks[l], EPri(s2.threads, t));
      TestHolder(s3, t, l);
    } else {
      TestHolder(s2, t, l);
    }
  }

  // What is left to t, and at which priority it runs then.
  ghost predicate LeftWith(s: State, s': State, t: Tid, l: Lid)
    requires t in s.threads && t in s'.threads
  {
    var q, e := s'.threads[t].lockQueue, s'.threads[t].ePri;
    && (forall m :: m in q <==> m in s.threads[t].lockQueue && m != l)
    && (q == [] ==> e == s.threads[t].bPri)
    && (q != [] ==> (exists m :: m in q && LPri(s.locks, m) == e) && forall m :: m in q ==> LPri(s.locks, m) <= e)
  }

  /** `lock_release` leaves the lock without a holder and the caller with its other locks, at the
      highest priority among those, or at its own if there are none. */
  lemma ReleaseIs(s: State, l: Lid)
    requires Inv(s) && Enabled(s, Disowning(l))
    ensures var t, s' := s.running.value, Disown(s, s.running.value, l);
            l in s'.locks && s'.locks[l].holder == None && t in s'.threads && LeftWith(s, s', t, l)
  {
    var t, s' := s.running.value, Disown(s, s.running.value, l);
    assert HolderOk(s, t) && l in s.threads[t].lockQueue;
    DisownLocks(s, t, l);
    assert HolderOk(s', t);
    hide QueueInv, ControlInv, LockInv, HolderOk, Disown, LeftWith;
    DisownFacts(s, t, l);
    LeftIs(s, s', t, l);
  }

  lemma DisownFacts(s: State, t: Tid, l: Lid)
    requires t in s.threads && l in s.locks
    ensures var s' := Disown(s, t, l);
            && t in s'.threads && s'.threads[t].lockQueue == Remove(s.threads[t].lockQueue, l)
            && l in s'.locks && s'.locks[l].holder == None && (forall m :: m != l ==> LPri(s'.locks, m) == LPri(s.locks, m))
            && s'.threads[t].ePri == if s'.threads[t].lockQueue == [] then s.threads[t].bPri else LPri(s'.locks, s'.threads[t].lockQueue[0])
  {
  }

  lemma LeftIs(s: State, s': State, t: Tid, l: Lid)
    requires t in s.threads && t in s'.threads && HoldsExactly(s'.locks, t, s'.threads[t].lockQueue)
    requires l in s.threads[t].lockQueue && NoDup(s.threads[t].lockQueue)
    requires s'.threads[t].lockQueue == Remove(s.threads[t].lockQueue, l)
    requires forall m :: m != l ==> LPri(s'.locks, m) == LPri(s.locks, m)
    requires var q := s'.threads[t].lockQueue;
             s'.threads[t].ePri == if q == [] then s.threads[t].bPri else LPri(s'.locks, q[0])
    ensures LeftWith(s, s', t, l)
  {
    var rest := s'.threads[t].lockQueue;
    RemoveOut(s.threads[t].lockQueue, l);
    hide Remove, NoDup, LPri;
    if rest != [] { assert rest[0] in rest; }
  }

  // ---- threads and their own priorities ----

  // Same base priority; without locks, the effective one is that, or was left alone.
  ghost predicate OwnKept(a: Thread, b: Thread) {
    && b.bPri == a.bPri
    && (b.lockQueue == [] ==> b.ePri == b.bPri || (a.lockQueue == [] && b.ePri == a.ePri))
  }

  ghost predicate OwnsKept(s: State, s': State) {
    s'.threads.Keys == s.threads.Keys && forall t :: t in s.threads ==> OwnKept(s.threads[t], s'.threads[t])
  }

  lemma OwnsTrans(s: State, s1: State, s2: State)
    requires OwnsKept(s, s1) && OwnsKept(s1, s2)
    ensures OwnsKept(s, s2)
  {
    forall t | t in s.threads ensures OwnKept(s.threads[t], s2.threads[t]) {
      assert OwnKept(s.threads[t], s1.threads[t]) && OwnKept(s1.threads[t], s2.threads[t]);
    }
  }

  lemma OwnOwns(s: State, t: Tid, l: Lid)
    requires t in s.threads
    ensures OwnsKept(s, Own(s, t, l))
  {
    var s' := Own(s, t, l);
    InsertIn(s.threads[t].lockQueue, l, LockBefore(s'.locks));
  }

  lemma TestOwns(s: State, t: Tid, x: Sid)
    requires t in s.threads && x in s.semas
    ensures OwnsKept(s, TryFinish(s, t, x))
  {
    if s.semas[x].value > 0 && x in s.locks {
      var s1 := SetValue(s, x, s.semas[x].value - 1);
      OwnOwns(s1, t, x);
    }
  }

  lemma RaisesOwns(s: State, s': State, p: int)
    requires OnlyRaises(s, s', p)
    ensures OwnsKept(s, s')
  {
    forall t | t in s.threads ensures OwnKept(s.threads[t], s'.threads[t]) {
      assert ThreadRaised(s.threads[t], s'.threads[t], p);
      assert |s'.threads[t].lockQueue| == |multiset(s.threads[t].lockQueue)|;
    }
  }

  lemma RequestOwns(s: State, t: Tid, l: Lid)
    requires t in s.threads
    ensures OwnsKept(s, Request(s, t, l))
  {
  }

  lemma AcquireOwns(s: State, l: Lid)
    requires Inv(s) && Enabled(s, Acquiring(l)) && Apply(s, Acquiring(l)).Done?
    ensures OwnsKept(s, Apply(s, Acquiring(l)).s)
  {
    var t := s.running.value;
    assert l in s.semas;
    hide Inv, QueueInv, LockInv, ControlInv, TryFinish, Walk, Apply, OwnsKept, OnlyRaises;
    var s2, s' := Request(s, t, l), Apply(s, Acquiring(l)).s;
    AcquireStart(s, t, l);
    AcquireUnfold(s, l);
    RequestOwns(s, t, l);
    if s2.locks[l].state < 0 && s2.locks[l].holder.Some? {
      var s3 := Walk(s2, t, l).s;
      WalkAtTest(s2, t, l);
      RaisesOwns(s2, s3, EPri(s2.threads, t));
      OwnsTrans(s, s2, s3);
      TestOwns(s3, t, l);
      OwnsTrans(s, s3, s');
    } else {
      TestOwns(s2, t, l);
      OwnsTrans(s, s2, s');
    }
  }

  lemma StepOwns(s: State, a: Action)
    requires Inv(s) && Enabled(s, a) && Apply(s, a).Done? && !a.SettingPriority? && !a.Creating?
    ensures OwnsKept(s, Apply(s, a).s)
  {
    hide QueueInv, LockInv, TryFinish, Wake, Walk;
    if a.Acquiring? {
      AcquireOwns(s, a.l);
    } else if a.Downing? || a.Resuming? {
      assert PcOk(s, s.running.value);
      TestOwns(s, s.running.value, Tested(s, a));
    } else if a.TryAcquiring? {
      if Sm(s, a.l).value > 0 {
        var l := a.l;
        var s1 := PutLk(SetValue(s, l, Sm(s, l).value - 1), l, Lk(s, l).(state := Wrap8(Lk(s, l).state - 1)));
        OwnOwns(s1, s.running.value, l);
        hide Own;
      }
    } else if !a.Disowning? {
      MovingKeeps(s, a);
    }
  }

  // A thread without locks runs at its own priority.
  ghost predicate Unaided(s: State) {
    forall t :: t in s.threads && s.threads[t].lockQueue == [] ==> s.threads[t].ePri == s.threads[t].bPri
  }

  // The priority t has asked for, after a step.
  function Asked(s: State, a: Action, t: Tid): int {
    if (a.SettingPriority? && s.running == Some(t)) || (a.Creating? && a.t == t) then a.p else Th(s, t).bPri
  }

  ghost predicate OwnStep(s: State, a: Action, s': State) {
    && s'.threads.Keys == s.threads.Keys + (if a.Creating? then {a.t} else {})
    && (forall t :: t in s'.threads ==> s'.threads[t].bPri == Asked(s, a, t))
    && (Unaided(s) ==> Unaided(s'))
  }

  lemma SetOwn(s: State, t: Tid, p: int)
    requires t in s.threads && s.running == Some(t)
    ensures OwnStep(s, SettingPriority(p), SetPriority(s, t, p))
  {
  }

  lemma CreateOwn(s: State, t: Tid, p: int)
    requires t !in s.threads
    ensures OwnStep(s, Creating(t, p), Create(s, t, p))
  {
    hide InsertThread;
  }

  lemma KeptOwn(s: State, a: Action, s': State)
    requires OwnsKept(s, s') && !a.SettingPriority? && !a.Creating?
    ensures OwnStep(s, a, s')
  {
    forall t | t in s.threads ensures OwnKept(s.threads[t], s'.threads[t]) {}
  }

  /** One step: threads come with `thread_create` alone; the base priority is what the thread was
      created with or last set; a thread without locks runs at it. */
  lemma StepOwn(s: State, a: Action)
    requires Inv(s) && Enabled(s, a) && Apply(s, a).Done?
    ensures OwnStep(s, a, Apply(s, a).s)
  {
    hide Inv, OwnStep, SetPriority, Create;
    if a.SettingPriority? {
      SetOwn(s, s.running.value, a.p);
    } else if a.Creating? {
      CreateOwn(s, a.t, a.p);
    } else {
      hide Apply, OwnsKept;
      StepOwns(s, a);
      KeptOwn(s, a, Apply(s, a).s);
    }
  }

  // The priority t was created with or last set in the first n steps.
  ghost function LastAsked(ss: seq<State>, acts: seq<Action>, t: Tid, n: nat): int
    requires n <= |acts| < |ss|
  {
    if n == 0 then Th(ss[0], t).bPri
    else if acts[n - 1].SettingPriority? && ss[n - 1].running == Some(t) then acts[n - 1].p
    else if acts[n - 1].Creating? && acts[n - 1].t == t then acts[n - 1].p
    else LastAsked(ss, acts, t, n - 1)
  }

  lemma AskedStep(s: State, a: Action, s': State, t: Tid)
    requires OwnStep(s, a, s') && t in s'.threads
    ensures s'.threads[t].bPri == Asked(s, a, t)
    ensures t in s.threads || (a.Creating? && a.t == t)
  {
  }

  lemma {:induction false} RunBase(ss: seq<State>, acts: seq<Action>, t: Tid, n: nat)
    requires IsRun(ss, acts) && n < |ss| && t in ss[n].threads
    ensures ss[n].threads[t].bPri == LastAsked(ss, acts, t, n)
  {
    if n > 0 {
      hide Inv, Apply, Enabled, IsRun, OwnStep;
      var s, a, s' := ss[n - 1], acts[n - 1], ss[n];
      RunStep(ss, acts, n);
      StepOwn(s, a);
      AskedStep(s, a, s', t);
      if t in s.threads { RunBase(ss, acts, t, n - 1); }
    }
  }

  lemma UnaidedStep(s: State, a: Action, s': State)
    requires Inv(s) && StepOk(s, a, s') && Unaided(s)
    ensures Unaided(s')
  {
    hide Inv, Apply, Enabled, Unaided;
    StepOwn(s, a);
  }

  lemma StartUnaided(ss: seq<State>, acts: seq<Action>)
    requires IsRun(ss, acts)
    ensures |ss| == |acts| + 1 && Unaided(ss[0])
  {
    assert Initial(ss[0]);
    hide IsRun, StepOk;
  }

  lemma {:induction false} RunUnaided(ss: seq<State>, acts: seq<Action>, n: nat)
    requires IsRun(ss, acts) && n < |ss|
    ensures Unaided(ss[n])
  {
    hide IsRun, StepOk, Inv, Unaided;
    StartUnaided(ss, acts);
    if n > 0 {
      RunUnaided(ss, acts, n - 1);
      RunStep(ss, acts, n);
      UnaidedStep(ss[n - 1], acts[n - 1], ss[n]);
    }
  }

  /** In every state of every run a thread's base priority is the one it last asked for, and a
      thread that holds no lock runs at exactly that. */
  lemma OwnPriority(ss: seq<State>, acts: seq<Action>, t: Tid, n: nat)
    requires IsRun(ss, acts) && n < |ss| && t in ss[n].threads
    ensures ss[n].threads[t].bPri == LastAsked(ss, acts, t, n)
    ensures ss[n].threads[t].lockQueue == [] ==> ss[n].threads[t].ePri == LastAsked(ss, acts, t, n)
  {
    hide IsRun, LastAsked;
    RunBase(ss, acts, t, n);
    RunUnaided(ss, acts, n);
  }
}
