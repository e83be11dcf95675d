/** Runs in which a released lock goes straight to the waiter `sema_up` wakes: `lock_release`
    yields to it and it takes the lock before anybody else acts. */
module HandOff {
  import opened Queues
  import opened KernelState
  import opened QueueInvariant
  import opened LockInvariant
  import opened ControlInvariant
  import opened Donation
  import opened KernelRuns
  import opened KernelTheorems

  // Nobody is in the middle of a release, and whoever wants a lock sleeps on a held one.
  ghost predicate SettledAt(s: State, t: Tid)
    requires t in s.threads
  {
    && !s.threads[t].pc.Releasing?
    && (s.threads[t].pc.InDown? && s.threads[t].pc.sema in s.locks ==>
          t in Sm(s, s.threads[t].pc.sema).waiters && s.locks[s.threads[t].pc.sema].holder.Some?)
  }

  ghost predicate Settled(s: State) { forall t :: t in s.threads ==> SettledAt(s, t) }

  // The whole of `lock_release` by t, in one go with the end of the next holder's `lock_acquire`.
  function HandOver(s: State, t: Tid, l: Lid): State {
    var s2 := FinishRelease(Disown(s, t, l), t, l);
    if Sm(s, l).waiters == [] then s2 else TryFinish(Yield(s2, t), Sm(s, l).waiters[0], l)
  }

  datatype Coarse = Plain(a: Action) | Handing(l: Lid)

  /** A release hands over when the waiter it wakes is the one the yield dispatches. */
  ghost predicate CoarseEnabled(s: State, c: Coarse) {
    match c
    case Plain(a) =>
      Enabled(s, a) && !a.Disowning? && !a.FinishingRelease?
    case Handing(l) =>
      && Enabled(s, Disowning(l))
      && (Sm(s, l).waiters != [] ==>
            Yield(FinishRelease(Disown(s, s.running.value, l), s.running.value, l), s.running.value).running
            == Some(Sm(s, l).waiters[0]))
  }

  function CoarseApply(s: State, c: Coarse): Outcome
    requires match c case Plain(a) => Enabled(s, a) case Handing(l) => Enabled(s, Disowning(l))
  {
    match c
    case Plain(a) => Apply(s, a)
    case Handing(l) => Done(HandOver(s, s.running.value, l))
  }

  lemma SettledFrame(s: State, s': State)
    requires Settled(s) && s'.threads.Keys == s.threads.Keys && s'.locks.Keys == s.locks.Keys
    requires forall t :: t in s.threads ==> s'.threads[t].pc == s.threads[t].pc
    requires forall l :: l in s.locks && s.locks[l].holder.Some? ==> s'.locks[l].holder.Some?
    requires forall l, t :: l in s.locks && t in Sm(s, l).waiters ==> t in Sm(s', l).waiters
    ensures Settled(s')
  {
    forall t | t in s'.threads ensures SettledAt(s', t) {
      assert SettledAt(s, t);
      if s.threads[t].pc.InDown? {
        var x := s.threads[t].pc.sema;
        assert x in s'.locks.Keys <==> x in s.locks.Keys;
        assert x in s.locks ==> t in Sm(s, x).waiters;
      }
    }
  }

  // The same, but for one thread that leaves `sema_down` or enters it.
  lemma SettledBut(s: State, s': State, t: Tid)
    requires Settled(s) && s'.threads.Keys == s.threads.Keys && s'.locks.Keys == s.locks.Keys
    requires forall u :: u in s.threads && u != t ==> s'.threads[u].pc == s.threads[u].pc
    requires forall l :: l in s.locks && s.locks[l].holder.Some? ==> s'.locks[l].holder.Some?
    requires forall l, u :: l in s.locks && u != t && u in Sm(s, l).waiters ==> u in Sm(s', l).waiters
    requires t in s'.threads && SettledAt(s', t)
    ensures Settled(s')
  {
    forall u | u in s'.threads && u != t ensures SettledAt(s', u) {
      assert SettledAt(s, u);
      if s.threads[u].pc.InDown? {
        var x := s.threads[u].pc.sema;
        assert x in s'.locks.Keys <==> x in s.locks.Keys;
        assert x in s.locks ==> u in Sm(s, x).waiters;
      }
    }
  }

  // In a settled state a lock with a positive value is requested by nobody.
  lemma SettledFree(s: State, l: Lid)
    requires ControlInv(s) && Settled(s) && l in s.locks && s.locks[l].holder.None?
    ensures s.semas[l].value == 1 && Requesters(s, l) == {}
  {
    assert LockCounts(s, l);
    forall t ensures t !in Releasers(s, l) && t !in Requesters(s, l) {
      if t in s.threads { assert SettledAt(s, t) && PcOk(s, t); }
    }
    assert Releasers(s, l) == {};
  }

  lemma RunningNotAsleep(s: State)
    requires Inv(s) && Settled(s) && Runs(s) && s.threads[s.running.value].pc.InDown?
    ensures s.threads[s.running.value].pc.sema !in s.locks
  {
    assert SettledAt(s, s.running.value) && QueueOk(s, WaitersQ(s.threads[s.running.value].pc.sema));
  }

  // Whoever takes a lock in a settled state has no rival.
  lemma SettledFair(s: State, a: Action)
    requires Inv(s) && Settled(s) && CoarseEnabled(s, Plain(a))
    ensures Fair(s, a) <==> (a.Acquiring? ==> Heard(s, a.l))
  {
    if a.Resuming? {
      RunningNotAsleep(s);
    } else if Takes(s, a).Some? {
      assert LockCounts(s, Takes(s, a).value);
      SettledFree(s, Takes(s, a).value);
    }
  }

  /** Where every requested lock is held, the assertion of the donation walk cannot fail. */
  lemma SettledNoPanic(s: State, l: Lid)
    requires Inv(s) && Settled(s) && Enabled(s, Acquiring(l))
    ensures Apply(s, Acquiring(l)).Done?
  {
    AcquirePanicsIff(s, l);
    var p := EPri(s.threads, s.running.value);
    forall ls | s.locks[l].holder.Some? ensures !LowPath(s, l, p, ls) { SettledNoPath(s, l, p, ls); }
  }

  // In a settled state every lock that is waited for is held.
  lemma SettledHeld(s: State, d: Tid)
    requires ControlInv(s) && Settled(s) && d in s.threads && s.threads[d].donatedFor.Some?
    ensures Lk(s, s.threads[d].donatedFor.value).holder.Some?
  {
    assert SettledAt(s, d) && PcOk(s, d);
  }

  lemma SettledNoPath(s: State, l: Lid, p: int, ls: seq<Lid>)
    requires ControlInv(s) && Settled(s) && l in s.locks && s.locks[l].holder.Some?
    ensures !LowPath(s, l, p, ls)
  {
    if LowPath(s, l, p, ls) {
      assert |ls| > 1;
      assert LowLink(s, ls[|ls| - 2], p, ls[|ls| - 1]);
      SettledHeld(s, s.locks[ls[|ls| - 2]].holder.value);
    }
  }

  lemma SleepSettled(s: State, t: Tid, x: Sid)
    requires Settled(s) && t in s.threads && x in s.semas && (x in s.locks ==> s.locks[x].holder.Some?)
    ensures Settled(Sleep(s, t, x))
  {
    InsertIn(s.semas[x].waiters, t, ThreadBefore(s.threads));
    SettledBut(s, Sleep(s, t, x), t);
  }

  lemma TakeSettled(s: State, t: Tid, x: Sid)
    requires Settled(s) && t in s.threads && x in s.semas && s.semas[x].value > 0
    ensures Settled(TryFinish(s, t, x))
  {
    SettledBut(s, TryFinish(s, t, x), t);
  }

  lemma RequestSettled(s: State, t: Tid, l: Lid)
    requires Settled(s) && t in s.threads && l in s.locks
    ensures Settled(Request(s, t, l))
  {
    SettledFrame(s, Request(s, t, l));
  }

  lemma WalkSettled(s: State, t: Tid, l: Lid)
    requires Settled(s) && Walking(s, t) && l in s.locks && Walk(s, t, l).Done?
    ensures Settled(Walk(s, t, l).s) && OnlyRaises(s, Walk(s, t, l).s, EPri(s.threads, t))
  {
    var s' := Walk(s, t, l).s;
    var p := EPri(s.threads, t);
    WalkKeeps(s, t, l);
    forall u | u in s.threads ensures s'.threads[u].pc == s.threads[u].pc {
      assert ThreadRaised(s.threads[u], s'.threads[u], p);
    }
    forall m | m in s.locks ensures s'.locks[m].holder == s.locks[m].holder {
      assert LockRaised(s.locks[m], s'.locks[m], p);
    }
    forall m, u | m in s.locks && u in Sm(s, m).waiters ensures u in Sm(s', m).waiters {
      SameMembers(s.semas[m].waiters, s'.semas[m].waiters);
    }
    SettledFrame(s, s');
  }

  lemma AcquireHeldSettled(s: State, l: Lid)
    requires Inv(s) && Settled(s) && Enabled(s, Acquiring(l)) && s.locks[l].holder.Some? && Apply(s, Acquiring(l)).Done?
    ensures Settled(Apply(s, Acquiring(l)).s)
  {
    var t, s2 := s.running.value, Request(s, s.running.value, l);
    RequestSettled(s, t, l);
    AcquireStart(s, t, l);
    HeldValue(s, l);
    AcquireUnfold(s, l);
    hide Settled, Inv, Walk, Sleep;
    if s2.locks[l].state < 0 {
      WalkSettled(s2, t, l);
      var s3 := Walk(s2, t, l).s;
      assert LockRaised(s2.locks[l], s3.locks[l], EPri(s2.threads, t));
      SleepSettled(s3, t, l);
    } else {
      SleepSettled(s2, t, l);
    }
  }

  lemma AcquireSettled(s: State, l: Lid)
    requires Inv(s) && Settled(s) && Enabled(s, Acquiring(l))
    ensures Apply(s, Acquiring(l)).Done? && Settled(Apply(s, Acquiring(l)).s)
  {
    SettledNoPanic(s, l);
    if s.locks[l].holder.Some? {
      AcquireHeldSettled(s, l);
    } else {
      var t, s2 := s.running.value, Request(s, s.running.value, l);
      SettledFree(s, l);
      RequestSettled(s, t, l);
      AcquireUnfold(s, l);
      TakeSettled(s2, t, l);
    }
  }

  lemma WakeSettled(s: State, x: Sid)
    requires Settled(s) && QueueInv(s) && x in s.semas && x !in s.locks
    ensures Settled(Wake(s, x))
  {
    assert QueueOk(s, WaitersQ(x)) && QueueOf(s, WaitersQ(x)) == s.semas[x].waiters;
    if s.semas[x].waiters != [] { assert s.semas[x].waiters[0] in s.semas[x].waiters; }
    SettledFrame(s, Wake(s, x));
  }

  lemma PlainSettled(s: State, a: Action)
    requires Inv(s) && Settled(s) && CoarseEnabled(s, Plain(a))
    ensures Apply(s, a).Done? && Settled(Apply(s, a).s)
  {
    match a
    case Acquiring(l) => AcquireSettled(s, l);
    case TryAcquiring(l) =>
      if s.semas[l].value > 0 { SettledBut(s, Apply(s, a).s, s.running.value); }
    case Downing(x) =>
      if s.semas[x].value == 0 { SleepSettled(s, s.running.value, x); } else { TakeSettled(s, s.running.value, x); }
    case TryDowning(x) => QuietSettled(s, a);
    case Upping(x) => WakeSettled(s, x);
    case Resuming =>
      var t := s.running.value;
      var x := s.threads[t].pc.sema;
      assert PcOk(s, t);
      RunningNotAsleep(s);
      if s.semas[x].value == 0 { SleepSettled(s, t, x); } else { TakeSettled(s, t, x); }
    case Yielding => QuietSettled(s, a);
    case Dispatching => QuietSettled(s, a);
    case SettingPriority(p) => QuietSettled(s, a);
    case Creating(t, p) => CreateSettled(s, t, p);
  }

  lemma QuietSettled(s: State, a: Action)
    requires Settled(s) && Enabled(s, a) && (a.TryDowning? || a.Yielding? || a.Dispatching? || a.SettingPriority?)
    ensures Settled(Apply(s, a).s)
  {
    SettledFrame(s, Apply(s, a).s);
  }

  lemma CreateSettled(s: State, t: Tid, p: int)
    requires Settled(s) && t !in s.threads
    ensures Settled(Create(s, t, p))
  {
    var s' := Create(s, t, p);
    forall u | u in s'.threads ensures SettledAt(s', u) { if u != t { assert SettledAt(s, u); } }
  }

  // ---- the hand-over itself ----

  // The waiter at the front is of the highest priority among all requesters.
  lemma FrontIsTop(s: State, l: Lid, u: Tid)
    requires Inv(s) && Settled(s) && l in s.locks && s.semas[l].waiters != [] && u in Requesters(s, l)
    ensures EPri(s.threads, u) <= EPri(s.threads, s.semas[l].waiters[0])
  {
    assert PcOk(s, u) && SettledAt(s, u);
    assert QueueOk(s, WaitersQ(l)) && QueueOf(s, WaitersQ(l)) == s.semas[l].waiters;
  }

  // What `lock_release` by t changes: the lock is free, its front waiter off the list, and
  // no other thread's priority or place in its code is touched.
  ghost predicate Released(s: State, s2: State, t: Tid, l: Lid)
    requires l in s.semas
  {
    && s2.threads.Keys == s.threads.Keys && s2.locks.Keys == s.locks.Keys
    && (forall m :: m in s.locks && m != l ==> s2.locks[m] == s.locks[m])
    && s2.semas == s.semas[l := Sema(s.semas[l].value + 1,
                                     if s.semas[l].waiters == [] then [] else s.semas[l].waiters[1..])]
    && (forall u :: u in s.threads ==>
          s2.threads[u].pc == s.threads[u].pc && s2.threads[u].donatedFor == s.threads[u].donatedFor
          && (u != t ==> s2.threads[u].ePri == s.threads[u].ePri))
  }

  lemma ReleaseEffect(s: State, t: Tid, l: Lid)
    requires t in s.threads && s.threads[t].pc == Free && l in s.locks && l in s.semas
    requires s.semas[l].waiters != [] ==> s.semas[l].waiters[0] in s.threads
    ensures Released(s, FinishRelease(Disown(s, t, l), t, l), t, l)
    ensures FinishRelease(Disown(s, t, l), t, l).running == s.running
  {
  }

  lemma ReleaseKeeps(s: State, t: Tid, l: Lid)
    requires Inv(s) && s.running == Some(t) && Enabled(s, Disowning(l))
    ensures var s2 := FinishRelease(Disown(s, t, l), t, l); Inv(s2) && (Ordered(s) ==> Ordered(s2))
  {
    DisownKeeps(s, t, l);
    FinishReleaseKeeps(Disown(s, t, l), t, l);
    MovesKeep(Disown(s, t, l), FinishRelease(Disown(s, t, l), t, l));
  }

  lemma FrontWaiter(s: State, l: Lid)
    requires Inv(s) && l in s.semas && s.semas[l].waiters != []
    ensures var w := s.semas[l].waiters[0];
            w in s.threads && s.running != Some(w) && s.threads[w].pc == InDown(l) && w !in s.semas[l].waiters[1..]
  {
    assert QueueOk(s, WaitersQ(l)) && QueueOf(s, WaitersQ(l)) == s.semas[l].waiters;
    assert s.semas[l].waiters[0] in s.semas[l].waiters && WaitersOk(s, l);
  }

  // Without waiters nobody requests the lock; it is free afterwards.
  lemma HandOverAlone(s: State, t: Tid, l: Lid)
    requires Inv(s) && Settled(s) && s.running == Some(t) && Enabled(s, Disowning(l))
    requires s.semas[l].waiters == []
    ensures var s' := HandOver(s, t, l); Inv(s') && Settled(s') && (Ordered(s) ==> Ordered(s'))
  {
    ReleaseKeeps(s, t, l);
    ReleaseEffect(s, t, l);
    AloneSettled(s, HandOver(s, t, l), t, l);
  }

  lemma AloneSettled(s: State, s': State, t: Tid, l: Lid)
    requires Settled(s) && l in s.semas && s.semas[l].waiters == [] && Released(s, s', t, l)
    ensures Settled(s')
  {
    forall u | u in s'.threads ensures SettledAt(s', u) {
      assert SettledAt(s, u);
      if s.threads[u].pc.InDown? {
        var x := s.threads[u].pc.sema;
        assert x in s'.locks.Keys <==> x in s.locks.Keys;
      }
    }
  }

  // With waiters, the one at the front is the one to take the lock.
  lemma NextIsTop(s: State, s3: State, t: Tid, l: Lid)
    requires Inv(s) && Settled(s) && l in s.locks && s.semas[l].waiters != [] && s.running == Some(t)
    requires s.threads[t].pc == Free && Released(s, s3, t, l)
    ensures TopRequester(s3, s.semas[l].waiters[0], l)
  {
    var w := s.semas[l].waiters[0];
    FrontWaiter(s, l);
    forall u | u in Requesters(s3, l) && u != w ensures EPri(s3.threads, u) <= EPri(s3.threads, w) {
      assert u in Requesters(s, l) && PcOk(s, u) && PcOk(s, t);
      FrontIsTop(s, l, u);
    }
  }

  lemma ReleasedThenMoved(s: State, s2: State, t: Tid, l: Lid)
    requires l in s.semas && Released(s, s2, t, l) && t in s2.threads
    ensures Released(s, Yield(s2, t), t, l)
  {
  }

  lemma HandOverWaiter(s: State, t: Tid, l: Lid)
    requires Inv(s) && Settled(s) && s.running == Some(t) && CoarseEnabled(s, Handing(l))
    requires s.semas[l].waiters != []
    ensures var s' := HandOver(s, t, l); Inv(s') && Settled(s') && (Ordered(s) ==> Ordered(s'))
  {
    FrontWaiter(s, l);
    ReleaseKeeps(s, t, l);
    ReleaseEffect(s, t, l);
    var s2 := FinishRelease(Disown(s, t, l), t, l);
    YieldKeeps(s2, t);
    MovesKeep(s2, Yield(s2, t));
    ReleasedThenMoved(s, s2, t, l);
    HandOverTake(s, Yield(s2, t), t, l);
  }

  lemma HandOverTake(s: State, s3: State, t: Tid, l: Lid)
    requires Inv(s) && Settled(s) && s.running == Some(t) && s.threads[t].pc == Free
    requires l in s.locks && s.semas[l].waiters != [] && Released(s, s3, t, l)
    requires Inv(s3) && s3.running == Some(s.semas[l].waiters[0])
    ensures var s' := TryFinish(s3, s.semas[l].waiters[0], l); Inv(s') && Settled(s') && (Ordered(s3) ==> Ordered(s'))
  {
    var w := s.semas[l].waiters[0];
    FrontWaiter(s, l);
    AtTestFromInv(s3, w, l);
    TakeKeeps(s3, w, l);
    NextIsTop(s, s3, t, l);
    HandOverSettles(s, s3, t, l);
  }

  lemma HandOverSettles(s: State, s3: State, t: Tid, l: Lid)
    requires Settled(s) && l in s.locks && l in s.semas && s.semas[l].waiters != [] && Released(s, s3, t, l)
    requires s.semas[l].waiters[0] in s.threads
    ensures Settled(TryFinish(s3, s.semas[l].waiters[0], l))
  {
    var w := s.semas[l].waiters[0];
    var s' := TryFinish(s3, w, l);
    forall u | u in s'.threads ensures SettledAt(s', u) {
      assert SettledAt(s, u);
      assert s.semas[l].waiters == [w] + s.semas[l].waiters[1..];
      if s.threads[u].pc.InDown? {
        var x := s.threads[u].pc.sema;
        assert x in s'.locks.Keys <==> x in s.locks.Keys;
      }
    }
  }

  // ---- whole runs ----

  ghost predicate CoarseStep(s: State, c: Coarse, s': State) { CoarseEnabled(s, c) && CoarseApply(s, c) == Done(s') }

  ghost predicate IsHandOffRun(ss: seq<State>, cs: seq<Coarse>) {
    && |ss| == |cs| + 1 && Initial(ss[0])
    && forall i :: 0 <= i < |cs| ==> CoarseStep(ss[i], cs[i], ss[i + 1])
  }

  // The step asks for no lock in vain where the 8-bit state has wrapped.
  ghost predicate CoarseHeard(s: State, c: Coarse) {
    c.Plain? && c.a.Acquiring? && Enabled(s, c.a) ==> Heard(s, c.a.l)
  }

  /** No step of a hand-off run panics; the order survives exactly the steps that are heard. */
  lemma CoarseKeeps(s: State, c: Coarse)
    requires Inv(s) && Settled(s) && CoarseEnabled(s, c)
    ensures CoarseApply(s, c).Done?
    ensures var s' := CoarseApply(s, c).s;
            Inv(s') && Settled(s') && (Ordered(s) ==> (Ordered(s') <==> CoarseHeard(s, c)))
  {
    match c
    case Plain(a) =>
      PlainSettled(s, a);
      SettledFair(s, a);
      StepKeeps(s, a);
      if Ordered(s) { StepOrderedIff(s, a); }
    case Handing(l) =>
      var t := s.running.value;
      if s.semas[l].waiters == [] {
        HandOverAlone(s, t, l);
      } else {
        HandOverWaiter(s, t, l);
      }
  }

  /** In every state of every hand-off run every requested lock is held, and no next step panics. */
  lemma {:induction false} HandOffRunSafe(ss: seq<State>, cs: seq<Coarse>, n: nat)
    requires IsHandOffRun(ss, cs) && n < |ss|
    ensures Inv(ss[n]) && Settled(ss[n])
    ensures forall t, l :: t in Requesters(ss[n], l) && l in ss[n].locks ==> ss[n].locks[l].holder.Some?
    ensures forall c :: CoarseEnabled(ss[n], c) ==> CoarseApply(ss[n], c).Done?
  {
    var s := ss[n];
    if n == 0 {
      InitialInv(s);
      assert SettledAt(s, s.running.value);
    } else {
      HandOffRunSafe(ss, cs, n - 1);
      assert CoarseStep(ss[n - 1], cs[n - 1], s);
      CoarseKeeps(ss[n - 1], cs[n - 1]);
    }
    SafeNow(s);
  }

  lemma SafeNow(s: State)
    requires Inv(s) && Settled(s)
    ensures forall t, l :: t in Requesters(s, l) && l in s.locks ==> s.locks[l].holder.Some?
    ensures forall c :: CoarseEnabled(s, c) ==> CoarseApply(s, c).Done?
  {
    forall t, l | t in Requesters(s, l) && l in s.locks ensures s.locks[l].holder.Some? { SettledHeld(s, t); }
    hide Inv, Settled, CoarseApply, CoarseEnabled;
    forall c | CoarseEnabled(s, c) ensures CoarseApply(s, c).Done? { CoarseKeeps(s, c); }
  }

  ghost predicate HeardUpTo(ss: seq<State>, cs: seq<Coarse>, n: nat)
    requires n <= |cs| <= |ss|
  {
    forall i :: 0 <= i < n ==> CoarseHeard(ss[i], cs[i])
  }

  /** A hand-off run keeps the donation order in all its states if and only if every acquire in it
      is heard. */
  lemma {:induction false} HandOffRunOrderedIff(ss: seq<State>, cs: seq<Coarse>, n: nat)
    requires IsHandOffRun(ss, cs) && n < |ss|
    ensures OrderedUpTo(ss, n) <==> HeardUpTo(ss, cs, n)
  {
    if n == 0 {
      InitialInv(ss[0]);
    } else {
      HandOffRunOrderedIff(ss, cs, n - 1);
      HandOffOrderedStep(ss, cs, n);
      hide *;
      UpToNext(ss, cs, n);
    }
  }

  lemma HandOffOrderedStep(ss: seq<State>, cs: seq<Coarse>, n: nat)
    requires IsHandOffRun(ss, cs) && 0 < n < |ss|
    ensures Ordered(ss[n - 1]) ==> (Ordered(ss[n]) <==> CoarseHeard(ss[n - 1], cs[n - 1]))
  {
    hide Inv, Settled, Ordered, CoarseHeard, CoarseApply, CoarseEnabled;
    HandOffRunSafe(ss, cs, n - 1);
    assert CoarseStep(ss[n - 1], cs[n - 1], ss[n]);
    CoarseKeeps(ss[n - 1], cs[n - 1]);
  }

  lemma UpToNext(ss: seq<State>, cs: seq<Coarse>, n: nat)
    requires 0 < n <= |cs| < |ss|
    ensures OrderedUpTo(ss, n) <==> OrderedUpTo(ss, n - 1) && Ordered(ss[n])
    ensures OrderedUpTo(ss, n - 1) ==> Ordered(ss[n - 1])
    ensures HeardUpTo(ss, cs, n) <==> HeardUpTo(ss, cs, n - 1) && CoarseHeard(ss[n - 1], cs[n - 1])
  {
    hide Ordered, CoarseHeard;
  }

  /** In a hand-off run whose acquires are heard, each requester runs at most at its lock's priority
      and its lock at most at its holder's, and nobody on a chain of any length waits for a lower
      thread. */
  lemma HandOffRunOrdered(ss: seq<State>, cs: seq<Coarse>, n: nat)
    requires IsHandOffRun(ss, cs) && n < |ss| && HeardUpTo(ss, cs, n)
    ensures forall t, l :: t in Requesters(ss[n], l) && l in ss[n].locks ==>
              ss[n].locks[l].holder.Some? && EPri(ss[n].threads, t) <= ss[n].locks[l].pri
              && ss[n].locks[l].pri <= EPri(ss[n].threads, ss[n].locks[l].holder.value)
    ensures forall ts: seq<Tid> :: Chain(ss[n], ts) ==> EPri(ss[n].threads, ts[0]) <= EPri(ss[n].threads, ts[|ts| - 1])
  {
    HandOffRunSafe(ss, cs, n);
    HandOffRunOrderedIff(ss, cs, n);
    assert Ordered(ss[n]);
    hide IsHandOffRun, HeardUpTo;
    HandOffStateFacts(ss[n]);
  }

  lemma HandOffStateFacts(s: State)
    requires Inv(s) && Settled(s) && Ordered(s)
    ensures forall t, l :: t in Requesters(s, l) && l in s.locks ==>
              s.locks[l].holder.Some? && EPri(s.threads, t) <= s.locks[l].pri
              && s.locks[l].pri <= EPri(s.threads, s.locks[l].holder.value)
    ensures forall ts: seq<Tid> :: Chain(s, ts) ==> EPri(s.threads, ts[0]) <= EPri(s.threads, ts[|ts| - 1])
  {
    forall t, l | t in Requesters(s, l) && l in s.locks
      ensures s.locks[l].holder.Some? && EPri(s.threads, t) <= s.locks[l].pri
      ensures s.locks[l].pri <= EPri(s.threads, s.locks[l].holder.value)
    {
      assert SettledAt(s, t) && PcOk(s, t) && EdgeOk(s, t);
      HeldBelowHolder(s, s.locks[l].holder.value, l);
    }
    forall ts: seq<Tid> | Chain(s, ts) ensures EPri(s.threads, ts[0]) <= EPri(s.threads, ts[|ts| - 1]) {
      NoInversionOnChain(s, ts);
    }
  }
}
