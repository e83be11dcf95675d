/** When a thread's effective priority can fall below its own base priority. */
module BaseFloor {
  import opened Queues
  import opened KernelState
  import opened QueueInvariant
  import opened LockInvariant
  import opened ControlInvariant
  import opened Donation
  import opened KernelRuns
  import opened KernelTheorems

  // Neither the thread nor any lock it holds is below the thread's base priority.
  ghost predicate FloorAt(s: State, t: Tid)
    requires t in s.threads
  {
    && s.threads[t].bPri <= s.threads[t].ePri
    && forall l :: l in s.threads[t].lockQueue ==> s.threads[t].bPri <= LPri(s.locks, l)
  }

  ghost predicate Floor(s: State) { forall t :: t in s.threads ==> FloorAt(s, t) }

  lemma MovesFloor(s: State, s': State)
    requires Floor(s) && OnlyMoves(s, s')
    ensures Floor(s')
  {
    forall t | t in s'.threads ensures FloorAt(s', t) { assert FloorAt(s, t); }
  }

  lemma RaisesFloor(s: State, s': State, p: int)
    requires Floor(s) && OnlyRaises(s, s', p)
    ensures Floor(s')
  {
    forall t | t in s'.threads ensures FloorAt(s', t) {
      assert FloorAt(s, t) && ThreadRaised(s.threads[t], s'.threads[t], p);
      SameMembers(s.threads[t].lockQueue, s'.threads[t].lockQueue);
      forall l | l in s'.threads[t].lockQueue ensures s'.threads[t].bPri <= LPri(s'.locks, l) {
        if l in s.locks { assert LockRaised(s.locks[l], s'.locks[l], p); }
      }
    }
  }

  lemma RequestFloor(s: State, t: Tid, l: Lid)
    requires Floor(s) && t in s.threads && l in s.locks
    ensures Floor(Request(s, t, l))
  {
    var s' := Request(s, t, l);
    forall u | u in s'.threads ensures FloorAt(s', u) { assert FloorAt(s, u); }
  }

  lemma OwnFloor(s: State, t: Tid, l: Lid)
    requires Floor(s) && LockInv(s) && t in s.threads && l in s.locks && s.locks[l].holder == None
    ensures Floor(Own(s, t, l))
  {
    var s' := Own(s, t, l);
    InsertIn(s.threads[t].lockQueue, l, LockBefore(s'.locks));
    forall u | u in s'.threads ensures FloorAt(s', u) { assert FloorAt(s, u) && HolderOk(s, u); }
  }

  lemma DisownFloor(s: State, t: Tid, l: Lid)
    requires Floor(s) && LockInv(s) && t in s.threads && l in s.locks && s.locks[l].holder == Some(t)
    ensures Floor(Disown(s, t, l))
  {
    var s' := Disown(s, t, l);
    assert HolderOk(s, t) && l in s.threads[t].lockQueue;
    RemoveOut(s.threads[t].lockQueue, l);
    forall u | u in s'.threads ensures FloorAt(s', u) { assert FloorAt(s, u) && HolderOk(s, u); }
  }

  lemma TryFinishFloor(s: State, t: Tid, x: Sid)
    requires Floor(s) && LockInv(s) && t in s.threads && x in s.semas
    requires x in s.locks && s.semas[x].value > 0 ==> s.locks[x].holder == None
    ensures Floor(TryFinish(s, t, x))
  {
    if s.semas[x].value == 0 {
      MovesFloor(s, Sleep(s, t, x));
    } else {
      var s1 := SetValue(s, x, s.semas[x].value - 1);
      MovesFloor(s, s1);
      if x in s.locks {
        FrameLocks(s, s1);
        OwnFloor(s1, t, x);
      } else {
        MovesFloor(s1, TryFinish(s, t, x));
      }
    }
  }

  lemma AcquireFloor(s: State, l: Lid)
    requires Inv(s) && Floor(s) && Enabled(s, Acquiring(l)) && Apply(s, Acquiring(l)).Done?
    ensures Floor(Apply(s, Acquiring(l)).s)
  {
    var t := s.running.value;
    AcquireStart(s, t, l);
    RequestFloor(s, t, l);
    assert LockCounts(s, l);
    var s2 := Request(s, t, l);
    if s2.locks[l].state < 0 && s2.locks[l].holder.Some? {
      AcquireUnfold(s, l);
      WalkAtTest(s2, t, l);
      var s3 := Walk(s2, t, l).s;
      RaisesFloor(s2, s3, EPri(s2.threads, t));
      TryFinishFloor(s3, t, l);
    } else {
      TryFinishFloor(s2, t, l);
    }
  }

  // A change of base priority does not go above any lock the thread holds.
  ghost predicate Modest(s: State, a: Action) {
    && Enabled(s, a)
    && (a.SettingPriority? ==>
          var th := s.threads[s.running.value];
          a.p == th.bPri || forall l :: l in th.lockQueue ==> a.p <= LPri(s.locks, l))
  }

  lemma SetPriorityFloor(s: State, p: int)
    requires Inv(s) && Floor(s) && Enabled(s, SettingPriority(p))
    ensures Floor(SetPriority(s, s.running.value, p)) <==> Modest(s, SettingPriority(p))
  {
    var t := s.running.value;
    var s' := SetPriority(s, t, p);
    assert FloorAt(s, t) && HolderOk(s, t);
    if Modest(s, SettingPriority(p)) {
      if s.threads[t].lockQueue != [] { assert s.threads[t].lockQueue[0] in s.threads[t].lockQueue; }
      forall u | u in s'.threads ensures FloorAt(s', u) { assert FloorAt(s, u); }
    } else {
      assert !FloorAt(s', t);
    }
  }

  lemma TryAcquireFloor(s: State, t: Tid, l: Lid)
    requires Inv(s) && Floor(s) && t in s.threads && s.threads[t].pc == Free && l in s.locks
    ensures Floor(TryAcquire(s, t, l))
  {
    TryAcquireControl(s, t, l);
    if s.semas[l].value > 0 {
      var s1 := Tried(s, l);
      TriedKeeps(s, l);
      hide Inv, Own, LockInv, QueueInv, ControlInv;
      forall u | u in s1.threads ensures FloorAt(s1, u) { assert FloorAt(s, u); }
      OwnFloor(s1, t, l);
    }
  }

  lemma CreateFloor(s: State, t: Tid, p: int)
    requires Floor(s) && t !in s.threads
    ensures Floor(Create(s, t, p))
  {
    var s' := Create(s, t, p);
    forall u | u in s'.threads ensures FloorAt(s', u) { if u != t { assert FloorAt(s, u); } }
  }

  lemma TestFloor(s: State, x: Sid)
    requires Inv(s) && Floor(s) && Runs(s)
    requires s.threads[s.running.value].pc == InDown(x) || (RunsFree(s) && x in s.semas && x !in s.locks)
    ensures Floor(TryFinish(s, s.running.value, x))
  {
    assert PcOk(s, s.running.value);
    if x in s.locks { assert LockCounts(s, x); }
    TryFinishFloor(s, s.running.value, x);
  }

  lemma OtherStepsFloor(s: State, a: Action)
    requires Inv(s) && Floor(s) && Enabled(s, a) && Apply(s, a).Done? && !a.SettingPriority?
    ensures Floor(Apply(s, a).s)
  {
    if Moving(a) {
      MovingKeeps(s, a);
      MovesFloor(s, Apply(s, a).s);
    } else if a.Acquiring? {
      AcquireFloor(s, a.l);
    } else if a.TryAcquiring? {
      TryAcquireFloor(s, s.running.value, a.l);
    } else if a.Disowning? {
      DisownFloor(s, s.running.value, a.l);
    } else if a.Downing? {
      TestFloor(s, a.x);
    } else if a.Resuming? {
      TestFloor(s, s.threads[s.running.value].pc.sema);
    } else {
      CreateFloor(s, a.t, a.p);
    }
  }

  /** Of all steps only a change of base priority can break the floor, and it does so exactly
      when it puts the base above a lock the thread holds. */
  lemma StepFloorIff(s: State, a: Action)
    requires Inv(s) && Floor(s) && Enabled(s, a) && Apply(s, a).Done?
    ensures Floor(Apply(s, a).s) <==> Modest(s, a)
  {
    if a.SettingPriority? { SetPriorityFloor(s, a.p); } else { OtherStepsFloor(s, a); }
  }

  /** Without such changes no thread ever runs below its own base priority. */
  lemma {:induction false} ModestRunFloor(ss: seq<State>, acts: seq<Action>, n: nat)
    requires IsRun(ss, acts) && n < |ss| && forall i :: 0 <= i < n ==> Modest(ss[i], acts[i])
    ensures Floor(ss[n])
  {
    if n > 0 {
      ModestRunFloor(ss, acts, n - 1);
      RunInv(ss, acts, n - 1);
      assert StepOk(ss[n - 1], acts[n - 1], ss[n]) && Modest(ss[n - 1], acts[n - 1]);
      StepFloorIff(ss[n - 1], acts[n - 1]);
    }
  }

  /** A release leaves the thread running below its base priority if and only if it goes on holding
      locks, all of them below that base. */
  lemma ReleaseBelowBaseIff(s: State, l: Lid)
    requires Inv(s) && Enabled(s, Disowning(l))
    ensures var t, s' := s.running.value, Disown(s, s.running.value, l);
            s'.threads[t].ePri < s'.threads[t].bPri <==>
              && (exists m :: m in s.threads[t].lockQueue && m != l)
              && (forall m :: m in s.threads[t].lockQueue && m != l ==> LPri(s.locks, m) < s.threads[t].bPri)
  {
    var t, s' := s.running.value, Disown(s, s.running.value, l);
    var q, rest := s.threads[t].lockQueue, s'.threads[t].lockQueue;
    assert HolderOk(s, t) && l in q;
    RemoveOut(q, l);
    DisownLocks(s, t, l);
    assert HolderOk(s', t);
    hide QueueInv, ControlInv, LockInv, Remove, HolderOk;
    assert HoldsExactly(s'.locks, t, rest);
    assert forall m :: m in rest ==> m in q && m != l && LPri(s'.locks, m) == LPri(s.locks, m);
    if rest != [] { assert rest[0] in rest; }
  }
}
