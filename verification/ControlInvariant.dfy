/** Who requests, holds or is releasing each lock, and who sleeps on each semaphore. */
module ControlInvariant {
  import opened Queues
  import opened KernelState

  ghost function Requesters(s: State, l: Lid): set<Tid> {
    set t | t in s.threads && s.threads[t].donatedFor == Some(l)
  }

  ghost function Releasers(s: State, l: Lid): set<Tid> {
    set t | t in s.threads && s.threads[t].pc == Releasing(l)
  }

  // Threads taken off the waiters of x that have not tested its value again.
  ghost function Popped(s: State, x: Sid): set<Tid> {
    set t | t in s.threads && s.threads[t].pc == InDown(x) && t !in Sm(s, x).waiters
  }

  function Held(lk: Lock): nat { if lk.holder.Some? then 1 else 0 }

  // What a thread inside `sema_down` on x donates for.
  function DonatesFor(s: State, x: Sid): Option<Lid> { if x in s.locks then Some(x) else None }

  ghost predicate PcOk(s: State, t: Tid)
    requires t in s.threads
  {
    match s.threads[t].pc
    case Free => s.threads[t].donatedFor == None
    case InDown(x) => x in s.semas && s.threads[t].donatedFor == DonatesFor(s, x)
    case Releasing(l) => l in s.locks && s.threads[t].donatedFor == None
  }

  ghost predicate WaitersOk(s: State, x: Sid)
    requires x in s.semas
  {
    forall t :: t in s.semas[x].waiters ==> t in s.threads && s.threads[t].pc == InDown(x)
  }

  // `state` counts the holder and the requesters; the value, the holder and a thread in the
  // middle of its release add up to one.
  ghost predicate LockCounts(s: State, l: Lid)
    requires l in s.locks
  {
    && s.locks[l].state == Wrap8(1 - Held(s.locks[l]) - |Requesters(s, l)|)
    && Sm(s, l).value + Held(s.locks[l]) + |Releasers(s, l)| == 1
  }

  // No more value than threads on their way to take it, as long as somebody sleeps.
  ghost predicate NoStrand(s: State, x: Sid)
    requires x in s.semas
  {
    s.semas[x].waiters != [] ==> s.semas[x].value <= |Popped(s, x)|
  }

  ghost predicate ControlBut(s: State, t: Tid) {
    && (forall l :: l in s.locks ==> l in s.semas)
    && (forall u :: u in s.threads && u != t ==> PcOk(s, u))
    && (forall x :: x in s.semas ==> WaitersOk(s, x) && NoStrand(s, x))
    && (forall l :: l in s.locks ==> LockCounts(s, l))
  }

  ghost predicate ControlInv(s: State) {
    && (forall l :: l in s.locks ==> l in s.semas)
    && (forall u :: u in s.threads ==> PcOk(s, u))
    && (forall x :: x in s.semas ==> WaitersOk(s, x) && NoStrand(s, x))
    && (forall l :: l in s.locks ==> LockCounts(s, l))
  }

  // Popped depends on the place in the code of each thread and on the members of the waiter list.
  lemma SamePopped(s: State, s': State, x: Sid)
    requires s'.threads.Keys == s.threads.Keys
    requires forall t :: t in s.threads ==> (s'.threads[t].pc == InDown(x) <==> s.threads[t].pc == InDown(x))
    requires forall t :: t in Sm(s', x).waiters <==> t in Sm(s, x).waiters
    ensures Popped(s', x) == Popped(s, x)
  {
    forall t ensures t in Popped(s', x) <==> t in Popped(s, x) {
      assert t in s'.threads <==> t in s.threads;
    }
  }

  lemma SameClaims(s: State, s': State, l: Lid)
    requires s'.threads.Keys == s.threads.Keys
    requires forall t :: t in s.threads ==> (s'.threads[t].pc == Releasing(l) <==> s.threads[t].pc == Releasing(l))
    requires forall t :: t in s.threads ==> (s'.threads[t].donatedFor == Some(l) <==> s.threads[t].donatedFor == Some(l))
    ensures Requesters(s', l) == Requesters(s, l) && Releasers(s', l) == Releasers(s, l)
  {
    forall t ensures t in Requesters(s', l) <==> t in Requesters(s, l) {
      assert t in s'.threads <==> t in s.threads;
    }
    forall t ensures t in Releasers(s', l) <==> t in Releasers(s, l) {
      assert t in s'.threads <==> t in s.threads;
    }
  }

  // Steps that change neither values, holders, lock states, nor anybody's place in the code.
  lemma FrameControl(s: State, s': State)
    requires s'.threads.Keys == s.threads.Keys && s'.locks.Keys == s.locks.Keys && s'.semas.Keys == s.semas.Keys
    requires forall t :: t in s.threads ==>
               s'.threads[t].pc == s.threads[t].pc && s'.threads[t].donatedFor == s.threads[t].donatedFor
    requires forall l :: l in s.locks ==>
               s'.locks[l].holder == s.locks[l].holder && s'.locks[l].state == s.locks[l].state
    requires forall x :: x in s.semas ==>
               s'.semas[x].value == s.semas[x].value && multiset(s'.semas[x].waiters) == multiset(s.semas[x].waiters)
    ensures forall l :: Requesters(s', l) == Requesters(s, l)
    ensures ControlInv(s) ==> ControlInv(s')
    ensures forall t :: ControlBut(s, t) ==> ControlBut(s', t)
  {
    forall l ensures Requesters(s', l) == Requesters(s, l) && Releasers(s', l) == Releasers(s, l) {
      SameClaims(s, s', l);
    }
    forall x | x in s.semas
      ensures Popped(s', x) == Popped(s, x)
      ensures WaitersOk(s, x) && NoStrand(s, x) ==> WaitersOk(s', x) && NoStrand(s', x)
    {
      SameMembers(s.semas[x].waiters, s'.semas[x].waiters);
      SamePopped(s, s', x);
    }
    forall l | l in s.locks && l in s.semas && LockCounts(s, l) ensures LockCounts(s', l) {}
    forall u | u in s.threads && PcOk(s, u) ensures PcOk(s', u) {}
    forall t | ControlBut(s, t) ensures ControlBut(s', t) {}
  }

  lemma SameMembers<T>(a: seq<T>, b: seq<T>)
    requires multiset(a) == multiset(b)
    ensures |a| == |b| && forall y :: y in a <==> y in b
  {
    assert |multiset(a)| == |a| && |multiset(b)| == |b|;
    assert forall y :: y in a <==> y in multiset(a);
  }

  // ---- the end of an acquisition, and going to sleep ----

  // The running thread t stands at the test of the `sema_down` loop on x.
  ghost predicate AtTest(s: State, t: Tid, x: Sid) {
    && ControlBut(s, t) && t in s.threads && x in s.semas
    && (s.threads[t].pc == Free || s.threads[t].pc == InDown(x))
    && s.threads[t].donatedFor == DonatesFor(s, x)
    && (forall y :: y in s.semas ==> t !in s.semas[y].waiters)
  }

  lemma SleepControl(s: State, t: Tid, x: Sid)
    requires AtTest(s, t, x) && s.semas[x].value == 0
    ensures ControlInv(Sleep(s, t, x))
  {
    var s' := Sleep(s, t, x);
    var ws := InsertThread(s.threads, s.semas[x].waiters, t);
    InsertIn(s.semas[x].waiters, t, ThreadBefore(s.threads));
    SleepControlAux(s, s', t, x, ws);
  }

  lemma SleepControlAux(s: State, s': State, t: Tid, x: Sid, ws: seq<Tid>)
    requires AtTest(s, t, x) && s.semas[x].value == 0
    requires forall u :: u in ws <==> u in s.semas[x].waiters || u == t
    requires s'.locks == s.locks && s'.semas == s.semas[x := s.semas[x].(waiters := ws)]
    requires s'.threads == s.threads[t := s.threads[t].(queue := Some(WaitersQ(x)), pc := InDown(x))]
    ensures ControlInv(s')
  {
    assert WaitersOk(s, x);
    forall y | y in s'.semas && y != x ensures WaitersOk(s', y) && NoStrand(s', y) {
      assert WaitersOk(s, y) && NoStrand(s, y);
      SamePopped(s, s', y);
    }
    forall l | l in s'.locks ensures LockCounts(s', l) {
      assert LockCounts(s, l);
      SameClaims(s, s', l);
    }
    forall u | u in s'.threads ensures PcOk(s', u) { if u != t { assert PcOk(s, u); } }
  }

  // A successful test takes one from the value; t is no longer among the popped.
  lemma PoppedAfterTake(s: State, s': State, t: Tid, x: Sid, y: Sid)
    requires AtTest(s, t, x) && s'.threads.Keys == s.threads.Keys && y in s.semas && s'.semas.Keys == s.semas.Keys
    requires s'.threads[t].pc == Free && s'.semas[y].waiters == s.semas[y].waiters
    requires forall u :: u in s.threads && u != t ==> s'.threads[u].pc == s.threads[u].pc
    ensures WaitersOk(s', y)
    ensures |Popped(s', y)| >= |Popped(s, y)| - (if y == x then 1 else 0)
  {
    assert WaitersOk(s, y);
    if y == x && t in Popped(s, x) {
      assert Popped(s', y) == Popped(s, y) - {t} by { forall u ensures u in Popped(s', y) <==> u in Popped(s, y) - {t} {} }
    } else if y != x {
      SamePopped(s, s', y);
    } else {
      assert Popped(s', y) == Popped(s, y) by { forall u ensures u in Popped(s', y) <==> u in Popped(s, y) {} }
    }
  }

  lemma TakeControl(s: State, t: Tid, x: Sid)
    requires AtTest(s, t, x) && s.semas[x].value > 0
    ensures x in s.locks ==> s.locks[x].holder == None && Releasers(s, x) == {}
    ensures ControlInv(TryFinish(s, t, x))
  {
    if x in s.locks { assert LockCounts(s, x); }
    var s' := TryFinish(s, t, x);
    forall y | y in s'.semas ensures WaitersOk(s', y) && NoStrand(s', y) {
      assert NoStrand(s, y);
      PoppedAfterTake(s, s', t, x, y);
    }
    forall l | l in s'.locks ensures LockCounts(s', l) { TakeCounts(s, t, x, l); }
    forall u | u in s'.threads ensures PcOk(s', u) { if u != t { assert PcOk(s, u); } }
  }

  lemma TakeCounts(s: State, t: Tid, x: Sid, l: Lid)
    requires AtTest(s, t, x) && s.semas[x].value > 0 && l in s.locks
    ensures LockCounts(TryFinish(s, t, x), l)
  {
    var s' := TryFinish(s, t, x);
    assert LockCounts(s, l);
    TakeClaims(s, t, x, l, s');
    hide Wrap8, Requesters, Releasers, AtTest;
    if l == x { assert 1 - Held(s'.locks[l]) - |Requesters(s', l)| == 1 - Held(s.locks[l]) - |Requesters(s, l)|; }
  }

  lemma TakeClaims(s: State, t: Tid, x: Sid, l: Lid, s': State)
    requires AtTest(s, t, x) && s.semas[x].value > 0 && l in s.locks && s' == TryFinish(s, t, x)
    ensures Releasers(s', l) == Releasers(s, l)
    ensures |Requesters(s', l)| == |Requesters(s, l)| - if l == x then 1 else 0
  {
    assert s'.threads == s.threads[t := s'.threads[t]];
    assert l == x ==> s.threads[t].donatedFor == Some(l) && s'.threads[t].donatedFor == None;
    assert l != x ==> s.threads[t].donatedFor != Some(l) && s'.threads[t].donatedFor != Some(l);
    assert !s.threads[t].pc.Releasing? && !s'.threads[t].pc.Releasing?;
    hide AtTest, TryFinish;
    ClaimsBut(s, s', t, l);
  }

  // Only t changes: the claims are the same but for t's own.
  lemma ClaimsBut(s: State, s': State, t: Tid, l: Lid)
    requires t in s.threads && t in s'.threads && s'.threads == s.threads[t := s'.threads[t]]
    ensures t in Requesters(s, l) <==> s.threads[t].donatedFor == Some(l)
    ensures Requesters(s', l) == if s'.threads[t].donatedFor == Some(l) then Requesters(s, l) + {t} else Requesters(s, l) - {t}
    ensures t in Releasers(s, l) <==> s.threads[t].pc == Releasing(l)
    ensures Releasers(s', l) == if s'.threads[t].pc == Releasing(l) then Releasers(s, l) + {t} else Releasers(s, l) - {t}
  {
  }

  lemma TryAcquireControl(s: State, t: Tid, l: Lid)
    requires ControlInv(s) && l in s.locks && t in s.threads && s.threads[t].pc == Free
    ensures s.semas[l].value > 0 ==> s.locks[l].holder == None
    ensures ControlInv(TryAcquire(s, t, l))
  {
    assert LockCounts(s, l) && PcOk(s, t);
    if s.semas[l].value == 0 { return; }
    var s' := TryAcquire(s, t, l);
    forall y | y in s'.semas ensures WaitersOk(s', y) && NoStrand(s', y) {
      assert WaitersOk(s, y) && NoStrand(s, y);
      SamePopped(s, s', y);
    }
    forall m | m in s'.locks ensures LockCounts(s', m) { TryAcquireCounts(s, t, l, m); }
    forall u | u in s'.threads ensures PcOk(s', u) { assert PcOk(s, u); }
  }

  lemma TryAcquireCounts(s: State, t: Tid, l: Lid, m: Lid)
    requires l in s.locks && m in s.locks && LockCounts(s, m) && Sm(s, l).value > 0 && s.locks[l].holder == None
    requires t in s.threads && s.threads[t].pc == Free && s.threads[t].donatedFor == None
    ensures m in TryAcquire(s, t, l).locks && LockCounts(TryAcquire(s, t, l), m)
  {
    hide TryAcquire, LockCounts, Wrap8, Requesters, Releasers, Sm;
    var s' := TryAcquire(s, t, l);
    TryAcquireFields(s, t, l, m, s');
    ClaimsBut(s, s', t, m);
    SameCounts(s, s', m, if m == l then 1 else 0);
  }

  // LockCounts when the claims stay and k is taken from state and value and given to the holder.
  lemma SameCounts(s: State, s': State, m: Lid, k: nat)
    requires m in s.locks && m in s'.locks && LockCounts(s, m) && k <= 1
    requires Requesters(s', m) == Requesters(s, m) && Releasers(s', m) == Releasers(s, m)
    requires Held(s'.locks[m]) == Held(s.locks[m]) + k && Sm(s', m).value == Sm(s, m).value - k
    requires s'.locks[m].state == if k == 0 then s.locks[m].state else Wrap8(s.locks[m].state - 1)
    ensures LockCounts(s', m)
  {
    hide Wrap8;
    WrapStep(1 - Held(s.locks[m]) - |Requesters(s, m)|);
  }

  lemma TryAcquireFields(s: State, t: Tid, l: Lid, m: Lid, s': State)
    requires l in s.locks && m in s.locks && t in s.threads && Sm(s, l).value > 0 && s' == TryAcquire(s, t, l)
    ensures t in s'.threads && s'.threads == s.threads[t := s'.threads[t]]
    ensures s'.threads[t].donatedFor == None && s'.threads[t].pc == Free && m in s'.locks
    ensures m != l ==> s'.locks[m] == s.locks[m] && Sm(s', m) == Sm(s, m)
    ensures m == l ==> s'.locks[l].holder == Some(t) && s'.locks[l].state == Wrap8(s.locks[l].state - 1)
    ensures m == l ==> Sm(s', l).value == Sm(s, l).value - 1
  {
  }

  // One less or more, wrapped before or after.
  lemma WrapStep(n: int)
    ensures Wrap8(Wrap8(n) - 1) == Wrap8(n - 1) && Wrap8(Wrap8(n) + 1) == Wrap8(n + 1)
  {
  }

  // ---- requesting and releasing ----

  // The first three lines of the region of `lock_acquire`.
  function Request(s: State, t: Tid, l: Lid): State {
    PutTh(PutLk(s, l, Lk(s, l).(state := Wrap8(Lk(s, l).state - 1))), t, Th(s, t).(donatedFor := Some(l)))
  }

  lemma RequestControl(s: State, t: Tid, l: Lid)
    requires ControlInv(s) && t in s.threads && s.threads[t].pc == Free && l in s.locks
    ensures AtTest(Request(s, t, l), t, l)
    ensures Requesters(Request(s, t, l), l) == Requesters(s, l) + {t}
    ensures t !in Requesters(s, l)
  {
    var s' := Request(s, t, l);
    assert PcOk(s, t);
    forall y | y in s'.semas ensures WaitersOk(s', y) && NoStrand(s', y) && t !in s'.semas[y].waiters {
      assert WaitersOk(s, y) && NoStrand(s, y);
      SamePopped(s, s', y);
    }
    RequestCounts(s, t, l);
    forall u | u in s'.threads && u != t ensures PcOk(s', u) { assert PcOk(s, u); }
  }

  lemma RequestCounts(s: State, t: Tid, l: Lid)
    requires t in s.threads && s.threads[t].donatedFor == None && l in s.locks
    requires forall m :: m in s.locks ==> LockCounts(s, m)
    ensures forall m :: m in s.locks ==> LockCounts(Request(s, t, l), m)
    ensures Requesters(Request(s, t, l), l) == Requesters(s, l) + {t}
  {
    RequestCounted(s, t, l);
    forall m | m in s.locks && m != l ensures LockCounts(Request(s, t, l), m) {
      assert LockCounts(s, m);
      SameClaims(s, Request(s, t, l), m);
    }
  }

  lemma RequestCounted(s: State, t: Tid, l: Lid)
    requires t in s.threads && s.threads[t].donatedFor == None && l in s.locks && LockCounts(s, l)
    ensures LockCounts(Request(s, t, l), l)
    ensures Requesters(Request(s, t, l), l) == Requesters(s, l) + {t}
  {
    hide Wrap8;
    ClaimsBut(s, Request(s, t, l), t, l);
    WrapStep(1 - Held(s.locks[l]) - |Requesters(s, l)|);
  }

  lemma DisownControl(s: State, t: Tid, l: Lid)
    requires ControlInv(s) && t in s.threads && s.threads[t].pc == Free && l in s.locks && s.locks[l].holder == Some(t)
    ensures ControlInv(Disown(s, t, l))
  {
    var s' := Disown(s, t, l);
    assert PcOk(s, t);
    forall y | y in s'.semas ensures WaitersOk(s', y) && NoStrand(s', y) {
      assert WaitersOk(s, y) && NoStrand(s, y);
      SamePopped(s, s', y);
    }
    forall m | m in s'.locks ensures LockCounts(s', m) { DisownCounts(s, t, l, m); }
    forall u | u in s'.threads ensures PcOk(s', u) { assert PcOk(s, u); }
  }

  lemma DisownCounts(s: State, t: Tid, l: Lid, m: Lid)
    requires t in s.threads && s.threads[t].pc == Free && s.threads[t].donatedFor == None
    requires l in s.locks && m in s.locks && s.locks[l].holder == Some(t) && LockCounts(s, m)
    ensures m in Disown(s, t, l).locks && LockCounts(Disown(s, t, l), m)
  {
    hide Disown, LockCounts, Wrap8, Requesters, Releasers, Sm;
    var s' := Disown(s, t, l);
    DisownFields(s, t, l, m, s');
    ClaimsBut(s, s', t, m);
    if m == l { ReleasedCounts(s, s', l, t); } else { SameCounts(s, s', m, 0); }
  }

  lemma DisownFields(s: State, t: Tid, l: Lid, m: Lid, s': State)
    requires l in s.locks && m in s.locks && t in s.threads && s' == Disown(s, t, l)
    ensures t in s'.threads && s'.threads == s.threads[t := s'.threads[t]]
    ensures s'.threads[t].donatedFor == s.threads[t].donatedFor && s'.threads[t].pc == Releasing(l) && m in s'.locks
    ensures Sm(s', m) == Sm(s, m) && (m != l ==> s'.locks[m] == s.locks[m])
    ensures m == l ==> s'.locks[l].holder == None && s'.locks[l].state == Wrap8(s.locks[l].state + 1)
  {
  }

  lemma ReleasedCounts(s: State, s': State, l: Lid, t: Tid)
    requires l in s.locks && l in s'.locks && LockCounts(s, l) && t !in Releasers(s, l)
    requires Requesters(s', l) == Requesters(s, l) && Releasers(s', l) == Releasers(s, l) + {t}
    requires s.locks[l].holder.Some? && s'.locks[l].holder.None? && Sm(s', l).value == Sm(s, l).value
    requires s'.locks[l].state == Wrap8(s.locks[l].state + 1)
    ensures LockCounts(s', l)
  {
    hide Wrap8;
    WrapStep(1 - Held(s.locks[l]) - |Requesters(s, l)|);
  }

  // The popped and the sleeping after `sema_up` on x.
  lemma WakePopped(s: State, x: Sid)
    requires x in s.semas && WaitersOk(s, x) && NoDup(s.semas[x].waiters) && s.semas[x].waiters != []
    ensures var w := s.semas[x].waiters[0];
            w in s.threads && Popped(Wake(s, x), x) == Popped(s, x) + {w} && w !in Popped(s, x)
    ensures WaitersOk(Wake(s, x), x)
  {
    var ws := s.semas[x].waiters;
    var w := ws[0];
    var s' := Wake(s, x);
    assert w in ws;
    CutNoDup(ws, 0);
    assert ws[..0] + ws[1..] == ws[1..] == s'.semas[x].waiters;
    forall t ensures t in Popped(s', x) <==> t in Popped(s, x) + {w} {
      assert t in ws[1..] <==> t in ws && t != w;
    }
  }

  // The requirement of `sema_up` on a lock: its value is 0, nobody holds or is releasing it.
  ghost predicate Vacant(s: State, l: Lid)
    requires l in s.locks
  {
    && s.locks[l].state == Wrap8(1 - Held(s.locks[l]) - |Requesters(s, l)|)
    && Sm(s, l).value + Held(s.locks[l]) + |Releasers(s, l)| == 0
  }

  lemma WakeControl(s: State, x: Sid)
    requires x in s.semas && NoDup(s.semas[x].waiters)
    requires forall l :: l in s.locks ==> l in s.semas
    requires forall u :: u in s.threads ==> PcOk(s, u)
    requires forall y :: y in s.semas ==> WaitersOk(s, y) && NoStrand(s, y)
    requires forall l :: l in s.locks ==> if l == x then Vacant(s, l) else LockCounts(s, l)
    ensures ControlInv(Wake(s, x))
  {
    var s' := Wake(s, x);
    assert WaitersOk(s, x) && NoStrand(s, x);
    if s.semas[x].waiters != [] { WakePopped(s, x); }
    assert WaitersOk(s', x) && NoStrand(s', x);
    WakeControlAux(s, s', x);
  }

  lemma WakeControlAux(s: State, s': State, x: Sid)
    requires x in s.semas && x in s'.semas && s'.semas == s.semas[x := s'.semas[x]] && s'.locks == s.locks
    requires s'.semas[x].value == s.semas[x].value + 1 && s'.threads.Keys == s.threads.Keys
    requires forall t :: t in s.threads ==>
               s'.threads[t].pc == s.threads[t].pc && s'.threads[t].donatedFor == s.threads[t].donatedFor
    requires forall l :: l in s.locks ==> l in s.semas
    requires forall u :: u in s.threads ==> PcOk(s, u)
    requires forall y :: y in s.semas && y != x ==> WaitersOk(s, y) && NoStrand(s, y)
    requires forall l :: l in s.locks ==> if l == x then Vacant(s, l) else LockCounts(s, l)
    requires WaitersOk(s', x) && NoStrand(s', x)
    ensures ControlInv(s')
  {
    forall y | y in s'.semas && y != x ensures WaitersOk(s', y) && NoStrand(s', y) {
      assert WaitersOk(s, y) && NoStrand(s, y);
      SamePopped(s, s', y);
    }
    forall m | m in s'.locks ensures LockCounts(s', m) {
      SameClaims(s, s', m);
    }
    forall u | u in s'.threads ensures PcOk(s', u) { assert PcOk(s, u); }
  }

  lemma FinishReleaseControl(s: State, t: Tid, l: Lid)
    requires ControlInv(s) && t in s.threads && s.threads[t].pc == Releasing(l)
    requires l in s.semas && NoDup(s.semas[l].waiters)
    ensures ControlInv(FinishRelease(s, t, l))
  {
    assert PcOk(s, t) && LockCounts(s, l);
    var s1 := PutTh(s, t, s.threads[t].(pc := Free));
    assert t in Releasers(s, l) && Releasers(s1, l) == Releasers(s, l) - {t};
    forall y | y in s1.semas ensures WaitersOk(s1, y) && NoStrand(s1, y) {
      assert WaitersOk(s, y) && NoStrand(s, y);
      SamePopped(s, s1, y);
    }
    assert Requesters(s1, l) == Requesters(s, l);
    forall m | m in s1.locks && m != l ensures LockCounts(s1, m) {
      assert LockCounts(s, m);
      SameClaims(s, s1, m);
    }
    forall u | u in s1.threads ensures PcOk(s1, u) { assert PcOk(s, u); }
    WakeControl(s1, l);
  }

  lemma CreateControl(s: State, t: Tid, p: int)
    requires ControlInv(s) && t !in s.threads
    ensures ControlInv(Create(s, t, p))
  {
    var s' := Create(s, t, p);
    forall m ensures Requesters(s', m) == Requesters(s, m) && Releasers(s', m) == Releasers(s, m) {}
    forall y | y in s'.semas ensures WaitersOk(s', y) && NoStrand(s', y) {
      assert WaitersOk(s, y) && NoStrand(s, y);
      assert Popped(s', y) == Popped(s, y) by { forall u ensures u in Popped(s', y) <==> u in Popped(s, y) {} }
    }
    forall m | m in s'.locks ensures LockCounts(s', m) { assert LockCounts(s, m); }
    forall u | u in s'.threads ensures PcOk(s', u) { if u != t { assert PcOk(s, u); } }
  }

  lemma TryDownControl(s: State, x: Sid)
    requires ControlInv(s) && x in s.semas && x !in s.locks && s.semas[x].value > 0
    ensures ControlInv(SetValue(s, x, s.semas[x].value - 1))
  {
    var s' := SetValue(s, x, s.semas[x].value - 1);
    forall y | y in s'.semas ensures WaitersOk(s', y) && NoStrand(s', y) {
      assert WaitersOk(s, y) && NoStrand(s, y);
      SamePopped(s, s', y);
    }
    forall m | m in s'.locks ensures LockCounts(s', m) {
      assert LockCounts(s, m);
      SameClaims(s, s', m);
    }
    forall u | u in s'.threads ensures PcOk(s', u) { assert PcOk(s, u); }
  }
}
