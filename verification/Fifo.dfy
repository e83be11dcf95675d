/** First come, first served: among threads of equal priority a queue keeps the order in which
    they came, over whole runs, yields, wake-ups and donations included. */
module Fifo {
  import opened Queues
  import opened KernelState
  import opened QueueInvariant
  import opened LockInvariant
  import opened ControlInvariant
  import opened Donation
  import opened KernelRuns
  import opened KernelTheorems

  ghost predicate Ahead(q: seq<Tid>, u: Tid, v: Tid) { exists i, j :: 0 <= i < j < |q| && q[i] == u && q[j] == v }

  // v is in the queue, at priority p.
  ghost predicate At(ths: map<Tid, Thread>, q: seq<Tid>, v: Tid, p: int) { v in q && EPri(ths, v) == p }

  /** Between two states of a queue: who stayed at p is ahead of whoever is at p afterwards, unless
      that one was already there at p and not behind. */
  ghost predicate Keeps(ths: map<Tid, Thread>, q: seq<Tid>, ths': map<Tid, Thread>, q': seq<Tid>, u: Tid, v: Tid, p: int) {
    && At(ths, q, u, p) && At(ths', q', u, p) && At(ths', q', v, p) && u != v && (At(ths, q, v, p) ==> Ahead(q, u, v))
    ==> Ahead(q', u, v)
  }

  ghost predicate Steady(ths: map<Tid, Thread>, q: seq<Tid>, ths': map<Tid, Thread>, q': seq<Tid>) {
    forall u, v, p :: Keeps(ths, q, ths', q', u, v, p)
  }

  ghost predicate SamePri(ths: map<Tid, Thread>, ths': map<Tid, Thread>, q: seq<Tid>) {
    forall t :: t in q ==> EPri(ths', t) == EPri(ths, t)
  }

  // ---- one operation on one queue ----

  lemma SteadySame(ths: map<Tid, Thread>, ths': map<Tid, Thread>, q: seq<Tid>)
    requires SamePri(ths, ths', q)
    ensures Steady(ths, q, ths', q)
  {
  }

  lemma CutAhead(q: seq<Tid>, k: nat, u: Tid, v: Tid)
    requires k < |q| && Ahead(q, u, v) && u != q[k] && v != q[k]
    ensures Ahead(q[..k] + q[k + 1..], u, v)
  {
    var r := q[..k] + q[k + 1..];
    var i, j :| 0 <= i < j < |q| && q[i] == u && q[j] == v;
    var i', j' := if i < k then i else i - 1, if j < k then j else j - 1;
    assert r[i'] == u && r[j'] == v;
  }

  lemma PasteAhead(q: seq<Tid>, k: nat, t: Tid, u: Tid, v: Tid)
    requires k <= |q| && Ahead(q, u, v)
    ensures Ahead(q[..k] + [t] + q[k..], u, v)
  {
    var r := q[..k] + [t] + q[k..];
    var i, j :| 0 <= i < j < |q| && q[i] == u && q[j] == v;
    var i', j' := if i < k then i else i + 1, if j < k then j else j + 1;
    assert r[i'] == u && r[j'] == v;
  }

  // A thread put into a queue is behind all of its priority that are there.
  lemma InsertAhead(ths: map<Tid, Thread>, q: seq<Tid>, t: Tid, u: Tid)
    requires Desc(ths, q) && u in q && EPri(ths, u) == EPri(ths, t)
    ensures Ahead(InsertThread(ths, q, t), u, t)
  {
    var k := InsertDesc(ths, q, t);
    var i :| 0 <= i < |q| && q[i] == u;
    var r := InsertThread(ths, q, t);
    assert r[i] == u && r[k] == t;
  }

  lemma PasteIs(ths: map<Tid, Thread>, q: seq<Tid>, t: Tid)
    ensures var k := InsertPoint(q, t, ThreadBefore(ths)); k <= |q| && InsertThread(ths, q, t) == q[..k] + [t] + q[k..]
    ensures forall v :: v in InsertThread(ths, q, t) <==> v in q || v == t
  {
    InsertIn(q, t, ThreadBefore(ths));
  }

  // Whoever else is there at p keeps its place, and t comes behind.
  lemma InsertKeeps(ths: map<Tid, Thread>, q: seq<Tid>, t: Tid, u: Tid, v: Tid)
    requires Desc(ths, q) && u in q && v in InsertThread(ths, q, t) && EPri(ths, u) == EPri(ths, v) && (v != t ==> Ahead(q, u, v))
    ensures Ahead(InsertThread(ths, q, t), u, v)
  {
    PasteIs(ths, q, t);
    hide InsertThread, InsertPoint;
    if v == t { InsertAhead(ths, q, t, u); } else { PasteAhead(q, InsertPoint(q, t, ThreadBefore(ths)), t, u, v); }
  }

  lemma SteadyInsert(ths: map<Tid, Thread>, ths': map<Tid, Thread>, q: seq<Tid>, t: Tid)
    requires Desc(ths', q) && SamePri(ths, ths', q) && t !in q
    ensures Steady(ths, q, ths', InsertThread(ths', q, t))
  {
    var q' := InsertThread(ths', q, t);
    PasteIs(ths', q, t);
    hide InsertThread, InsertPoint, Ahead, Desc;
    forall u, v, p ensures Keeps(ths, q, ths', q', u, v, p) {
      if At(ths, q, u, p) && At(ths', q', v, p) && u != v && (At(ths, q, v, p) ==> Ahead(q, u, v)) {
        InsertKeeps(ths', q, t, u, v);
      }
    }
  }

  lemma SteadyPop(ths: map<Tid, Thread>, ths': map<Tid, Thread>, q: seq<Tid>)
    requires q != [] && NoDup(q) && SamePri(ths, ths', q)
    ensures Steady(ths, q, ths', q[1..])
  {
    assert q[..0] + q[1..] == q[1..];
    forall u, v, p | At(ths', q[1..], u, p) && At(ths', q[1..], v, p) && (At(ths, q, v, p) ==> Ahead(q, u, v)) ensures Ahead(q[1..], u, v) {
      CutAhead(q, 0, u, v);
    }
  }

  // Without t, u is ahead of v as before.
  lemma RemovedAhead(q: seq<Tid>, t: Tid, u: Tid, v: Tid)
    requires t in q && Ahead(q, u, v) && u != t && v != t
    ensures Ahead(Remove(q, t), u, v)
  {
    var k := RemoveSplits(q, t);
    CutAhead(q, k, u, v);
  }

  // A thread raised in its queue comes behind all that were at its new priority.
  lemma RaiseKeeps(ths: map<Tid, Thread>, ths': map<Tid, Thread>, q: seq<Tid>, q1: seq<Tid>, t: Tid, u: Tid, v: Tid, p: int)
    requires t in q && EPri(ths, t) != EPri(ths', t) && q1 == Remove(q, t) && SamePri(ths, ths', q1) && Desc(ths', q1)
    requires forall x :: x in q1 <==> x in q && x != t
    ensures Keeps(ths, q, ths', InsertThread(ths', q1, t), u, v, p)
  {
    var q' := InsertThread(ths', q1, t);
    PasteIs(ths', q1, t);
    hide InsertThread, InsertPoint, Ahead, Desc, Remove;
    if At(ths, q, u, p) && At(ths', q', u, p) && At(ths', q', v, p) && u != v && (At(ths, q, v, p) ==> Ahead(q, u, v)) {
      assert u != t;
      if v != t { RemovedAhead(q, t, u, v); }
      InsertKeeps(ths', q1, t, u, v);
    }
  }

  lemma SteadyRaise(ths: map<Tid, Thread>, ths': map<Tid, Thread>, q: seq<Tid>, t: Tid)
    requires NoDup(q) && t in q && EPri(ths, t) != EPri(ths', t) && SamePri(ths, ths', Remove(q, t)) && Desc(ths', Remove(q, t))
    ensures Steady(ths, q, ths', InsertThread(ths', Remove(q, t), t))
  {
    RemoveOut(q, t);
    hide *;
    forall u, v, p ensures Keeps(ths, q, ths', InsertThread(ths', Remove(q, t), t), u, v, p) {
      RaiseKeeps(ths, ths', q, Remove(q, t), t, u, v, p);
    }
    SteadyFrom(ths, q, ths', InsertThread(ths', Remove(q, t), t));
  }

  lemma SteadyFrom(ths: map<Tid, Thread>, q: seq<Tid>, ths': map<Tid, Thread>, q': seq<Tid>)
    requires forall u, v, p :: Keeps(ths, q, ths', q', u, v, p)
    ensures Steady(ths, q, ths', q')
  {
  }

  // Two operations after each other, if who is there before and after is there in between.
  lemma SteadyTrans(ths: map<Tid, Thread>, q: seq<Tid>, ths1: map<Tid, Thread>, q1: seq<Tid>, ths2: map<Tid, Thread>, q2: seq<Tid>)
    requires Steady(ths, q, ths1, q1) && Steady(ths1, q1, ths2, q2)
    requires forall u, p :: At(ths, q, u, p) && At(ths2, q2, u, p) ==> At(ths1, q1, u, p)
    ensures Steady(ths, q, ths2, q2)
  {
    forall u, v, p ensures Keeps(ths, q, ths2, q2, u, v, p) {
      assert Keeps(ths, q, ths1, q1, u, v, p) && Keeps(ths1, q1, ths2, q2, u, v, p);
    }
  }

  // ---- the steps of the kernel ----

  ghost predicate SteadyStep(s: State, s': State) {
    forall q :: Steady(s.threads, QueueOf(s, q), s'.threads, QueueOf(s', q))
  }

  // Steps that touch no queue and no priority of a thread in one.
  lemma QuietSteady(s: State, s': State)
    requires forall q :: QueueOf(s', q) == QueueOf(s, q) && SamePri(s.threads, s'.threads, QueueOf(s, q))
    ensures SteadyStep(s, s')
  {
    forall q ensures Steady(s.threads, QueueOf(s, q), s'.threads, QueueOf(s', q)) {
      assert QueueOf(s', q) == QueueOf(s, q);
      SteadySame(s.threads, s'.threads, QueueOf(s, q));
    }
  }

  // The running thread is in no queue, so what changes about it alone is quiet.
  lemma RunningQuiet(s: State, s': State, t: Tid)
    requires QueueInv(s) && s.running == Some(t) && s'.ready == s.ready && t in s'.threads
    requires s'.threads == s.threads[t := s'.threads[t]]
    requires forall x :: Sm(s', x).waiters == Sm(s, x).waiters
    ensures SteadyStep(s, s')
  {
    forall q ensures QueueOf(s', q) == QueueOf(s, q) && SamePri(s.threads, s'.threads, QueueOf(s, q)) {
      assert QueueOk(s, q);
    }
    QuietSteady(s, s');
  }

  lemma ScheduleSteady(s: State)
    requires NoDup(s.ready)
    ensures SteadyStep(s, Schedule(s))
  {
    var s' := Schedule(s);
    forall q ensures Steady(s.threads, QueueOf(s, q), s'.threads, QueueOf(s', q)) {
      if q == ReadyQ && s.ready != [] { SteadyPop(s.threads, s'.threads, s.ready); } else { SteadySame(s.threads, s'.threads, QueueOf(s, q)); }
    }
  }

  // t is inserted into the ready list.
  lemma EnqueueSteady(s: State, t: Tid)
    requires t !in s.ready && t in s.threads && Desc(s.threads, s.ready)
    ensures SteadyStep(s, Enqueue(s, t))
  {
    var s' := Enqueue(s, t);
    DescFrame(s.threads, s'.threads, s.ready);
    forall q ensures Steady(s.threads, QueueOf(s, q), s'.threads, QueueOf(s', q)) {
      if q == ReadyQ {
        SteadyInsert(s.threads, s'.threads, s.ready, t);
      } else {
        assert QueueOf(s', q) == QueueOf(s, q);
        SteadySame(s.threads, s'.threads, QueueOf(s, q));
      }
    }
  }

  // Two steps in a row, the first of which takes nobody out of a queue and lowers nobody.
  lemma StepsTrans(s: State, s1: State, s2: State)
    requires SteadyStep(s, s1) && SteadyStep(s1, s2)
    requires forall q, u, p :: At(s.threads, QueueOf(s, q), u, p) && At(s2.threads, QueueOf(s2, q), u, p) ==> At(s1.threads, QueueOf(s1, q), u, p)
    ensures SteadyStep(s, s2)
  {
    forall q ensures Steady(s.threads, QueueOf(s, q), s2.threads, QueueOf(s2, q)) {
      assert Steady(s.threads, QueueOf(s, q), s1.threads, QueueOf(s1, q)) && Steady(s1.threads, QueueOf(s1, q), s2.threads, QueueOf(s2, q));
      SteadyTrans(s.threads, QueueOf(s, q), s1.threads, QueueOf(s1, q), s2.threads, QueueOf(s2, q));
    }
  }

  lemma YieldSteady(s: State, t: Tid)
    requires QueueInv(s) && s.running == Some(t)
    ensures SteadyStep(s, Yield(s, t))
  {
    assert QueueOk(s, ReadyQ) && QueueOf(s, ReadyQ) == s.ready;
    var s1 := Enqueue(s, t);
    EnqueueSteady(s, t);
    InsertIn(s.ready, t, ThreadBefore(s1.threads));
    ScheduleSteady(s1);
    EnqueueKeepsAt(s, t);
    hide QueueInv, SteadyStep, Enqueue, Schedule;
    forall q, u, p | At(s.threads, QueueOf(s, q), u, p) ensures At(s1.threads, QueueOf(s1, q), u, p) { }
    StepsTrans(s, s1, Schedule(s1));
  }

  lemma EnqueueKeepsAt(s: State, t: Tid)
    requires t in s.threads
    ensures forall q, u, p :: At(s.threads, QueueOf(s, q), u, p) ==> At(Enqueue(s, t).threads, QueueOf(Enqueue(s, t), q), u, p)
  {
    var s1 := Enqueue(s, t);
    InsertIn(s.ready, t, ThreadBefore(s1.threads));
    assert forall q :: q != ReadyQ ==> QueueOf(s1, q) == QueueOf(s, q);
  }

  // t goes into the waiters of x.
  lemma AwaitSteady(s: State, t: Tid, x: Sid)
    requires x in s.semas && t !in s.semas[x].waiters && Desc(s.threads, s.semas[x].waiters)
    ensures var s1 := PutSm(s, x, s.semas[x].(waiters := InsertThread(s.threads, s.semas[x].waiters, t)));
            && SteadyStep(s, s1) && (forall q, u, p :: At(s.threads, QueueOf(s, q), u, p) ==> At(s1.threads, QueueOf(s1, q), u, p))
  {
    var w := s.semas[x].waiters;
    var s1 := PutSm(s, x, s.semas[x].(waiters := InsertThread(s.threads, w, t)));
    InsertIn(w, t, ThreadBefore(s.threads));
    forall q ensures Steady(s.threads, QueueOf(s, q), s1.threads, QueueOf(s1, q)) {
      if q == WaitersQ(x) {
        SteadyInsert(s.threads, s.threads, w, t);
      } else {
        assert QueueOf(s1, q) == QueueOf(s, q);
        SteadySame(s.threads, s1.threads, QueueOf(s, q));
      }
    }
  }

  // From there on a sleeper's fields and the ready list change.
  lemma SleepSteady(s: State, t: Tid, x: Sid)
    requires QueueInv(s) && s.running == Some(t) && x in s.semas
    ensures SteadyStep(s, Sleep(s, t, x))
  {
    assert QueueOk(s, WaitersQ(x)) && QueueOf(s, WaitersQ(x)) == s.semas[x].waiters;
    assert QueueOk(s, ReadyQ) && QueueOf(s, ReadyQ) == s.ready;
    var s1 := PutSm(s, x, s.semas[x].(waiters := InsertThread(s.threads, s.semas[x].waiters, t)));
    AwaitSteady(s, t, x);
    var s2 := PutTh(s1, t, Th(s, t).(queue := Some(WaitersQ(x)), pc := InDown(x)));
    forall q ensures QueueOf(s2, q) == QueueOf(s1, q) && SamePri(s1.threads, s2.threads, QueueOf(s1, q)) {}
    QuietSteady(s1, s2);
    ScheduleSteady(s2);
    assert Sleep(s, t, x) == Schedule(s2);
    hide QueueInv, Schedule, Sleep, SteadyStep, PutSm;
    forall q, u, p | At(s1.threads, QueueOf(s1, q), u, p) ensures At(s2.threads, QueueOf(s2, q), u, p) {}
    StepsTrans(s1, s2, Schedule(s2));
    StepsTrans(s, s1, Schedule(s2));
  }

  lemma WakeSteady(s: State, x: Sid)
    requires QueueInv(s) && x in s.semas
    ensures SteadyStep(s, Wake(s, x))
  {
    var w := s.semas[x].waiters;
    assert QueueOk(s, WaitersQ(x)) && QueueOf(s, WaitersQ(x)) == w;
    assert QueueOk(s, ReadyQ) && QueueOf(s, ReadyQ) == s.ready;
    if w == [] {
      forall q ensures QueueOf(Wake(s, x), q) == QueueOf(s, q) {}
      QuietSteady(s, Wake(s, x));
    } else {
      var s1 := PutSm(s, x, Sema(s.semas[x].value + 1, w[1..]));
      assert w[0] in w;
      forall q ensures Steady(s.threads, QueueOf(s, q), s1.threads, QueueOf(s1, q)) {
        if q == WaitersQ(x) { SteadyPop(s.threads, s.threads, w); } else { SteadySame(s.threads, s.threads, QueueOf(s, q)); }
      }
      EnqueueSteady(s1, w[0]);
      EnqueuedAt(s, s1, w[0]);
      hide QueueInv, SteadyStep, Enqueue, Wake;
      StepsTrans(s, s1, Enqueue(s1, w[0]));
    }
  }

  lemma EnqueuedAt(s: State, s1: State, t: Tid)
    requires s1.threads == s.threads && s1.ready == s.ready && t in s.threads
    ensures var s2 := Enqueue(s1, t);
            forall q, u, p :: At(s.threads, QueueOf(s, q), u, p) && At(s2.threads, QueueOf(s2, q), u, p) ==> At(s1.threads, QueueOf(s1, q), u, p)
  {
    var s2 := Enqueue(s1, t);
    assert forall q :: q != ReadyQ ==> QueueOf(s2, q) == QueueOf(s1, q);
  }

  // ---- donation ----

  // What raising d does: its own queue is put in order again, the others do not change.
  lemma RaiseEffect(s: State, d: Tid, p: int)
    requires QueueInv(s) && d in s.threads && s.running != Some(d)
    ensures Queued(s, d) && NoDup(QueueOf(s, s.threads[d].queue.value))
    ensures var q0, s' := s.threads[d].queue.value, RaiseThread(s, d, p);
            && s'.threads == s.threads[d := s.threads[d].(ePri := p)]
            && QueueOf(s', q0) == InsertThread(s'.threads, Remove(QueueOf(s, q0), d), d)
            && (forall q :: q != q0 ==> QueueOf(s', q) == QueueOf(s, q) && d !in QueueOf(s, q))
  {
    assert Queued(s, d);
    var q0, s' := s.threads[d].queue.value, RaiseThread(s, d, p);
    assert QueueOk(s, q0);
    forall q | q != q0 ensures QueueOf(s', q) == QueueOf(s, q) && d !in QueueOf(s, q) { assert QueueOk(s, q); }
  }

  lemma RestSorted(s: State, d: Tid, q: Queue)
    requires QueueInv(s) && d in QueueOf(s, q)
    ensures Desc(s.threads, Remove(QueueOf(s, q), d)) && d !in Remove(QueueOf(s, q), d)
  {
    assert QueueOk(s, q);
    RemoveOut(QueueOf(s, q), d);
    var k := RemoveSplits(QueueOf(s, q), d);
    CutDesc(s.threads, QueueOf(s, q), k);
  }

  lemma RaiseThreadSteady(s: State, d: Tid, p: int)
    requires QueueInv(s) && d in s.threads && s.running != Some(d) && s.threads[d].ePri != p
    ensures SteadyStep(s, RaiseThread(s, d, p))
  {
    RaiseEffect(s, d, p);
    var q0, s' := s.threads[d].queue.value, RaiseThread(s, d, p);
    var rest := Remove(QueueOf(s, q0), d);
    RestSorted(s, d, q0);
    hide RaiseThread, Remove, QueueInv, Desc, Steady, QueueOf, InsertThread, NoDup;
    DescFrame(s.threads, s'.threads, rest);
    forall q ensures Steady(s.threads, QueueOf(s, q), s'.threads, QueueOf(s', q)) {
      if q == q0 {
        SteadyRaise(s.threads, s'.threads, QueueOf(s, q0), d);
      } else {
        SteadySame(s.threads, s'.threads, QueueOf(s, q));
      }
    }
  }

  lemma RaiseLockSteady(s: State, l: Lid, d: Tid, p: int)
    requires d in s.threads
    ensures SteadyStep(s, RaiseLock(s, l, d, p))
    ensures forall q, u, e :: At(s.threads, QueueOf(s, q), u, e) ==> At(RaiseLock(s, l, d, p).threads, QueueOf(RaiseLock(s, l, d, p), q), u, e)
  {
    var s1 := RaiseLock(s, l, d, p);
    forall q ensures QueueOf(s1, q) == QueueOf(s, q) && SamePri(s.threads, s1.threads, QueueOf(s, q)) {}
    QuietSteady(s, s1);
  }

  lemma TurnSteady(s: State, donor: Tid, l: Lid, d: Tid)
    requires Walking(s, donor) && l in s.locks && s.locks[l].holder == Some(d) && s.locks[l].pri < EPri(s.threads, donor)
    ensures SteadyStep(s, DonateTurn(s, l, d, EPri(s.threads, donor)))
  {
    var p := EPri(s.threads, donor);
    var s1 := RaiseLock(s, l, d, p);
    RaiseLockKeeps(s, l, d, p);
    RaiseLockSteady(s, l, d, p);
    if s.threads[d].ePri < p {
      assert s.running != Some(d) && s1.threads[d].ePri == s.threads[d].ePri && s1.running == s.running;
      hide SteadyStep, QueueInv, RaiseLock, RaiseThread, OnlyRaises;
      RaiseThreadSteady(s1, d, p);
      StepsTrans(s, s1, RaiseThread(s1, d, p));
    }
  }

  // Raised threads stay in their queues, so who is at the same priority at the end was all along.
  lemma RaisedAt(s: State, s1: State, s2: State, p: int)
    requires OnlyRaises(s, s1, p) && OnlyRaises(s1, s2, p) && forall q, u :: u in QueueOf(s, q) ==> u in s.threads
    ensures forall q, u, e :: At(s.threads, QueueOf(s, q), u, e) && At(s2.threads, QueueOf(s2, q), u, e) ==> At(s1.threads, QueueOf(s1, q), u, e)
  {
    forall q, u, e | At(s.threads, QueueOf(s, q), u, e) && At(s2.threads, QueueOf(s2, q), u, e) ensures At(s1.threads, QueueOf(s1, q), u, e) {
      assert ThreadRaised(s.threads[u], s1.threads[u], p) && ThreadRaised(s1.threads[u], s2.threads[u], p);
      match q
      case ReadyQ => SameMembers(s.ready, s1.ready);
      case WaitersQ(x) => SameMembers(s.semas[x].waiters, s1.semas[x].waiters);
    }
  }

  lemma {:induction false} WalkSteady(s: State, donor: Tid, l: Lid)
    requires Walking(s, donor) && l in s.locks && Walk(s, donor, l).Done?
    ensures SteadyStep(s, Walk(s, donor, l).s)
    decreases |Below(s, EPri(s.threads, donor))|
  {
    var p := EPri(s.threads, donor);
    var d := s.locks[l].holder.value;
    if s.locks[l].pri >= p {
      QuietSteady(s, s);
    } else {
      TurnSteady(s, donor, l, d);
      if EPri(s.threads, d) < p && Th(s, d).donatedFor.Some? && Th(s, d).donatedFor.value in s.locks {
        WalkOnSteady(s, donor, l, d);
      }
    }
  }

  lemma {:induction false} WalkOnSteady(s: State, donor: Tid, l: Lid, d: Tid)
    requires Walking(s, donor) && l in s.locks && Walk(s, donor, l).Done? && s.locks[l].holder == Some(d)
    requires s.locks[l].pri < EPri(s.threads, donor) && EPri(s.threads, d) < EPri(s.threads, donor)
    requires Th(s, d).donatedFor.Some? && Th(s, d).donatedFor.value in s.locks
    ensures SteadyStep(s, Walk(s, donor, l).s)
    decreases |Below(s, EPri(s.threads, donor))|, 0
  {
    var p, l' := EPri(s.threads, donor), Th(s, d).donatedFor.value;
    var s1 := DonateTurn(s, l, d, p);
    TurnSteady(s, donor, l, d);
    TurnOn(s, donor, l, d);
    hide Walk, DonateTurn, SteadyStep, QueueInv, LockInv, OnlyRaises, Walking;
    WalkSteady(s1, d, l');
    WalkRaises(s1, d, l');
    QueuedThreads(s);
    RaisedAt(s, s1, Walk(s1, d, l').s, p);
    StepsTrans(s, s1, Walk(s1, d, l').s);
  }

  lemma TurnOn(s: State, donor: Tid, l: Lid, d: Tid)
    requires Walking(s, donor) && l in s.locks && s.locks[l].holder == Some(d)
    requires s.locks[l].pri < EPri(s.threads, donor) && EPri(s.threads, d) < EPri(s.threads, donor)
    requires Th(s, d).donatedFor.Some? && Th(s, d).donatedFor.value in s.locks
    ensures var p, l' := EPri(s.threads, donor), Th(s, d).donatedFor.value; var s1 := DonateTurn(s, l, d, p);
            && Walking(s1, d) && EPri(s1.threads, d) == p && l' in s1.locks && OnlyRaises(s, s1, p)
            && |Below(s1, p)| < |Below(s, p)| && Walk(s, donor, l) == Walk(s1, d, l') && QueueInv(s)
  {
    TurnKeeps(s, donor, l, d);
    TurnShrinks(s, l, d, EPri(s.threads, donor));
    WalkUnfolds(s, donor, l, d);
    hide DonateTurn, OnlyRaises, LockInv, AllExact, Walk;
  }

  lemma WalkUnfolds(s: State, donor: Tid, l: Lid, d: Tid)
    requires l in s.locks && s.locks[l].holder == Some(d)
    requires s.locks[l].pri < EPri(s.threads, donor) && EPri(s.threads, d) < EPri(s.threads, donor)
    requires Th(s, d).donatedFor.Some? && Th(s, d).donatedFor.value in s.locks
    ensures var s1, l' := DonateTurn(s, l, d, EPri(s.threads, donor)), Th(s, d).donatedFor.value;
            l' in s1.locks && Walk(s, donor, l) == Walk(s1, d, l')
  {
    TurnShrinks(s, l, d, EPri(s.threads, donor));
    hide DonateTurn;
  }

  lemma WalkRaises(s: State, donor: Tid, l: Lid)
    requires Walking(s, donor) && l in s.locks && Walk(s, donor, l).Done?
    ensures OnlyRaises(s, Walk(s, donor, l).s, EPri(s.threads, donor))
  {
    WalkKeeps(s, donor, l);
  }

  lemma QueuedThreads(s: State)
    requires QueueInv(s)
    ensures forall q, u :: u in QueueOf(s, q) ==> u in s.threads
  {
    forall q, u | u in QueueOf(s, q) ensures u in s.threads { assert QueueOk(s, q); }
  }

  // ---- every step, every run ----

  // The test of `sema_down`: to sleep, or to go on in one's own code.
  lemma TestSteady(s: State, t: Tid, x: Sid)
    requires QueueInv(s) && s.running == Some(t) && x in s.semas
    ensures SteadyStep(s, TryFinish(s, t, x))
  {
    if s.semas[x].value == 0 { SleepSteady(s, t, x); } else { RunningQuiet(s, TryFinish(s, t, x), t); }
  }

  lemma AcquireSteady(s: State, l: Lid)
    requires Inv(s) && Enabled(s, Acquiring(l)) && Apply(s, Acquiring(l)).Done?
    ensures SteadyStep(s, Apply(s, Acquiring(l)).s)
  {
    var t, s2 := s.running.value, Request(s, s.running.value, l);
    AcquireStart(s, t, l);
    AcquireUnfold(s, l);
    RunningQuiet(s, s2, t);
    RequestAt(s, t, l);
    hide QueueInv, LockInv, ControlInv, SteadyStep, TryFinish, Walk;
    if s.locks[l].holder.Some? && s2.locks[l].state < 0 {
      var s3 := Walk(s2, t, l).s;
      WalkSteady(s2, t, l);
      WalkAtTest(s2, t, l);
      TestSteady(s3, t, l);
      TestedAt(s2, s3, t, l);
      StepsTrans(s2, s3, TryFinish(s3, t, l));
      StepsTrans(s, s2, TryFinish(s3, t, l));
    } else {
      TestSteady(s2, t, l);
      StepsTrans(s, s2, TryFinish(s2, t, l));
    }
  }

  lemma RequestAt(s: State, t: Tid, l: Lid)
    requires t in s.threads
    ensures var s2 := Request(s, t, l);
            forall q, u, p :: At(s.threads, QueueOf(s, q), u, p) ==> At(s2.threads, QueueOf(s2, q), u, p)
  {
    var s2 := Request(s, t, l);
    forall q ensures QueueOf(s2, q) == QueueOf(s, q) {}
  }

  // The walk takes nobody out of a queue, and after it the test changes no priority.
  lemma TestedAt(s: State, s1: State, t: Tid, x: Sid)
    requires QueueInv(s) && OnlyRaises(s, s1, EPri(s.threads, t)) && t in s1.threads && x in s1.semas
    ensures var s2 := TryFinish(s1, t, x);
            forall q, u, p :: At(s.threads, QueueOf(s, q), u, p) && At(s2.threads, QueueOf(s2, q), u, p) ==> At(s1.threads, QueueOf(s1, q), u, p)
  {
    var s2 := TryFinish(s1, t, x);
    assert forall u :: EPri(s2.threads, u) == EPri(s1.threads, u);
    hide TryFinish;
    forall q, u, p | At(s.threads, QueueOf(s, q), u, p) && At(s2.threads, QueueOf(s2, q), u, p) ensures At(s1.threads, QueueOf(s1, q), u, p) {
      match q
      case ReadyQ => SameMembers(s.ready, s1.ready);
      case WaitersQ(y) => SameMembers(s.semas[y].waiters, s1.semas[y].waiters);
    }
  }

  lemma CreateSteady(s: State, t: Tid, p: int)
    requires QueueInv(s) && t !in s.threads
    ensures SteadyStep(s, Create(s, t, p))
  {
    var s1 := PutTh(s, t, Thread(p, p, None, [], None, Free));
    assert QueueOk(s, ReadyQ) && QueueOf(s, ReadyQ) == s.ready;
    forall q ensures QueueOf(s1, q) == QueueOf(s, q) && SamePri(s.threads, s1.threads, QueueOf(s, q)) { assert QueueOk(s, q); }
    QuietSteady(s, s1);
    DescFrame(s.threads, s1.threads, s.ready);
    EnqueueSteady(s1, t);
    hide SteadyStep, Enqueue, QueueInv;
    forall q, u, e | At(s.threads, QueueOf(s, q), u, e) ensures At(s1.threads, QueueOf(s1, q), u, e) {
      assert QueueOf(s1, q) == QueueOf(s, q) && SamePri(s.threads, s1.threads, QueueOf(s, q));
    }
    StepsTrans(s, s1, Enqueue(s1, t));
  }

  lemma FinishReleaseSteady(s: State, t: Tid, l: Lid)
    requires QueueInv(s) && s.running == Some(t) && l in s.semas
    ensures SteadyStep(s, FinishRelease(s, t, l))
  {
    var s1 := PutTh(s, t, s.threads[t].(pc := Free));
    forall q ensures QueueOf(s1, q) == QueueOf(s, q) {}
    FrameQueues(s, s1);
    RunningQuiet(s, s1, t);
    WakeSteady(s1, l);
    hide SteadyStep, Wake, QueueInv;
    StepsTrans(s, s1, Wake(s1, l));
  }

  // Steps in which the running thread changes only its own fields, a lock or a value.
  lemma OwnStepSteady(s: State, a: Action)
    requires Inv(s) && Enabled(s, a) && (a.TryAcquiring? || a.Disowning? || a.SettingPriority?)
    ensures Apply(s, a).Done? && SteadyStep(s, Apply(s, a).s)
  {
    RunningQuiet(s, Apply(s, a).s, s.running.value);
  }

  lemma LockStepSteady(s: State, a: Action)
    requires Inv(s) && Enabled(s, a) && (a.FinishingRelease? || a.Downing? || a.Resuming?)
    ensures Apply(s, a).Done? && SteadyStep(s, Apply(s, a).s)
  {
    var t := s.running.value;
    assert PcOk(s, t);
    hide SteadyStep, QueueInv, LockInv, TryFinish, FinishRelease;
    match a
    case FinishingRelease => FinishReleaseSteady(s, t, s.threads[t].pc.lock);
    case Downing(x) => TestSteady(s, t, x);
    case Resuming => TestSteady(s, t, s.threads[t].pc.sema);
  }

  lemma OtherStepSteady(s: State, a: Action)
    requires Inv(s) && Enabled(s, a) && (a.TryDowning? || a.Upping? || a.Yielding? || a.Dispatching? || a.Creating?)
    ensures Apply(s, a).Done? && SteadyStep(s, Apply(s, a).s)
  {
    assert QueueOk(s, ReadyQ) && QueueOf(s, ReadyQ) == s.ready;
    hide SteadyStep, QueueInv, LockInv, ControlInv, Wake, Yield, Schedule, Create;
    match a
    case TryDowning(x) => ValueSteady(s, Apply(s, a).s);
    case Upping(x) => WakeSteady(s, x);
    case Yielding => YieldSteady(s, s.running.value);
    case Dispatching => ScheduleSteady(s);
    case Creating(t, p) => CreateSteady(s, t, p);
  }

  lemma StepSteady(s: State, a: Action)
    requires Inv(s) && Enabled(s, a) && Apply(s, a).Done?
    ensures SteadyStep(s, Apply(s, a).s)
  {
    hide Inv, Enabled, Apply, SteadyStep;
    match a
    case Acquiring(l) => AcquireSteady(s, l);
    case TryAcquiring(_) => OwnStepSteady(s, a);
    case Disowning(_) => OwnStepSteady(s, a);
    case SettingPriority(_) => OwnStepSteady(s, a);
    case FinishingRelease => LockStepSteady(s, a);
    case Downing(_) => LockStepSteady(s, a);
    case Resuming => LockStepSteady(s, a);
    case _ => OtherStepSteady(s, a);
  }

  lemma ValueSteady(s: State, s': State)
    requires s'.threads == s.threads && s'.ready == s.ready && forall x :: Sm(s', x).waiters == Sm(s, x).waiters
    ensures SteadyStep(s, s')
  {
    forall q ensures QueueOf(s', q) == QueueOf(s, q) {}
    QuietSteady(s, s');
  }

  // u stands in q at priority p in all states from i to n.
  ghost predicate Stands(ss: seq<State>, i: nat, n: nat, q: Queue, u: Tid, p: int) {
    forall k :: i <= k <= n && k < |ss| ==> At(ss[k].threads, QueueOf(ss[k], q), u, p)
  }

  lemma RunLength(ss: seq<State>, acts: seq<Action>)
    requires IsRun(ss, acts)
    ensures |ss| == |acts| + 1
  {
  }

  lemma RunSteady(ss: seq<State>, acts: seq<Action>, k: nat, q: Queue, u: Tid, v: Tid, p: int)
    requires IsRun(ss, acts) && k < |acts|
    ensures Keeps(ss[k].threads, QueueOf(ss[k], q), ss[k + 1].threads, QueueOf(ss[k + 1], q), u, v, p)
  {
    RunInv(ss, acts, k);
    assert StepOk(ss[k], acts[k], ss[k + 1]);
    StepSteady(ss[k], acts[k]);
    hide IsRun, Inv, Apply, Enabled, QueueOf, Keeps;
    assert Steady(ss[k].threads, QueueOf(ss[k], q), ss[k + 1].threads, QueueOf(ss[k + 1], q));
  }

  /** In every run: who has stood in a queue at some priority since before another thread came to
      that place and priority is ahead of it as long as both are there. */
  lemma {:induction false} FirstComeFirstServed(ss: seq<State>, acts: seq<Action>, i: nat, n: nat, q: Queue, u: Tid, v: Tid, p: int)
    requires IsRun(ss, acts) && i <= n < |ss| && u != v && Stands(ss, i, n, q, u, p)
    requires !At(ss[i].threads, QueueOf(ss[i], q), v, p) && At(ss[n].threads, QueueOf(ss[n], q), v, p)
    ensures Ahead(QueueOf(ss[n], q), u, v)
    decreases n
  {
    hide IsRun, QueueOf, Ahead, At;
    var s, s' := ss[n - 1], ss[n];
    assert At(s.threads, QueueOf(s, q), u, p) && At(s'.threads, QueueOf(s', q), u, p);
    if At(s.threads, QueueOf(s, q), v, p) {
      assert Stands(ss, i, n - 1, q, u, p);
      FirstComeFirstServed(ss, acts, i, n - 1, q, u, v, p);
    }
    RunLength(ss, acts);
    RunSteady(ss, acts, n - 1, q, u, v, p);
  }
}
