/** The ready list and every semaphore's waiter list: each thread that does not run stands in
    exactly the list its `queue` field names, and every list is sorted by effective priority. */
module QueueInvariant {
  import opened Queues
  import opened KernelState

  ghost predicate Desc(ths: map<Tid, Thread>, ts: seq<Tid>) {
    forall i, j :: 0 <= i < j < |ts| ==> EPri(ths, ts[i]) >= EPri(ths, ts[j])
  }

  ghost predicate QueueOk(s: State, q: Queue) {
    && NoDup(QueueOf(s, q))
    && Desc(s.threads, QueueOf(s, q))
    && forall t :: t in QueueOf(s, q) ==> t in s.threads && s.threads[t].queue == Some(q) && s.running != Some(t)
  }

  ghost predicate Queued(s: State, t: Tid)
    requires t in s.threads
  {
    s.threads[t].queue.Some? && t in QueueOf(s, s.threads[t].queue.value)
  }

  // The queues are in order, and every thread but t runs or stands in its queue.
  ghost predicate QueuesBut(s: State, t: Tid) {
    && (forall q :: QueueOk(s, q))
    && (forall u :: u in s.threads && u != t ==> s.running == Some(u) || Queued(s, u))
    && (s.running.Some? ==> s.running.value in s.threads)
    && (forall q :: t !in QueueOf(s, q))
  }

  ghost predicate QueueInv(s: State) {
    && (forall q :: QueueOk(s, q))
    && (forall t :: t in s.threads ==> s.running == Some(t) || Queued(s, t))
    && (s.running.Some? ==> s.running.value in s.threads)
  }

  /** `list_insert_ordered` keeps a queue sorted, and puts t behind every thread of at least its
      priority and ahead of every thread below it: first come, first served among equals. */
  lemma InsertDesc(ths: map<Tid, Thread>, ts: seq<Tid>, t: Tid) returns (k: nat)
    requires Desc(ths, ts)
    ensures Desc(ths, InsertThread(ths, ts, t))
    ensures k <= |ts| && InsertThread(ths, ts, t) == ts[..k] + [t] + ts[k..]
    ensures forall i :: 0 <= i < k ==> EPri(ths, ts[i]) >= EPri(ths, t)
    ensures forall i :: k <= i < |ts| ==> EPri(ths, t) > EPri(ths, ts[i])
  {
    k := InsertPoint(ts, t, ThreadBefore(ths));
    forall i | k <= i < |ts| ensures EPri(ths, t) > EPri(ths, ts[i]) {
      assert ThreadBefore(ths)(t, ts[k]);
    }
    forall i | 0 <= i < k ensures EPri(ths, ts[i]) >= EPri(ths, t) {
      assert !ThreadBefore(ths)(t, ts[i]);
    }
    PasteDesc(ths, ts, t, k);
  }

  lemma PasteDesc(ths: map<Tid, Thread>, ts: seq<Tid>, t: Tid, k: nat)
    requires Desc(ths, ts) && k <= |ts|
    requires forall i :: 0 <= i < k ==> EPri(ths, ts[i]) >= EPri(ths, t)
    requires forall i :: k <= i < |ts| ==> EPri(ths, t) > EPri(ths, ts[i])
    ensures Desc(ths, ts[..k] + [t] + ts[k..])
  {
    var r := ts[..k] + [t] + ts[k..];
    assert forall i :: 0 <= i < |r| ==> r[i] == if i < k then ts[i] else if i == k then t else ts[i - 1];
  }

  lemma CutDesc(ths: map<Tid, Thread>, ts: seq<Tid>, k: nat)
    requires Desc(ths, ts) && k < |ts|
    ensures Desc(ths, ts[..k] + ts[k + 1..])
  {
    var r := ts[..k] + ts[k + 1..];
    assert forall i :: 0 <= i < |r| ==> r[i] == ts[if i < k then i else i + 1];
  }

  lemma DescFrame(ths: map<Tid, Thread>, ths': map<Tid, Thread>, ts: seq<Tid>)
    requires forall t :: t in ts ==> EPri(ths, t) == EPri(ths', t)
    requires Desc(ths, ts)
    ensures Desc(ths', ts)
  {
    forall i, j | 0 <= i < j < |ts| ensures EPri(ths', ts[i]) >= EPri(ths', ts[j]) {
      assert ts[i] in ts && ts[j] in ts;
    }
  }

  // ---- attaching and detaching one thread ----

  lemma AttachQueues(s: State, s': State, t: Tid, q: Queue, ths: map<Tid, Thread>)
    requires QueuesBut(s, t) && s.running != Some(t)
    requires s'.running == s.running && t in s'.threads && s'.threads == s.threads[t := s'.threads[t]]
    requires s'.threads[t].queue == Some(q)
    requires forall u :: EPri(ths, u) == EPri(s'.threads, u)
    requires QueueOf(s', q) == InsertThread(ths, QueueOf(s, q), t)
    requires forall q' :: q' != q ==> QueueOf(s', q') == QueueOf(s, q')
    ensures QueueInv(s')
  {
    forall q' ensures QueueOk(s', q') {
      assert QueueOk(s, q') && t !in QueueOf(s, q');
      if q' == q { AttachedQueue(s, s', t, q, ths); } else { DescFrame(s.threads, s'.threads, QueueOf(s, q')); }
    }
    forall u | u in s'.threads ensures s'.running == Some(u) || Queued(s', u) {
      InsertIn(QueueOf(s, q), t, ThreadBefore(ths));
      if u != t { assert s.running == Some(u) || Queued(s, u); }
    }
  }

  lemma AttachedQueue(s: State, s': State, t: Tid, q: Queue, ths: map<Tid, Thread>)
    requires QueueOk(s, q) && t !in QueueOf(s, q) && s.running != Some(t)
    requires s'.running == s.running && t in s'.threads && s'.threads == s.threads[t := s'.threads[t]]
    requires s'.threads[t].queue == Some(q) && forall u :: EPri(ths, u) == EPri(s'.threads, u)
    requires QueueOf(s', q) == InsertThread(ths, QueueOf(s, q), t)
    ensures QueueOk(s', q)
  {
    var ts := QueueOf(s, q);
    DescFrame(s.threads, ths, ts);
    InsertIn(ts, t, ThreadBefore(ths));
    var _ := InsertDesc(ths, ts, t);
    DescFrame(ths, s'.threads, QueueOf(s', q));
  }

  lemma SuspendQueues(s: State, t: Tid)
    requires QueueInv(s) && s.running == Some(t)
    ensures QueuesBut(s.(running := None), t)
  {
    var s' := s.(running := None);
    forall q ensures QueueOk(s', q) && t !in QueueOf(s', q) {
      assert QueueOk(s, q) && QueueOf(s', q) == QueueOf(s, q);
    }
  }

  // Taking the thread at place k out of queue q.
  lemma DetachQueues(s: State, s': State, q: Queue, k: nat)
    requires QueueInv(s) && k < |QueueOf(s, q)|
    requires s'.running == s.running && s'.threads == s.threads
    requires QueueOf(s', q) == QueueOf(s, q)[..k] + QueueOf(s, q)[k + 1..]
    requires forall q' :: q' != q ==> QueueOf(s', q') == QueueOf(s, q')
    ensures QueuesBut(s', QueueOf(s, q)[k]) && QueueOf(s, q)[k] in s.threads
    ensures s.running != Some(QueueOf(s, q)[k])
  {
    var t := QueueOf(s, q)[k];
    assert QueueOk(s, q) && t in QueueOf(s, q);
    forall q' ensures QueueOk(s', q') && t !in QueueOf(s', q') {
      assert QueueOk(s, q');
      CutNoDup(QueueOf(s, q), k);
      CutDesc(s.threads, QueueOf(s, q), k);
    }
    forall u | u in s'.threads && u != t ensures s'.running == Some(u) || Queued(s', u) {
      assert s.running == Some(u) || Queued(s, u);
      CutNoDup(QueueOf(s, q), k);
    }
  }

  // Priorities and queue fields of the threads that do not run are what the queues depend on.
  lemma FrameQueues(s: State, s': State)
    requires QueueInv(s)
    requires s'.running == s.running && s'.threads.Keys == s.threads.Keys
    requires forall q :: QueueOf(s', q) == QueueOf(s, q)
    requires forall t :: t in s.threads && s.running != Some(t) ==>
               s'.threads[t].queue == s.threads[t].queue && s'.threads[t].ePri == s.threads[t].ePri
    ensures QueueInv(s')
  {
    forall q ensures QueueOk(s', q) {
      assert QueueOk(s, q);
      DescFrame(s.threads, s'.threads, QueueOf(s, q));
    }
    forall t | t in s'.threads ensures s'.running == Some(t) || Queued(s', t) {
      assert s.running == Some(t) || Queued(s, t);
    }
  }

  // ---- the scheduler ----

  /** `thread_schedule_prio` gives the CPU to a ready thread of the highest effective priority. */
  lemma SchedulePicksMax(s: State)
    requires QueueInv(s) && s.ready != []
    ensures Schedule(s).running == Some(s.ready[0])
    ensures forall t :: t in s.ready ==> EPri(s.threads, s.ready[0]) >= EPri(s.threads, t)
  {
    assert QueueOk(s, ReadyQ) && QueueOf(s, ReadyQ) == s.ready;
  }

  lemma ScheduleQueues(s: State)
    requires QueueInv(s) && s.running == None
    ensures QueueInv(Schedule(s))
  {
    if s.ready != [] {
      var s1 := s.(ready := s.ready[1..]);
      assert QueueOf(s, ReadyQ) == s.ready && s.ready[1..] == s.ready[..0] + s.ready[1..];
      forall q' | q' != ReadyQ ensures QueueOf(s1, q') == QueueOf(s, q') {}
      DetachQueues(s, s1, ReadyQ, 0);
      var t := s.ready[0];
      var s2 := Schedule(s);
      assert s2 == s1.(running := Some(t));
      forall q ensures QueueOk(s2, q) {
        assert QueueOk(s1, q) && QueueOf(s2, q) == QueueOf(s1, q);
      }
      forall u | u in s2.threads ensures s2.running == Some(u) || Queued(s2, u) {
        if u != t { assert Queued(s1, u); assert QueueOf(s2, s1.threads[u].queue.value) == QueueOf(s1, s1.threads[u].queue.value); }
      }
    }
  }

  lemma EnqueueQueues(s: State, t: Tid)
    requires QueuesBut(s, t) && s.running != Some(t) && t in s.threads
    ensures QueueInv(Enqueue(s, t))
  {
    var s' := Enqueue(s, t);
    forall q' | q' != ReadyQ ensures QueueOf(s', q') == QueueOf(s, q') {}
    assert QueueOf(s, ReadyQ) == s.ready && QueueOf(s', ReadyQ) == s'.ready;
    AttachQueues(s, s', t, ReadyQ, s'.threads);
  }

  lemma YieldQueues(s: State, t: Tid)
    requires QueueInv(s) && s.running == Some(t)
    ensures QueueInv(Yield(s, t))
  {
    SuspendQueues(s, t);
    var s0 := s.(running := None);
    EnqueueQueues(s0, t);
    ScheduleQueues(Enqueue(s0, t));
    assert Yield(s, t) == Schedule(Enqueue(s0, t));
  }

  lemma SleepQueues(s: State, t: Tid, x: Sid)
    requires QueueInv(s) && s.running == Some(t) && x in s.semas
    ensures QueueInv(Sleep(s, t, x))
  {
    SuspendQueues(s, t);
    var s0 := s.(running := None);
    var w := InsertThread(s.threads, s.semas[x].waiters, t);
    var s1 := PutTh(PutSm(s0, x, s0.semas[x].(waiters := w)), t, s.threads[t].(queue := Some(WaitersQ(x)), pc := InDown(x)));
    forall q' | q' != WaitersQ(x) ensures QueueOf(s1, q') == QueueOf(s0, q') {}
    AttachQueues(s0, s1, t, WaitersQ(x), s.threads);
    ScheduleQueues(s1);
    assert Sleep(s, t, x) == Schedule(s1);
  }

  /** `sema_up` wakes a waiter of the highest effective priority. */
  lemma WakePicksMax(s: State, x: Sid)
    requires QueueInv(s) && x in s.semas && s.semas[x].waiters != []
    ensures var w := s.semas[x].waiters[0];
            w in Wake(s, x).ready && forall t :: t in s.semas[x].waiters ==> EPri(s.threads, w) >= EPri(s.threads, t)
  {
    assert QueueOk(s, WaitersQ(x)) && QueueOf(s, WaitersQ(x)) == s.semas[x].waiters;
    var w := s.semas[x].waiters[0];
    var s1 := PutTh(s, w, Th(s, w).(queue := Some(ReadyQ)));
    InsertIn(s.ready, w, ThreadBefore(s1.threads));
  }

  lemma PoppedQueues(s: State, x: Sid, s1: State)
    requires QueueInv(s) && x in s.semas && s.semas[x].waiters != []
    requires s1 == PutSm(s, x, Sema(s.semas[x].value + 1, s.semas[x].waiters[1..]))
    ensures QueuesBut(s1, s.semas[x].waiters[0]) && s.semas[x].waiters[0] in s1.threads
    ensures s1.running != Some(s.semas[x].waiters[0])
  {
    var ws := s.semas[x].waiters;
    assert QueueOf(s, WaitersQ(x)) == ws && ws[1..] == ws[..0] + ws[1..];
    forall q' | q' != WaitersQ(x) ensures QueueOf(s1, q') == QueueOf(s, q') {}
    hide QueueInv, QueuesBut;
    DetachQueues(s, s1, WaitersQ(x), 0);
  }

  lemma ValueQueues(s: State, x: Sid, v: nat)
    requires QueueInv(s)
    ensures QueueInv(SetValue(s, x, v))
  {
    FrameQueues(s, SetValue(s, x, v));
  }

  lemma WakeQueues(s: State, x: Sid)
    requires QueueInv(s) && x in s.semas
    ensures QueueInv(Wake(s, x))
  {
    hide QueueInv, QueuesBut, Enqueue, SetValue;
    var ws := s.semas[x].waiters;
    if ws == [] {
      ValueQueues(s, x, s.semas[x].value + 1);
    } else {
      var s1 := PutSm(s, x, Sema(s.semas[x].value + 1, ws[1..]));
      PoppedQueues(s, x, s1);
      EnqueueQueues(s1, ws[0]);
    }
  }

  // ---- donation ----

  /** A thread raised by a donation is moved within its own queue, which stays sorted. */
  lemma RaiseThreadQueues(s: State, d: Tid, p: int)
    requires QueueInv(s) && d in s.threads && s.running != Some(d)
    ensures QueueInv(RaiseThread(s, d, p))
    ensures RaiseThread(s, d, p).threads == s.threads[d := s.threads[d].(ePri := p)]
  {
    assert Queued(s, d);
    var q := s.threads[d].queue.value;
    var ts := QueueOf(s, q);
    assert QueueOk(s, q);
    var k := RemoveSplits(ts, d);
    var s1 := SetQueue(s, q, Remove(ts, d));
    forall q' | q' != q ensures QueueOf(s1, q') == QueueOf(s, q') {}
    DetachQueues(s, s1, q, k);
    var s' := RaiseThread(s, d, p);
    forall q' | q' != q ensures QueueOf(s', q') == QueueOf(s1, q') {}
    AttachQueues(s1, s', d, q, s'.threads);
  }
}
