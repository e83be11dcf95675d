/** The lists of the readers-writers monitor on the scheduler, while priorities stay as they are: all
    sorted, so that whoever is dispatched or woken next runs highest. */
module CondWaitOrder {
  import opened Queues
  import MergeSort
  import opened RwLock
  import opened CondWait

  ghost predicate Desc(q: seq<Tid>, pri: Tid -> int) { forall i, j :: 0 <= i < j < |q| ==> pri(q[i]) >= pri(q[j]) }

  ghost predicate AllDesc(s: Sched, pri: Tid -> int) { forall w :: Desc(List(s, w), pri) }

  ghost predicate DescOutcome(o: Outcome, pri: Tid -> int) { o.Whole? ==> AllDesc(o.s, pri) }

  // t goes behind everyone of at least its priority and ahead of the others.
  lemma InsertedDesc(q: seq<Tid>, t: Tid, pri: Tid -> int) returns (k: nat)
    requires Desc(q, pri)
    ensures Desc(InsertOrdered(q, t, Before(pri)), pri)
    ensures k <= |q| && InsertOrdered(q, t, Before(pri)) == q[..k] + [t] + q[k..]
    ensures (forall i :: 0 <= i < k ==> pri(q[i]) >= pri(t)) && forall i :: k <= i < |q| ==> pri(t) > pri(q[i])
  {
    k := InsertPoint(q, t, Before(pri));
    hide InsertPoint;
    forall i | k <= i < |q| ensures pri(t) > pri(q[i]) { if i > k { assert pri(q[k]) >= pri(q[i]); } }
  }

  lemma PutDesc(s: Sched, w: Where, q: seq<Tid>, pri: Tid -> int)
    requires AllDesc(s, pri) && Desc(q, pri)
    ensures AllDesc(Put(s, w, q), pri)
  {
    forall x ensures Desc(List(Put(s, w, q), x), pri) { assert Desc(List(s, x), pri); }
  }

  lemma InsertDesc(s: Sched, t: Tid, w: Where, pri: Tid -> int)
    requires AllDesc(s, pri)
    ensures DescOutcome(Insert(s, t, w, pri), pri)
  {
    assert Desc(List(s, w), pri);
    var k := InsertedDesc(List(s, w), t, pri);
    PutDesc(s, w, InsertOrdered(List(s, w), t, Before(pri)), pri);
  }

  // The lists are all that matters.
  lemma SameDesc(s: Sched, s': Sched, pri: Tid -> int)
    requires AllDesc(s, pri) && s'.ready == s.ready && s'.guard == s.guard && s'.readers == s.readers
    requires s'.writers == s.writers && s'.others == s.others
    ensures AllDesc(s', pri)
  {
    forall w ensures Desc(List(s', w), pri) { assert Desc(List(s, w), pri) && List(s', w) == List(s, w); }
  }

  /** Whoever is dispatched is of the highest priority on the ready list. */
  lemma ScheduleDesc(s: Sched, pri: Tid -> int)
    requires AllDesc(s, pri)
    ensures AllDesc(Schedule(s), pri)
    ensures var s' := Schedule(s);
            if s'.running.Some? then s.ready == [s'.running.value] + s'.ready && forall u :: u in s.ready ==> pri(u) <= pri(s'.running.value)
            else s.ready == []
  {
    assert Desc(List(s, OnReady), pri);
    if s.ready != [] {
      PutDesc(s, OnReady, s.ready[1..], pri);
      SameDesc(Put(s, OnReady, s.ready[1..]), Schedule(s), pri);
    } else {
      SameDesc(s, Schedule(s), pri);
    }
  }

  lemma BlockDesc(s: Sched, t: Tid, pri: Tid -> int)
    requires AllDesc(s, pri)
    ensures AllDesc(Block(s, t), pri)
  {
    var s1 := s.(blocked := s.blocked + {t});
    SameDesc(s, s1, pri);
    ScheduleDesc(s1, pri);
  }

  lemma UnblockDesc(s: Sched, t: Tid, pri: Tid -> int)
    requires AllDesc(s, pri)
    ensures DescOutcome(Unblock(s, t, pri), pri)
  {
    var s1 := s.(blocked := s.blocked - {t});
    SameDesc(s, s1, pri);
    InsertDesc(s1, t, OnReady, pri);
  }

  lemma YieldDesc(s: Sched, t: Tid, pri: Tid -> int)
    requires AllDesc(s, pri)
    ensures DescOutcome(Yield(s, t, pri), pri)
  {
    hide AllDesc, Schedule;
    InsertDesc(s, t, OnReady, pri);
    if Insert(s, t, OnReady, pri).Whole? { ScheduleDesc(Insert(s, t, OnReady, pri).s, pri); }
  }

  lemma SleepDesc(s: Sched, t: Tid, w: Where, pri: Tid -> int)
    requires AllDesc(s, pri)
    ensures DescOutcome(Sleep(s, t, w, pri), pri)
  {
    hide AllDesc, Block;
    InsertDesc(s, t, w, pri);
    if Insert(s, t, w, pri).Whole? { BlockDesc(Insert(s, t, w, pri).s, t, pri); }
  }

  lemma UpDesc(s: Sched, pri: Tid -> int)
    requires AllDesc(s, pri)
    ensures DescOutcome(Up(s, pri), pri)
  {
    if s.guard == [] {
      SameDesc(s, Up(s, pri).s, pri);
    } else {
      assert Desc(List(s, OnGuard), pri);
      var s1 := Put(s, OnGuard, s.guard[1..]);
      PutDesc(s, OnGuard, s.guard[1..], pri);
      hide AllDesc, Unblock;
      UnblockDesc(s1, s.guard[0], pri);
      var o := Unblock(s1, s.guard[0], pri);
      if o.Whole? { SameDesc(o.s, o.s.(free := true), pri); }
    }
  }

  lemma WakeFrontDesc(s: Sched, r: bool, q: seq<Tid>, pri: Tid -> int)
    requires AllDesc(s, pri) && q != [] && Desc(q, pri)
    ensures DescOutcome(WakeFront(s, r, q, pri), pri)
  {
    PutDesc(s, OnCond(r), q[1..], pri);
    var s1 := Put(s, OnCond(r), q[1..]).(m := Move(s.m, q[0], Signalled(r)));
    SameDesc(Put(s, OnCond(r), q[1..]), s1, pri);
    UnblockDesc(s1, q[0], pri);
  }

  lemma SortedDesc(q: seq<Tid>, pri: Tid -> int)
    ensures Desc(SortedBy(q, pri), pri)
  {
    assert MergeSort.StrictWeak(Before(pri), set t | t in q);
    MergeSort.SortCorrect(q, Before(pri), set t | t in q);
    var r := SortedBy(q, pri);
    hide SortedBy, MergeSort.StrictWeak, MergeSort.Class;
    forall i, j | 0 <= i < j < |r| ensures pri(r[i]) >= pri(r[j]) { assert !Before(pri)(r[j], r[i]); }
  }

  lemma {:induction false} BroadcastDesc(s: Sched, pri: Tid -> int)
    requires AllDesc(s, pri)
    ensures DescOutcome(Broadcast(s, pri), pri)
    decreases |s.readers|
  {
    if s.readers != [] {
      assert Desc(List(s, OnCond(true)), pri);
      WakeFrontDesc(s, true, s.readers, pri);
      var o := WakeFront(s, true, s.readers, pri);
      if o.Whole? {
        assert List(o.s, OnCond(true)) == s.readers[1..];
        BroadcastDesc(o.s, pri);
      }
    }
  }

  lemma WakeDesc(s: Sched, signal: Signal, pri: Tid -> int)
    requires AllDesc(s, pri)
    ensures DescOutcome(Wake(s, signal, pri), pri)
  {
    hide AllDesc, SortedBy, WakeFront, Broadcast;
    if signal == OneWriter {
      SortedDesc(s.writers, pri);
      if SortedBy(s.writers, pri) != [] { WakeFrontDesc(s, false, SortedBy(s.writers, pri), pri); }
    } else if signal == AllReaders {
      BroadcastDesc(s, pri);
    }
  }

  lemma DownDesc(s: Sched, t: Tid, pri: Tid -> int)
    requires AllDesc(s, pri) && WantsGuard(PcOf(s.m, t))
    ensures DescOutcome(Down(s, t, pri), pri)
  {
    if s.free {
      SameDesc(s, Down(s, t, pri).s, pri);
    } else {
      SleepDesc(s, t, OnGuard, pri);
    }
  }

  lemma StartWaitDesc(s: Sched, t: Tid, r: bool, pri: Tid -> int)
    requires AllDesc(s, pri)
    ensures DescOutcome(StartWait(s, t, r, pri), pri)
  {
    InsertDesc(s, t, OnCond(r), pri);
    var o := Insert(s, t, OnCond(r), pri);
    hide AllDesc, Insert;
    if o.Whole? { SameDesc(o.s, StartWait(s, t, r, pri).s, pri); }
  }

  lemma GoOnDesc(s: Sched, t: Tid, pri: Tid -> int)
    requires AllDesc(s, pri) && t in s.gap
    ensures DescOutcome(GoOnWaiting(s, t, pri), pri)
  {
    hide AllDesc, Up, Yield, Block;
    UpDesc(s, pri);
    YieldDesc(s, t, pri);
    var s1 := s.(gap := s.gap - {t});
    SameDesc(s, s1, pri);
    BlockDesc(s1, t, pri);
    if s.gap[t] == Listed && Up(s, pri).Whole? { SameDesc(Up(s, pri).s, GoOnWaiting(s, t, pri).s, pri); }
  }

  lemma GoDesc(s: Sched, t: Tid, r: bool, pri: Tid -> int)
    requires AllDesc(s, pri)
    ensures DescOutcome(Go(s, t, r, pri), pri)
  {
    hide AllDesc, Up, Down, StartWait, GoOnWaiting, Wake;
    match PcOf(s.m, t)
    case Entering(_) => DownDesc(s, t, pri);
    case Signalled(_) => DownDesc(s, t, pri);
    case Exiting(_) => DownDesc(s, t, pri);
    case Testing(x) =>
      if MustWait(s.m.counts, x) { StartWaitDesc(s, t, x, pri); } else { SameDesc(s, Go(s, t, r, pri).s, pri); }
    case Asleep(_) => if t in s.gap { GoOnDesc(s, t, pri); }
    case Admitted(x) =>
      var s1 := s.(m := Move(s.m, t, Inside(x)).(guard := false));
      SameDesc(s, s1, pri);
      UpDesc(s1, pri);
    case Leaving(x) =>
      var c := AddActive(s.m.counts, x, -1);
      var s1 := s.(m := Monitor(c, true, s.m.pcs[t := Left]));
      SameDesc(s, s1, pri);
      WakeDesc(s1, WakesAfter(c, x), pri);
    case Left =>
      var s1 := s.(m := Move(s.m, t, Out).(guard := false));
      SameDesc(s, s1, pri);
      UpDesc(s1, pri);
    case _ => SameDesc(s, Go(s, t, r, pri).s, pri);
  }

  lemma {:induction false} RemoveDesc(q: seq<Tid>, t: Tid, pri: Tid -> int)
    requires Desc(q, pri) && t in q
    ensures Desc(Remove(q, t), pri)
  {
    var k := RemoveSplits(q, t);
    var r := Remove(q, t);
    hide Remove;
    assert forall i :: 0 <= i < |r| ==> r[i] == q[if i < k then i else i + 1];
  }

  lemma RouseDesc(s: Sched, t: Tid, pri: Tid -> int)
    requires AllDesc(s, pri) && t in s.others
    ensures DescOutcome(Unblock(s.(others := Remove(s.others, t)), t, pri), pri)
  {
    assert Desc(List(s, OnOther), pri);
    RemoveDesc(s.others, t, pri);
    PutDesc(s, OnOther, Remove(s.others, t), pri);
    UnblockDesc(Put(s, OnOther, Remove(s.others, t)), t, pri);
  }

  /** A step keeps all lists sorted by the priorities it goes by. */
  lemma StepDesc(s: Sched, a: Action, pri: Tid -> int)
    requires AllDesc(s, pri) && Enabled(s, a)
    ensures DescOutcome(Apply(s, a, pri), pri)
  {
    hide AllDesc, Go, Yield, Sleep, Unblock, Schedule;
    match a
    case Going(r) => GoDesc(s, s.running.value, r, pri);
    case Yielding => YieldDesc(s, s.running.value, pri);
    case Napping => SleepDesc(s, s.running.value, OnOther, pri);
    case Rousing(t) => RouseDesc(s, t, pri);
    case Dispatching => ScheduleDesc(s, pri);
  }

  /** As long as priorities do not change, all lists of a run are sorted in every whole state; so in
      each the front of the ready list, which runs next, and the front of the guard's waiters, which
      is woken next, are of the highest priority there. */
  lemma {:induction false} RunDesc(os: seq<Outcome>, acts: seq<Action>, pris: seq<Tid -> int>, pri: Tid -> int, k: nat)
    requires IsSchedRun(os, acts, pris) && k < |os| && os[k].Whole? && AllDesc(os[0].s, pri)
    requires forall i :: 0 <= i < k ==> pris[i] == pri
    ensures AllDesc(os[k].s, pri)
    ensures forall w, t :: t in List(os[k].s, w) ==> pri(t) <= pri(List(os[k].s, w)[0])
  {
    if k > 0 {
      assert Takes(os[k - 1], acts[k - 1], pris[k - 1], os[k]);
      hide Apply, Enabled;
      RunDesc(os, acts, pris, pri, k - 1);
      StepDesc(os[k - 1].s, acts[k - 1], pri);
    }
    forall w, t | t in List(os[k].s, w) ensures pri(t) <= pri(List(os[k].s, w)[0]) { assert Desc(List(os[k].s, w), pri); }
  }
}
