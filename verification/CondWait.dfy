/** The readers-writers monitor on the scheduler: threads with one list element each, the lists it
    may be on, and a running thread. `cond_wait` puts the thread on the condition's list, then
    releases the guard, and only then blocks; until it does, its element is taken. */
module CondWait {
  import opened Queues
  import MergeSort
  import opened RwLock

  // The lists: the ready list, the guard's waiters, the waiters of either condition, and the lists
  // of threads that sleep for reasons of their own.
  datatype Where = OnReady | OnGuard | OnCond(reader: bool) | OnOther

  // How far a thread in the gap of `cond_wait` is: on the list, or past the `sema_up` of the guard.
  datatype Phase = Listed | Released(woken: Option<Tid>)

  /** free is the value of the guard's semaphore, blocked the threads of status THREAD_BLOCKED. The
      monitor counts a thread as asleep, and without the guard, from when it is on the condition's
      list. */
  datatype Sched = Sched(
    m: Monitor, free: bool, ready: seq<Tid>, guard: seq<Tid>, readers: seq<Tid>, writers: seq<Tid>, others: seq<Tid>,
    running: Option<Tid>, blocked: set<Tid>, gap: map<Tid, Phase>)

  /** Torn: an element was inserted while on a list. Panic: the assertion of `thread_unblock`. */
  datatype Outcome = Torn | Panic | Whole(s: Sched)

  // `thread_before`, by the priorities there are at the moment
  function Before(pri: Tid -> int): (Tid, Tid) -> bool { (a: Tid, b: Tid) => pri(a) > pri(b) }

  function List(s: Sched, w: Where): seq<Tid> {
    match w
    case OnReady => s.ready
    case OnGuard => s.guard
    case OnCond(r) => if r then s.readers else s.writers
    case OnOther => s.others
  }

  function Put(s: Sched, w: Where, q: seq<Tid>): Sched {
    match w
    case OnReady => s.(ready := q)
    case OnGuard => s.(guard := q)
    case OnCond(r) => if r then s.(readers := q) else s.(writers := q)
    case OnOther => s.(others := q)
  }

  predicate OnList(s: Sched, t: Tid) {
    t in s.ready || t in s.guard || t in s.readers || t in s.writers || t in s.others
  }

  // ---- the scheduler ----

  // `list_insert_ordered` of t's element
  function Insert(s: Sched, t: Tid, w: Where, pri: Tid -> int): Outcome {
    if OnList(s, t) then Torn else Whole(Put(s, w, InsertOrdered(List(s, w), t, Before(pri))))
  }

  // `schedule`
  function Schedule(s: Sched): Sched {
    if s.ready == [] then s.(running := None) else s.(running := Some(s.ready[0]), ready := s.ready[1..])
  }

  // `thread_block`
  function Block(s: Sched, t: Tid): Sched { Schedule(s.(blocked := s.blocked + {t})) }

  // `thread_unblock`
  function Unblock(s: Sched, t: Tid, pri: Tid -> int): Outcome {
    if t !in s.blocked then Panic else Insert(s.(blocked := s.blocked - {t}), t, OnReady, pri)
  }

  // `thread_yield`
  function Yield(s: Sched, t: Tid, pri: Tid -> int): Outcome {
    match Insert(s, t, OnReady, pri)
    case Whole(s1) => Whole(Schedule(s1))
    case o => o
  }

  // going to sleep on a list with interrupts off
  function Sleep(s: Sched, t: Tid, w: Where, pri: Tid -> int): Outcome {
    match Insert(s, t, w, pri)
    case Whole(s1) => Whole(Block(s1, t))
    case o => o
  }

  // the region of `sema_up` on the guard
  function Up(s: Sched, pri: Tid -> int): Outcome {
    if s.guard == [] then Whole(s.(free := true))
    else
      match Unblock(s.(guard := s.guard[1..]), s.guard[0], pri)
      case Whole(s1) => Whole(s1.(free := true))
      case o => o
  }

  // ---- conditions ----

  ghost function SortedBy(q: seq<Tid>, pri: Tid -> int): seq<Tid> {
    assert MergeSort.StrictWeak(Before(pri), set t | t in q);
    MergeSort.Sort(q, Before(pri), set t | t in q)
  }

  // The front of q, the list of a condition, is popped and made ready.
  function WakeFront(s: Sched, r: bool, q: seq<Tid>, pri: Tid -> int): (o: Outcome)
    requires q != []
    ensures o.Whole? ==> List(o.s, OnCond(r)) == q[1..]
  {
    Unblock(Put(s, OnCond(r), q[1..]).(m := Move(s.m, q[0], Signalled(r))), q[0], pri)
  }

  // `cond_signal` of the writers' condition
  ghost function Signal(s: Sched, pri: Tid -> int): Outcome {
    var q := SortedBy(s.writers, pri);
    if s.writers == [] || q == [] then Whole(s) else WakeFront(s, false, q, pri)
  }

  // `cond_broadcast` of the readers' condition
  function Broadcast(s: Sched, pri: Tid -> int): Outcome
    decreases |s.readers|
  {
    if s.readers == [] then Whole(s)
    else
      match WakeFront(s, true, s.readers, pri)
      case Whole(s1) => Broadcast(s1, pri)
      case o => o
  }

  ghost function Wake(s: Sched, signal: Signal, pri: Tid -> int): Outcome {
    match signal
    case Nobody => Whole(s)
    case OneWriter => Signal(s, pri)
    case AllReaders => Broadcast(s, pri)
  }

  // ---- steps ----

  // Where a thread goes on that has got the guard.
  function WithGuard(c: Pc): Pc
    requires c.Entering? || c.Signalled? || c.Exiting?
  {
    match c
    case Entering(r) => Testing(r)
    case Signalled(r) => Woken(r)
    case Exiting(r) => Leaving(r)
  }

  predicate WantsGuard(c: Pc) { c.Entering? || c.Signalled? || c.Exiting? }

  // one test of `sema_down` on the guard
  function Down(s: Sched, t: Tid, pri: Tid -> int): Outcome
    requires WantsGuard(PcOf(s.m, t))
  {
    if s.free then Whole(s.(free := false, m := Move(s.m, t, WithGuard(PcOf(s.m, t))).(guard := true)))
    else Sleep(s, t, OnGuard, pri)
  }

  // the start of `cond_wait`: onto the condition's list, with the guard still held
  function StartWait(s: Sched, t: Tid, r: bool, pri: Tid -> int): Outcome {
    match Insert(s, t, OnCond(r), pri)
    case Whole(s1) =>
      Whole(s1.(m := Monitor(AddWaiting(s.m.counts, r, 1), false, s.m.pcs[t := Asleep(r)]), gap := s.gap[t := Listed]))
    case o => o
  }

  // its next steps: the release of the guard, with the yield if it woke a higher thread, and blocking
  function GoOnWaiting(s: Sched, t: Tid, pri: Tid -> int): Outcome
    requires t in s.gap
  {
    match s.gap[t]
    case Listed =>
      var woken := if s.guard == [] then None else Some(s.guard[0]);
      (match Up(s, pri)
       case Whole(s1) => Whole(s1.(gap := s.gap[t := Released(woken)]))
       case o => o)
    case Released(w) =>
      if w.Some? && pri(w.value) > pri(t) then Yield(s, t, pri) else Whole(Block(s.(gap := s.gap - {t}), t))
  }

  /** What the running thread t does next in its own code; as is where it comes to the lock. */
  ghost function Go(s: Sched, t: Tid, as_: bool, pri: Tid -> int): Outcome {
    match PcOf(s.m, t)
    case Out => Whole(s.(m := Move(s.m, t, Entering(as_))))
    case Entering(_) => Down(s, t, pri)
    case Signalled(_) => Down(s, t, pri)
    case Exiting(_) => Down(s, t, pri)
    case Testing(r) =>
      if MustWait(s.m.counts, r) then StartWait(s, t, r, pri)
      else Whole(s.(m := Monitor(AddActive(s.m.counts, r, 1), true, s.m.pcs[t := Admitted(r)])))
    case Asleep(_) => if t in s.gap then GoOnWaiting(s, t, pri) else Whole(s)
    case Woken(r) => Whole(s.(m := Monitor(AddWaiting(s.m.counts, r, -1), true, s.m.pcs[t := Testing(r)])))
    case Admitted(r) => Up(s.(m := Move(s.m, t, Inside(r)).(guard := false)), pri)
    case Inside(r) => Whole(s.(m := Move(s.m, t, Exiting(r))))
    case Leaving(r) =>
      var c := AddActive(s.m.counts, r, -1);
      Wake(s.(m := Monitor(c, true, s.m.pcs[t := Left])), WakesAfter(c, r), pri)
    case Left => Up(s.(m := Move(s.m, t, Out).(guard := false)), pri)
  }

  /** Going on in the thread's own code, being made to yield by the timer, going to sleep for other
      reasons outside the monitor's own code, being woken from that by an interrupt, and leaving the
      idle thread. */
  datatype Action = Going(reader: bool) | Yielding | Napping | Rousing(t: Tid) | Dispatching

  predicate Enabled(s: Sched, a: Action) {
    match a
    case Going(_) => s.running.Some?
    case Yielding => s.running.Some?
    case Napping => s.running.Some? && (PcOf(s.m, s.running.value).Out? || PcOf(s.m, s.running.value).Inside?)
    case Rousing(t) => t in s.others
    case Dispatching => s.running.None? && s.ready != []
  }

  ghost function Apply(s: Sched, a: Action, pri: Tid -> int): Outcome
    requires Enabled(s, a)
  {
    match a
    case Going(r) => Go(s, s.running.value, r, pri)
    case Yielding => Yield(s, s.running.value, pri)
    case Napping => Sleep(s, s.running.value, OnOther, pri)
    case Rousing(t) => Unblock(s.(others := Remove(s.others, t)), t, pri)
    case Dispatching => Whole(Schedule(s))
  }

  // ---- the invariant ----

  // t's element is on that list and on no other.
  ghost predicate Only(s: Sched, t: Tid, w: Where) { forall x :: t in List(s, x) <==> x == w }

  predicate PcFits(w: Where, c: Pc) {
    match w
    case OnReady => !c.Asleep?
    case OnGuard => WantsGuard(c)
    case OnCond(r) => c == Asleep(r)
    case OnOther => c.Out? || c.Inside?
  }

  ghost predicate Home(s: Sched, t: Tid, w: Where) {
    Only(s, t, w) && PcFits(w, PcOf(s.m, t)) && (t in s.blocked <==> w != OnReady)
  }

  /** A thread in the gap runs, with its element on the condition's list; any other thread runs with
      its element free, or has it on the one list where it belongs. */
  ghost predicate ThreadOk(s: Sched, t: Tid) {
    if t in s.gap then
      s.running == Some(t) && PcOf(s.m, t).Asleep? && Only(s, t, OnCond(PcOf(s.m, t).reader)) && t !in s.blocked
    else if s.running == Some(t) then !PcOf(s.m, t).Asleep? && !OnList(s, t) && t !in s.blocked
    else if OnList(s, t) then exists w :: Home(s, t, w)
    else PcOf(s.m, t).Out? && t !in s.blocked
  }

  ghost predicate Threads(s: Sched) { (forall w :: NoDup(List(s, w))) && forall t :: ThreadOk(s, t) }

  ghost predicate FreeOk(s: Sched) {
    && (s.free <==> !s.m.guard && forall t :: t in s.gap ==> !s.gap[t].Listed?)
    && forall t :: t in s.gap ==> !s.m.guard
  }

  // Whoever sleeps on the guard while it is free has somebody awake that is about to take it.
  ghost predicate SomeComing(s: Sched) {
    exists t :: (s.running == Some(t) || t in s.ready) && WantsGuard(PcOf(s.m, t))
  }

  ghost predicate NoStrand(s: Sched) { s.guard != [] && s.free ==> SomeComing(s) }

  ghost predicate Sound(s: Sched) { RwLock.Inv(s.m) && Threads(s) && FreeOk(s) && NoStrand(s) }

  // ---- one thread at a time ----

  // Nothing that concerns u has changed.
  ghost predicate SameFor(s: Sched, s': Sched, u: Tid) {
    && (forall w :: u in List(s', w) <==> u in List(s, w)) && PcOf(s'.m, u) == PcOf(s.m, u)
    && (u in s'.blocked <==> u in s.blocked) && (u in s'.gap <==> u in s.gap)
    && (s'.running == Some(u) <==> s.running == Some(u))
  }

  lemma OnListIff(s: Sched, t: Tid)
    ensures OnList(s, t) <==> exists w :: t in List(s, w)
  {
    if t in s.ready { assert t in List(s, OnReady); }
    if t in s.guard { assert t in List(s, OnGuard); }
    if t in s.readers { assert t in List(s, OnCond(true)); }
    if t in s.writers { assert t in List(s, OnCond(false)); }
    if t in s.others { assert t in List(s, OnOther); }
  }

  lemma FrameThread(s: Sched, s': Sched, u: Tid)
    requires ThreadOk(s, u) && SameFor(s, s', u)
    ensures ThreadOk(s', u)
  {
    OnListIff(s, u);
    OnListIff(s', u);
    if u in s.gap {
    } else if s.running != Some(u) && OnList(s, u) {
      var w :| Home(s, u, w);
      assert Home(s', u, w);
    }
  }

  // All threads but t are as before.
  lemma FrameThreads(s: Sched, s': Sched, t: Tid)
    requires Threads(s) && ThreadOk(s', t) && (forall w :: NoDup(List(s', w))) && forall u :: u != t ==> SameFor(s, s', u)
    ensures Threads(s')
  {
    forall u ensures ThreadOk(s', u) { if u != t { FrameThread(s, s', u); } }
  }

  lemma InsertLists(s: Sched, t: Tid, w: Where, pri: Tid -> int)
    requires !OnList(s, t) && forall x :: NoDup(List(s, x))
    ensures Insert(s, t, w, pri).Whole?
    ensures var s' := Insert(s, t, w, pri).s;
            && (forall x, u :: u in List(s', x) <==> u in List(s, x) || (u == t && x == w))
            && (forall x :: NoDup(List(s', x))) && Only(s', t, w)
            && s'.m == s.m && s'.free == s.free && s'.running == s.running && s'.blocked == s.blocked && s'.gap == s.gap
            && (w != OnGuard ==> s'.guard == s.guard)
  {
    OnListIff(s, t);
    var q := List(s, w);
    InsertIn(q, t, Before(pri));
    var s' := Insert(s, t, w, pri).s;
    forall x ensures List(s', x) == if x == w then InsertOrdered(q, t, Before(pri)) else List(s, x) {}
  }

  // An element off its list, at place k.
  lemma CutLists(s: Sched, w: Where, k: nat)
    requires k < |List(s, w)| && forall x :: NoDup(List(s, x))
    ensures var s' := Put(s, w, List(s, w)[..k] + List(s, w)[k + 1..]);
            && (forall x, u :: u in List(s', x) <==> u in List(s, x) && !(u == List(s, w)[k] && x == w))
            && (forall x :: NoDup(List(s', x)))
  {
    var q := List(s, w);
    CutNoDup(q, k);
    var s' := Put(s, w, q[..k] + q[k + 1..]);
    forall x ensures List(s', x) == if x == w then q[..k] + q[k + 1..] else List(s, x) {}
  }

  // ---- the scheduler keeps the threads in place ----

  lemma ScheduleLists(s: Sched)
    requires forall x :: NoDup(List(s, x))
    ensures var s' := Schedule(s);
            && (forall x :: NoDup(List(s', x)))
            && (forall x, u :: u in List(s', x) <==> u in List(s, x) && !(x == OnReady && s'.running == Some(u)))
            && s'.m == s.m && s'.free == s.free && s'.guard == s.guard && s'.blocked == s.blocked && s'.gap == s.gap
  {
    if s.ready != [] {
      CutLists(s, OnReady, 0);
      assert s.ready[..0] + s.ready[1..] == s.ready[1..];
      var s1 := Put(s, OnReady, s.ready[1..]);
      assert forall x :: List(Schedule(s), x) == List(s1, x);
      assert List(s, OnReady)[0] == s.ready[0];
    } else {
      assert forall x :: List(Schedule(s), x) == List(s, x);
    }
  }

  lemma ScheduleThreads(s: Sched)
    requires Threads(s) && s.running == None
    ensures Threads(Schedule(s))
  {
    var s' := Schedule(s);
    ScheduleLists(s);
    if s.ready != [] {
      var h := s.ready[0];
      assert h in List(s, OnReady) && ThreadOk(s, h);
      OnListIff(s, h);
      OnListIff(s', h);
      var w :| Home(s, h, w);
      assert w == OnReady;
      assert ThreadOk(s', h);
      FrameThreads(s, s', h);
    } else {
      assert s' == s;
    }
  }

  // The running thread leaves the CPU with its element on a list.
  lemma ParkThreads(s: Sched, t: Tid, w: Where, pri: Tid -> int, s1: Sched)
    requires Threads(s) && s.running == Some(t) && t !in s.gap && PcFits(w, PcOf(s.m, t)) && Insert(s, t, w, pri) == Whole(s1)
    ensures var s2 := s1.(running := None, blocked := if w == OnReady then s.blocked else s.blocked + {t});
            Threads(s2) && Threads(Schedule(s2))
  {
    assert ThreadOk(s, t);
    InsertLists(s, t, w, pri);
    var s2 := s1.(running := None, blocked := if w == OnReady then s.blocked else s.blocked + {t});
    forall x ensures List(s2, x) == List(s1, x) {}
    OnListIff(s2, t);
    assert t in List(s2, w) && Home(s2, t, w);
    assert ThreadOk(s2, t);
    FrameThreads(s, s2, t);
    ScheduleThreads(s2);
  }

  lemma ScheduleForgets(s: Sched)
    ensures Schedule(s.(running := None)) == Schedule(s)
  {
  }

  lemma SleepThreads(s: Sched, t: Tid, w: Where, pri: Tid -> int)
    requires Threads(s) && s.running == Some(t) && t !in s.gap && PcFits(w, PcOf(s.m, t)) && w != OnReady
    ensures Sleep(s, t, w, pri).Whole? && Threads(Sleep(s, t, w, pri).s)
  {
    assert ThreadOk(s, t);
    InsertLists(s, t, w, pri);
    var s1 := Insert(s, t, w, pri).s;
    ParkThreads(s, t, w, pri, s1);
    ScheduleForgets(s1.(blocked := s1.blocked + {t}));
  }

  lemma YieldThreads(s: Sched, t: Tid, pri: Tid -> int)
    requires Threads(s) && s.running == Some(t) && t !in s.gap
    ensures Yield(s, t, pri).Whole? && Threads(Yield(s, t, pri).s)
  {
    assert ThreadOk(s, t);
    InsertLists(s, t, OnReady, pri);
    var s1 := Insert(s, t, OnReady, pri).s;
    ParkThreads(s, t, OnReady, pri, s1);
    ScheduleForgets(s1);
  }

  // A blocked thread u, taken off its list, becomes ready; its place in the code may change to c.
  lemma UnblockThreads(s: Sched, s1: Sched, u: Tid, w: Where, c: Pc, pri: Tid -> int)
    requires Threads(s) && u in List(s, w) && w != OnReady && s.running != Some(u) && !c.Asleep?
    requires forall x, v :: v in List(s1, x) <==> v in List(s, x) && !(v == u && x == w)
    requires forall x :: NoDup(List(s1, x))
    requires s1.running == s.running && s1.blocked == s.blocked && s1.gap == s.gap
    requires PcOf(s1.m, u) == c && forall v :: v != u ==> PcOf(s1.m, v) == PcOf(s.m, v)
    ensures Unblock(s1, u, pri).Whole? && Threads(Unblock(s1, u, pri).s)
    ensures var s' := Unblock(s1, u, pri).s; u in s'.ready && s'.m == s1.m && s'.gap == s1.gap && s'.running == s1.running
                                              && s'.guard == s1.guard && s'.free == s1.free
    ensures forall x, v :: v in List(Unblock(s1, u, pri).s, x) <==> v in List(s1, x) || (v == u && x == OnReady)
  {
    assert ThreadOk(s, u);
    OnListIff(s, u);
    var h :| Home(s, u, h);
    assert h == w;
    var s2 := s1.(blocked := s1.blocked - {u});
    forall x ensures List(s2, x) == List(s1, x) {}
    OnListIff(s2, u);
    InsertLists(s2, u, OnReady, pri);
    var s' := Unblock(s1, u, pri).s;
    OnListIff(s', u);
    assert u in List(s', OnReady) && Home(s', u, OnReady);
    assert ThreadOk(s', u);
    FrameThreads(s, s', u);
  }

  // The running thread, not in the gap, goes on in its code.
  lemma LocalThreads(s: Sched, s': Sched, t: Tid)
    requires Threads(s) && s.running == Some(t) && t !in s.gap && !PcOf(s'.m, t).Asleep?
    requires forall x :: List(s', x) == List(s, x)
    requires s'.running == s.running && s'.blocked == s.blocked && s'.gap == s.gap
    requires forall u :: u != t ==> PcOf(s'.m, u) == PcOf(s.m, u)
    ensures Threads(s')
  {
    assert ThreadOk(s, t);
    OnListIff(s, t);
    OnListIff(s', t);
    FrameThreads(s, s', t);
  }

  lemma StartWaitThreads(s: Sched, t: Tid, r: bool, pri: Tid -> int)
    requires Threads(s) && s.running == Some(t) && t !in s.gap
    ensures StartWait(s, t, r, pri).Whole? && Threads(StartWait(s, t, r, pri).s)
  {
    assert ThreadOk(s, t);
    InsertLists(s, t, OnCond(r), pri);
    var s1, s' := Insert(s, t, OnCond(r), pri).s, StartWait(s, t, r, pri).s;
    forall x ensures List(s', x) == List(s1, x) {}
    assert Only(s', t, OnCond(r)) && ThreadOk(s', t);
    FrameThreads(s, s', t);
  }

  // Blocking ends the gap: the element already is where it should be.
  lemma BlockThreads(s: Sched, t: Tid)
    requires Threads(s) && t in s.gap
    ensures Threads(Block(s.(gap := s.gap - {t}), t))
  {
    assert ThreadOk(s, t);
    var w := OnCond(PcOf(s.m, t).reader);
    var s2 := s.(gap := s.gap - {t}, running := None, blocked := s.blocked + {t});
    forall x ensures List(s2, x) == List(s, x) {}
    OnListIff(s2, t);
    assert t in List(s2, w) && Home(s2, t, w);
    assert ThreadOk(s2, t);
    FrameThreads(s, s2, t);
    ScheduleThreads(s2);
    ScheduleForgets(s2.(running := s.running));
  }

  // ---- the guard ----

  // Only the running thread can be in the gap.
  lemma GapRuns(s: Sched, u: Tid)
    requires Threads(s) && u in s.gap
    ensures s.running == Some(u) && PcOf(s.m, u).Asleep?
  {
    assert ThreadOk(s, u);
  }

  lemma GuardWaiter(s: Sched, u: Tid)
    requires Threads(s) && u in s.guard
    ensures s.running != Some(u) && WantsGuard(PcOf(s.m, u))
  {
    assert u in List(s, OnGuard) && ThreadOk(s, u);
    OnListIff(s, u);
    var w :| Home(s, u, w);
    assert w == OnGuard;
  }

  // The guard's value and the phase of a thread in the gap place nobody.
  lemma SamePlaces(s: Sched, s': Sched)
    requires Threads(s) && s' == s.(free := s'.free, gap := s'.gap) && s'.gap.Keys == s.gap.Keys
    ensures Threads(s')
  {
    forall x ensures List(s', x) == List(s, x) {}
    forall u ensures ThreadOk(s', u) {
      assert ThreadOk(s, u) && (u in s'.gap.Keys <==> u in s.gap.Keys);
      FrameThread(s, s', u);
    }
  }

  lemma UpWakes(s: Sched, pri: Tid -> int)
    requires Threads(s) && s.guard != []
    ensures var u := s.guard[0]; var o := Unblock(s.(guard := s.guard[1..]), u, pri);
            && o.Whole? && Threads(o.s) && u in o.s.ready && WantsGuard(PcOf(o.s.m, u))
            && o.s.m == s.m && o.s.gap == s.gap && o.s.running == s.running
  {
    var u, s1 := s.guard[0], s.(guard := s.guard[1..]);
    GuardWaiter(s, u);
    CutLists(s, OnGuard, 0);
    assert s.guard[..0] + s.guard[1..] == s.guard[1..];
    assert s1 == Put(s, OnGuard, s.guard[1..]) && List(s, OnGuard)[0] == u && u in List(s, OnGuard);
    UnblockThreads(s, s1, u, OnGuard, PcOf(s.m, u), pri);
  }

  /** `sema_up`: the threads stay in place, the first waiter becomes ready, and nobody is stranded. */
  lemma UpThreads(s: Sched, pri: Tid -> int)
    requires Threads(s)
    ensures Up(s, pri).Whole? && Threads(Up(s, pri).s)
    ensures var s' := Up(s, pri).s; s'.free && s'.m == s.m && s'.gap == s.gap && s'.running == s.running && NoStrand(s')
  {
    if s.guard == [] {
      SamePlaces(s, Up(s, pri).s);
    } else {
      UpWakes(s, pri);
      hide Threads, Unblock;
      SamePlaces(Unblock(s.(guard := s.guard[1..]), s.guard[0], pri).s, Up(s, pri).s);
    }
  }

  // ---- the conditions ----

  // The sleepers of a condition are those on its list.
  lemma AsleepIff(s: Sched, r: bool, u: Tid)
    requires Threads(s)
    ensures u in List(s, OnCond(r)) <==> PcOf(s.m, u) == Asleep(r)
  {
    assert ThreadOk(s, u);
    OnListIff(s, u);
    if u !in s.gap && s.running != Some(u) && OnList(s, u) {
      var w :| Home(s, u, w);
      assert u in List(s, w);
    }
  }

  lemma {:induction false} CountOnce(q: seq<Tid>, x: Tid)
    requires NoDup(q)
    ensures multiset(q)[x] <= 1
  {
    if q != [] {
      assert q == [q[0]] + q[1..] && x in q[1..] ==> x != q[0];
      CountOnce(q[1..], x);
    }
  }

  lemma PermNoDup(q: seq<Tid>, r: seq<Tid>)
    requires NoDup(q) && multiset(r) == multiset(q)
    ensures NoDup(r) && forall x :: x in r <==> x in q
  {
    forall i, j | 0 <= i < j < |r| ensures r[i] != r[j] {
      CountOnce(q, r[j]);
      assert r == r[..j] + r[j..] && r[i] in r[..j] && r[j] in r[j..];
      assert multiset(r)[r[j]] == multiset(r[..j])[r[j]] + multiset(r[j..])[r[j]];
    }
    forall x ensures x in r <==> x in q { assert x in r <==> x in multiset(r); assert x in q <==> x in multiset(q); }
  }

  lemma SortedPerm(q: seq<Tid>, pri: Tid -> int)
    ensures multiset(SortedBy(q, pri)) == multiset(q)
  {
    assert MergeSort.StrictWeak(Before(pri), set t | t in q);
    MergeSort.SortCorrect(q, Before(pri), set t | t in q);
  }

  // What waking changes apart from the lists of the woken.
  ghost predicate SameRest(s: Sched, s': Sched) {
    && s'.free == s.free && s'.guard == s.guard && s'.running == s.running && s'.gap == s.gap
    && s'.m.counts == s.m.counts && s'.m.guard == s.m.guard && forall u :: u in s.ready ==> u in s'.ready
  }

  // The front of q, which has the elements of a list, goes off that list.
  lemma PopLists(s: Sched, w: Where, q: seq<Tid>, s1: Sched)
    requires (forall x :: NoDup(List(s, x))) && NoDup(q) && q != [] && forall v :: v in q <==> v in List(s, w)
    requires forall x :: List(s1, x) == if x == w then q[1..] else List(s, x)
    ensures (forall x :: NoDup(List(s1, x))) && forall x, v :: v in List(s1, x) <==> v in List(s, x) && !(v == q[0] && x == w)
  {
    CutNoDup(q, 0);
    assert q[..0] + q[1..] == q[1..];
  }

  // The front of a condition's list, in whatever order it is, wakes.
  lemma WakeFrontThreads(s: Sched, r: bool, q: seq<Tid>, pri: Tid -> int)
    requires Threads(s) && q != [] && multiset(q) == multiset(List(s, OnCond(r))) && q[0] !in s.gap
    ensures WakeFront(s, r, q, pri).Whole?
    ensures var s' := WakeFront(s, r, q, pri).s;
            Threads(s') && s'.m == Move(s.m, q[0], Signalled(r)) && SameRest(s, s') && PcOf(s.m, q[0]) == Asleep(r)
  {
    var u := q[0];
    PermNoDup(List(s, OnCond(r)), q);
    AsleepIff(s, r, u);
    assert ThreadOk(s, u);
    var s1 := Put(s, OnCond(r), q[1..]).(m := Move(s.m, u, Signalled(r)));
    PopLists(s, OnCond(r), q, s1);
    hide ThreadOk, Threads, NoDup;
    UnblockThreads(s, s1, u, OnCond(r), Signalled(r), pri);
    var s' := Unblock(s1, u, pri).s;
    forall v | v in s.ready ensures v in s'.ready { assert v in List(s1, OnReady) && v in List(s', OnReady); }
  }

  lemma SignalThreads(s: Sched, pri: Tid -> int)
    requires Threads(s) && s.gap == map[]
    ensures Signal(s, pri).Whole?
    ensures var s' := Signal(s, pri).s; Threads(s') && SameRest(s, s') && Wakes(s.m.pcs, OneWriter, s'.m.pcs)
  {
    var q := SortedBy(s.writers, pri);
    SortedPerm(s.writers, pri);
    if s.writers == [] {
      forall u ensures PcOf(s.m, u) != Asleep(false) { AsleepIff(s, false, u); }
      assert forall u :: u in s.m.pcs ==> PcOf(s.m, u) == s.m.pcs[u];
    } else {
      assert s.writers[0] in multiset(q);
      WakeFrontThreads(s, false, q, pri);
      assert q[0] in s.m.pcs && s.m.pcs[q[0]] == Asleep(false);
    }
  }

  lemma {:induction false} FirstEqual(q: seq<Tid>, x: Tid, pri: Tid -> int) returns (k: nat)
    requires MergeSort.Class(q, x, Before(pri)) != []
    ensures k < |q| && q[k] == MergeSort.Class(q, x, Before(pri))[0] && pri(q[k]) == pri(x)
    ensures forall i :: 0 <= i < k ==> pri(q[i]) != pri(x)
  {
    if pri(q[0]) == pri(x) {
      k := 0;
    } else {
      var j := FirstEqual(q[1..], x, pri);
      k := j + 1;
    }
  }

  lemma NoneAboveFront(q: seq<Tid>, r: seq<Tid>, pri: Tid -> int, i: nat)
    requires multiset(r) == multiset(q) && MergeSort.Sorted(r, Before(pri)) && i < |q|
    ensures r != [] && pri(q[i]) <= pri(r[0])
  {
    assert q[i] in multiset(r);
    var j :| 0 <= j < |r| && r[j] == q[i];
    if j > 0 { assert !Before(pri)(r[j], r[0]); }
  }

  // The first of those with the highest priority comes to the front.
  lemma SortedFront(q: seq<Tid>, pri: Tid -> int) returns (k: nat)
    requires q != []
    ensures k < |q| && SortedBy(q, pri) != [] && SortedBy(q, pri)[0] == q[k]
    ensures forall i :: 0 <= i < |q| ==> pri(q[i]) <= pri(q[k])
    ensures forall i :: 0 <= i < k ==> pri(q[i]) < pri(q[k])
  {
    var r, less, dom := SortedBy(q, pri), Before(pri), set t | t in q;
    assert MergeSort.StrictWeak(less, dom);
    MergeSort.SortCorrect(q, less, dom);
    hide SortedBy, MergeSort.Sort, MergeSort.StrictWeak, MergeSort.Sorted;
    forall i: nat | i < |q| ensures r != [] && pri(q[i]) <= pri(r[0]) { NoneAboveFront(q, r, pri, i); }
    assert r[0] in multiset(q) by { NoneAboveFront(q, r, pri, 0); }
    var x := r[0];
    assert x in dom;
    assert MergeSort.Class(r, x, less)[0] == x;
    k := FirstEqual(q, x, pri);
  }

  lemma InsertBag(s: seq<Tid>, x: Tid, less: (Tid, Tid) -> bool)
    ensures multiset(InsertOrdered(s, x, less)) == multiset(s) + multiset{x}
  {
    var k := InsertPoint(s, x, less);
    hide InsertPoint;
    assert s == s[..k] + s[k..];
  }

  lemma WokenReady(s: Sched, q: seq<Tid>, pri: Tid -> int)
    requires q != [] && WakeFront(s, false, q, pri).Whole?
    ensures var s' := WakeFront(s, false, q, pri).s;
            s'.writers == q[1..] && multiset(s'.ready) == multiset(s.ready) + multiset{q[0]}
  {
    hide InsertOrdered, OnList;
    InsertBag(s.ready, q[0], Before(pri));
  }

  // w, a sleeping writer, is off the condition's list and ready; nobody else moves.
  ghost predicate WriterWoken(s: Sched, w: Tid, s': Sched) {
    && s'.m == Move(s.m, w, Signalled(false)) && multiset(s'.writers) + multiset{w} == multiset(s.writers)
    && multiset(s'.ready) == multiset(s.ready) + multiset{w} && SameRest(s, s')
  }

  lemma FrontWoken(s: Sched, q: seq<Tid>, pri: Tid -> int)
    requires Threads(s) && s.gap == map[] && q != [] && multiset(q) == multiset(s.writers)
    ensures WakeFront(s, false, q, pri).Whole? && WriterWoken(s, q[0], WakeFront(s, false, q, pri).s)
  {
    hide Threads, WakeFront, SameRest;
    WakeFrontThreads(s, false, q, pri);
    WokenReady(s, q, pri);
    assert q == [q[0]] + q[1..];
  }

  /** `cond_signal` wakes, of the sleeping writers, the one that runs highest at that moment, the
      first on the list among equals. */
  lemma SignalHighest(s: Sched, pri: Tid -> int) returns (k: nat)
    requires Threads(s) && s.gap == map[] && s.writers != []
    ensures k < |s.writers| && (forall i :: 0 <= i < |s.writers| ==> pri(s.writers[i]) <= pri(s.writers[k]))
    ensures forall i :: 0 <= i < k ==> pri(s.writers[i]) < pri(s.writers[k])
    ensures Signal(s, pri).Whole? && WriterWoken(s, s.writers[k], Signal(s, pri).s)
  {
    hide SortedBy, Threads, WakeFront, WriterWoken;
    k := SortedFront(s.writers, pri);
    SortedPerm(s.writers, pri);
    FrontWoken(s, SortedBy(s.writers, pri), pri);
  }

  lemma {:induction false} BroadcastThreads(s: Sched, pri: Tid -> int)
    requires Threads(s) && s.gap == map[]
    ensures Broadcast(s, pri).Whole?
    ensures var s' := Broadcast(s, pri).s; Threads(s') && SameRest(s, s') && Wakes(s.m.pcs, AllReaders, s'.m.pcs)
    decreases |s.readers|
  {
    if s.readers == [] {
      forall u ensures PcOf(s.m, u) != Asleep(true) { AsleepIff(s, true, u); }
      assert forall u :: u in s.m.pcs ==> PcOf(s.m, u) == s.m.pcs[u];
    } else {
      WakeFrontThreads(s, true, s.readers, pri);
      var s1 := WakeFront(s, true, s.readers, pri).s;
      assert s1.readers == s.readers[1..] by { assert List(s1, OnCond(true)) == s.readers[1..]; }
      BroadcastThreads(s1, pri);
    }
  }

  // ---- every step ----

  ghost predicate Advances(m: Monitor, m': Monitor) { m' == m || exists t :: Step(m, t, m') }

  lemma CountsKept(m: Monitor, t: Tid, m': Monitor)
    requires RwLock.Inv(m) && Step(m, t, m')
    ensures RwLock.Inv(m') && Advances(m, m')
  {
    RwLock.StepKeeps(m, t, m');
  }

  lemma HolderGuards(m: Monitor, t: Tid)
    requires RwLock.Inv(m) && HoldsGuard(PcOf(m, t))
    ensures m.guard
  {
    assert t in Guards(m.pcs);
  }

  // The outcome is a sound state reached by at most one step of the monitor.
  ghost predicate Good(s: Sched, o: Outcome) { o.Whole? && Sound(o.s) && Advances(s.m, o.s.m) }

  // No element in the gap but the running thread's.
  lemma NoGap(s: Sched, t: Tid)
    requires Threads(s) && s.running == Some(t) && !PcOf(s.m, t).Asleep?
    ensures s.gap == map[]
  {
    forall u ensures u !in s.gap { if u in s.gap { GapRuns(s, u); } }
    assert s.gap.Keys == {};
  }

  // A step within the thread's own code that leaves the guard as it is.
  lemma LocalGood(s: Sched, t: Tid, m': Monitor)
    requires Sound(s) && s.running == Some(t) && !PcOf(s.m, t).Asleep? && !WantsGuard(PcOf(s.m, t)) && !PcOf(m', t).Asleep?
    requires Step(s.m, t, m') && m'.guard == s.m.guard && forall u :: u != t ==> PcOf(m', u) == PcOf(s.m, u)
    ensures Good(s, Whole(s.(m := m')))
  {
    var s' := s.(m := m');
    NoGap(s, t);
    CountsKept(s.m, t, m');
    forall x ensures List(s', x) == List(s, x) {}
    LocalThreads(s, s', t);
    if SomeComing(s) {
      var u :| (s.running == Some(u) || u in s.ready) && WantsGuard(PcOf(s.m, u));
      assert WantsGuard(PcOf(s'.m, u));
    }
  }

  lemma DownGood(s: Sched, t: Tid, pri: Tid -> int)
    requires Sound(s) && s.running == Some(t) && WantsGuard(PcOf(s.m, t))
    ensures Good(s, Down(s, t, pri))
  {
    NoGap(s, t);
    if s.free {
      var m' := Move(s.m, t, WithGuard(PcOf(s.m, t))).(guard := true);
      var s' := s.(free := false, m := m');
      CountsKept(s.m, t, m');
      forall x ensures List(s', x) == List(s, x) {}
      LocalThreads(s, s', t);
    } else {
      SleepThreads(s, t, OnGuard, pri);
      InsertLists(s, t, OnGuard, pri);
      var s1 := Insert(s, t, OnGuard, pri).s;
      var s2 := s1.(blocked := s1.blocked + {t});
      forall x ensures List(s2, x) == List(s1, x) {}
      ScheduleLists(s2);
    }
  }

  // Giving up the guard, outside `cond_wait`.
  lemma ReleaseGood(s: Sched, t: Tid, m': Monitor, pri: Tid -> int)
    requires Sound(s) && s.running == Some(t) && HoldsGuard(PcOf(s.m, t)) && !PcOf(m', t).Asleep?
    requires Step(s.m, t, m') && !m'.guard && forall u :: u != t ==> PcOf(m', u) == PcOf(s.m, u)
    ensures Good(s, Up(s.(m := m'), pri))
  {
    var s1 := s.(m := m');
    NoGap(s, t);
    CountsKept(s.m, t, m');
    forall x ensures List(s1, x) == List(s, x) {}
    LocalThreads(s, s1, t);
    UpThreads(s1, pri);
  }

  lemma StartWaitGood(s: Sched, t: Tid, r: bool, pri: Tid -> int)
    requires Sound(s) && s.running == Some(t) && PcOf(s.m, t) == Testing(r) && MustWait(s.m.counts, r)
    ensures Good(s, StartWait(s, t, r, pri))
  {
    NoGap(s, t);
    HolderGuards(s.m, t);
    StartWaitThreads(s, t, r, pri);
    var s' := StartWait(s, t, r, pri).s;
    CountsKept(s.m, t, s'.m);
    assert s'.gap[t].Listed?;
    InsertLists(s, t, OnCond(r), pri);
    assert !s.free && !s'.free;
  }

  lemma LeaveGood(s: Sched, t: Tid, pri: Tid -> int)
    requires Sound(s) && s.running == Some(t) && PcOf(s.m, t).Leaving?
    ensures Good(s, Go(s, t, true, pri)) && Go(s, t, false, pri) == Go(s, t, true, pri)
  {
    NoGap(s, t);
    HolderGuards(s.m, t);
    var r := PcOf(s.m, t).reader;
    var c := AddActive(s.m.counts, r, -1);
    var s1 := s.(m := Monitor(c, true, s.m.pcs[t := Left]));
    forall x ensures List(s1, x) == List(s, x) {}
    LocalThreads(s, s1, t);
    WakeGood(s1, WakesAfter(c, r), pri);
    var s' := Wake(s1, WakesAfter(c, r), pri).s;
    CountsKept(s.m, t, s'.m);
    assert !s'.free;
  }

  lemma WakeGood(s: Sched, signal: Signal, pri: Tid -> int)
    requires Threads(s) && s.gap == map[]
    ensures Wake(s, signal, pri).Whole?
    ensures var s' := Wake(s, signal, pri).s; Threads(s') && SameRest(s, s') && Wakes(s.m.pcs, signal, s'.m.pcs)
  {
    match signal
    case Nobody =>
    case OneWriter => SignalThreads(s, pri);
    case AllReaders => BroadcastThreads(s, pri);
  }

  // Who is coming for the guard still is after a change of the running thread.
  lemma ScheduleComing(s: Sched, u: Tid)
    requires u in s.ready && WantsGuard(PcOf(s.m, u))
    ensures SomeComing(Schedule(s))
  {
    assert s.ready == [s.ready[0]] + s.ready[1..];
    assert Schedule(s).running == Some(u) || u in Schedule(s).ready;
  }

  // The running thread has left the CPU; s2 is the state before the next one is chosen.
  lemma ParkGood(s: Sched, t: Tid, s2: Sched)
    requires Sound(s) && s.running == Some(t) && Threads(Schedule(s2)) && FreeOk(s2)
    requires s2.m == s.m && (s2.guard != [] && s2.free ==> s.guard != [] && s.free)
    requires (forall u :: u in s.ready ==> u in s2.ready) && (WantsGuard(PcOf(s.m, t)) ==> t in s2.ready)
    ensures Good(s, Whole(Schedule(s2)))
  {
    var s' := Schedule(s2);
    if s'.guard != [] && s'.free {
      var u :| (s.running == Some(u) || u in s.ready) && WantsGuard(PcOf(s.m, u));
      ScheduleComing(s2, u);
    }
  }

  lemma YieldGood(s: Sched, t: Tid, pri: Tid -> int)
    requires Sound(s) && s.running == Some(t) && t !in s.gap
    ensures Good(s, Yield(s, t, pri))
  {
    YieldThreads(s, t, pri);
    assert ThreadOk(s, t);
    InsertLists(s, t, OnReady, pri);
    var s1 := Insert(s, t, OnReady, pri).s;
    forall u | u in s.ready + [t] ensures u in s1.ready { assert u in List(s1, OnReady) <==> u in List(s, OnReady) || u == t; }
    ParkGood(s, t, s1);
  }

  lemma NapGood(s: Sched, t: Tid, pri: Tid -> int)
    requires Sound(s) && s.running == Some(t) && (PcOf(s.m, t).Out? || PcOf(s.m, t).Inside?)
    ensures Good(s, Sleep(s, t, OnOther, pri))
  {
    NoGap(s, t);
    SleepThreads(s, t, OnOther, pri);
    assert ThreadOk(s, t);
    ParkGood(s, t, Insert(s, t, OnOther, pri).s.(blocked := s.blocked + {t}));
  }

  lemma GapReleaseGood(s: Sched, t: Tid, pri: Tid -> int)
    requires Sound(s) && t in s.gap && s.gap[t].Listed?
    ensures Good(s, GoOnWaiting(s, t, pri))
  {
    GapRuns(s, t);
    UpThreads(s, pri);
    var s1, s' := Up(s, pri).s, GoOnWaiting(s, t, pri).s;
    SamePlaces(s1, s');
    forall u | u in s'.gap ensures !s'.gap[u].Listed? { if u != t { GapRuns(s, u); } }
    if SomeComing(s1) {
      var u :| (s1.running == Some(u) || u in s1.ready) && WantsGuard(PcOf(s1.m, u));
      assert WantsGuard(PcOf(s'.m, u));
    }
  }

  lemma GapBlockGood(s: Sched, t: Tid)
    requires Sound(s) && t in s.gap && !s.gap[t].Listed?
    ensures Good(s, Whole(Block(s.(gap := s.gap - {t}), t)))
  {
    GapRuns(s, t);
    BlockThreads(s, t);
    var s2 := s.(gap := s.gap - {t}, blocked := s.blocked + {t});
    forall u ensures u !in s2.gap { if u in s.gap { GapRuns(s, u); } }
    forall u | u in s.gap ensures !s.gap[u].Listed? { GapRuns(s, u); }
    ParkGood(s, t, s2);
  }

  lemma RouseGood(s: Sched, u: Tid, pri: Tid -> int)
    requires Sound(s) && u in s.others
    ensures Good(s, Unblock(s.(others := Remove(s.others, u)), u, pri))
  {
    var k := RemoveSplits(s.others, u);
    var s1 := s.(others := Remove(s.others, u));
    CutLists(s, OnOther, k);
    assert s1 == Put(s, OnOther, Remove(s.others, u)) && List(s, OnOther)[k] == u && u in List(s, OnOther);
    OtherSleeper(s, u);
    UnblockThreads(s, s1, u, OnOther, PcOf(s.m, u), pri);
    var s' := Unblock(s1, u, pri).s;
    if SomeComing(s) {
      var v :| (s.running == Some(v) || v in s.ready) && WantsGuard(PcOf(s.m, v));
      if v in s.ready { assert v in List(s1, OnReady) && v in List(s', OnReady); }
      assert WantsGuard(PcOf(s'.m, v)) && (s'.running == Some(v) || v in s'.ready);
    }
  }

  lemma OtherSleeper(s: Sched, u: Tid)
    requires Threads(s) && u in s.others
    ensures s.running != Some(u) && (PcOf(s.m, u).Out? || PcOf(s.m, u).Inside?)
  {
    assert u in List(s, OnOther) && ThreadOk(s, u);
    OnListIff(s, u);
    var w :| Home(s, u, w);
    assert w == OnOther;
  }

  lemma DispatchGood(s: Sched)
    requires Sound(s) && s.running == None
    ensures Good(s, Whole(Schedule(s)))
  {
    ScheduleThreads(s);
    if s.guard != [] && s.free {
      var u :| (s.running == Some(u) || u in s.ready) && WantsGuard(PcOf(s.m, u));
      ScheduleComing(s, u);
    }
  }

  /** The running thread is in the gap and is put on the ready list: by the timer, or because its
      release of the guard woke a thread above it. */
  ghost predicate YieldsInGap(s: Sched, a: Action, pri: Tid -> int) {
    && s.running.Some? && s.running.value in s.gap
    && (a.Yielding? || (a.Going? && match s.gap[s.running.value]
                                    case Listed => false
                                    case Released(w) => w.Some? && pri(w.value) > pri(s.running.value)))
  }

  lemma GapGood(s: Sched, t: Tid, a: Action, pri: Tid -> int)
    requires Sound(s) && s.running == Some(t) && t in s.gap && (a.Going? || a.Yielding?)
    ensures if YieldsInGap(s, a, pri) then Apply(s, a, pri) == Torn else Good(s, Apply(s, a, pri))
  {
    GapRuns(s, t);
    assert ThreadOk(s, t) && t in List(s, OnCond(PcOf(s.m, t).reader));
    OnListIff(s, t);
    if a.Going? {
      if s.gap[t].Listed? { GapReleaseGood(s, t, pri); } else { GapBlockGood(s, t); }
    }
  }

  lemma GoGood(s: Sched, t: Tid, r: bool, pri: Tid -> int)
    requires Sound(s) && s.running == Some(t) && t !in s.gap
    ensures Good(s, Go(s, t, r, pri))
  {
    assert ThreadOk(s, t);
    match PcOf(s.m, t)
    case Out => LocalGood(s, t, Move(s.m, t, Entering(r)));
    case Entering(_) => DownGood(s, t, pri);
    case Signalled(_) => DownGood(s, t, pri);
    case Exiting(_) => DownGood(s, t, pri);
    case Testing(k) =>
      HolderGuards(s.m, t);
      if MustWait(s.m.counts, k) {
        StartWaitGood(s, t, k, pri);
      } else {
        LocalGood(s, t, Monitor(AddActive(s.m.counts, k, 1), true, s.m.pcs[t := Admitted(k)]));
      }
    case Woken(k) =>
      HolderGuards(s.m, t);
      LocalGood(s, t, Monitor(AddWaiting(s.m.counts, k, -1), true, s.m.pcs[t := Testing(k)]));
    case Admitted(k) => ReleaseGood(s, t, Move(s.m, t, Inside(k)).(guard := false), pri);
    case Inside(k) => LocalGood(s, t, Move(s.m, t, Exiting(k)));
    case Leaving(_) => LeaveGood(s, t, pri);
    case Left => ReleaseGood(s, t, Move(s.m, t, Out).(guard := false), pri);
  }

  /** A step tears a list if and only if it puts a thread in the gap on the ready list. Otherwise no
      assertion fails, and the state stays sound and has moved by at most one step of the monitor. */
  lemma StepTornIff(s: Sched, a: Action, pri: Tid -> int)
    requires Sound(s) && Enabled(s, a)
    ensures if YieldsInGap(s, a, pri) then Apply(s, a, pri) == Torn else Good(s, Apply(s, a, pri))
  {
    match a
    case Going(r) =>
      if s.running.value in s.gap { GapGood(s, s.running.value, a, pri); } else { GoGood(s, s.running.value, r, pri); }
    case Yielding =>
      if s.running.value in s.gap { GapGood(s, s.running.value, a, pri); } else { YieldGood(s, s.running.value, pri); }
    case Napping => NapGood(s, s.running.value, pri);
    case Rousing(u) => RouseGood(s, u, pri);
    case Dispatching => DispatchGood(s);
  }

  // ---- runs ----

  // Nobody is at the lock; everybody runs, is ready, or sleeps elsewhere.
  ghost predicate Initial(s: Sched) {
    && s.m == Monitor(Counts(0, 0, 0, 0), false, map[]) && s.free && s.gap == map[]
    && s.guard == [] && s.readers == [] && s.writers == [] && NoDup(s.ready) && NoDup(s.others)
    && (forall t :: t in s.ready ==> t !in s.others && s.running != Some(t))
    && (forall t :: t in s.others ==> s.running != Some(t)) && s.blocked == set t | t in s.others
  }

  lemma InitialSound(s: Sched)
    requires Initial(s)
    ensures Sound(s)
  {
    RwLock.InitialInv();
    forall t ensures ThreadOk(s, t) {
      if t in s.ready { assert Home(s, t, OnReady); }
      if t in s.others { assert Home(s, t, OnOther); }
    }
  }

  /** The outcomes of a run; only the last can be torn. The priorities may be others at each step. */
  ghost predicate IsSchedRun(os: seq<Outcome>, acts: seq<Action>, pris: seq<Tid -> int>) {
    && |os| == |acts| + 1 == |pris| + 1 && os[0].Whole? && Initial(os[0].s)
    && forall k :: 0 <= k < |acts| ==> Takes(os[k], acts[k], pris[k], os[k + 1])
  }

  ghost predicate Takes(o: Outcome, a: Action, pri: Tid -> int, o': Outcome) {
    o.Whole? && Enabled(o.s, a) && o' == Apply(o.s, a, pri)
  }

  lemma {:induction false} RunSound(os: seq<Outcome>, acts: seq<Action>, pris: seq<Tid -> int>, k: nat)
    requires IsSchedRun(os, acts, pris) && k < |os|
    ensures !os[k].Panic? && (os[k].Whole? ==> Sound(os[k].s))
  {
    if k == 0 {
      InitialSound(os[0].s);
    } else {
      RunSound(os, acts, pris, k - 1);
      assert Takes(os[k - 1], acts[k - 1], pris[k - 1], os[k]);
      StepTornIff(os[k - 1].s, acts[k - 1], pris[k - 1]);
    }
  }

  // The j-th step puts a thread in the gap on the ready list.
  ghost predicate Disturbed(os: seq<Outcome>, acts: seq<Action>, pris: seq<Tid -> int>, j: nat)
    requires j < |acts| == |pris| < |os|
  {
    os[j].Whole? && YieldsInGap(os[j].s, acts[j], pris[j])
  }

  ghost predicate Undisturbed(os: seq<Outcome>, acts: seq<Action>, pris: seq<Tid -> int>, k: nat)
    requires k <= |acts| == |pris| < |os|
  {
    forall j :: 0 <= j < k ==> !Disturbed(os, acts, pris, j)
  }

  lemma RunShape(os: seq<Outcome>, acts: seq<Action>, pris: seq<Tid -> int>, k: nat)
    requires IsSchedRun(os, acts, pris) && k < |os|
    ensures |os| == |acts| + 1 == |pris| + 1 && os[0].Whole? && (k > 0 ==> Takes(os[k - 1], acts[k - 1], pris[k - 1], os[k]))
  {
    if k > 0 {
      var j := k - 1;
      assert Takes(os[j], acts[j], pris[j], os[j + 1]);
    }
  }

  lemma WholeNext(os: seq<Outcome>, acts: seq<Action>, pris: seq<Tid -> int>, k: nat)
    requires IsSchedRun(os, acts, pris) && 0 < k < |os|
    ensures os[k - 1].Whole? && (os[k].Whole? <==> !Disturbed(os, acts, pris, k - 1))
  {
    RunShape(os, acts, pris, k);
    RunSound(os, acts, pris, k - 1);
    hide IsSchedRun, Sound, Apply, Enabled, YieldsInGap;
    StepTornIff(os[k - 1].s, acts[k - 1], pris[k - 1]);
  }

  lemma UndisturbedNext(os: seq<Outcome>, acts: seq<Action>, pris: seq<Tid -> int>, k: nat)
    requires 0 < k <= |acts| == |pris| < |os|
    ensures Undisturbed(os, acts, pris, k) <==> Undisturbed(os, acts, pris, k - 1) && !Disturbed(os, acts, pris, k - 1)
  {
    hide Disturbed;
  }

  /** In every run the lists are whole if and only if no thread in the gap of `cond_wait` has been put
      on the ready list; and the assertion of `thread_unblock` never fails. */
  lemma {:induction false} RunWholeIff(os: seq<Outcome>, acts: seq<Action>, pris: seq<Tid -> int>, k: nat)
    requires IsSchedRun(os, acts, pris) && k < |os|
    ensures os[k].Whole? <==> Undisturbed(os, acts, pris, k)
    ensures !os[k].Panic?
  {
    RunShape(os, acts, pris, k);
    RunSound(os, acts, pris, k);
    if k > 0 {
      hide *;
      RunWholeIff(os, acts, pris, k - 1);
      WholeNext(os, acts, pris, k);
      UndisturbedNext(os, acts, pris, k);
    }
  }

  /** As long as the lists are whole, the monitor's part of a run is a run of the monitor. */
  lemma {:induction false} RunIsMonitorRun(os: seq<Outcome>, acts: seq<Action>, pris: seq<Tid -> int>, k: nat)
    returns (ms: seq<Monitor>, ts: seq<Tid>)
    requires IsSchedRun(os, acts, pris) && k < |os| && os[k].Whole?
    ensures RwLock.IsRun(ms, ts) && ms[|ts|] == os[k].s.m
  {
    if k == 0 {
      ms, ts := [os[0].s.m], [];
    } else {
      assert Takes(os[k - 1], acts[k - 1], pris[k - 1], os[k]);
      ms, ts := RunIsMonitorRun(os, acts, pris, k - 1);
      RunSound(os, acts, pris, k - 1);
      StepTornIff(os[k - 1].s, acts[k - 1], pris[k - 1]);
      ms, ts := MonitorOn(ms, ts, os[k].s.m);
    }
  }

  lemma MonitorOn(ms: seq<Monitor>, ts: seq<Tid>, m': Monitor) returns (ms': seq<Monitor>, ts': seq<Tid>)
    requires RwLock.IsRun(ms, ts) && Advances(ms[|ts|], m')
    ensures RwLock.IsRun(ms', ts') && ms'[|ts'|] == m'
  {
    ms', ts' := ms, ts;
    if m' != ms[|ts|] {
      var t :| Step(ms[|ts|], t, m');
      ms', ts' := ms + [m'], ts + [t];
      forall i | 0 <= i < |ts'| ensures Step(ms'[i], ts'[i], ms'[i + 1]) {
        if i < |ts| { assert Step(ms[i], ts[i], ms[i + 1]); }
      }
    }
  }

  /** So a writer that is in shares with nobody, in every whole state of every run. */
  lemma RunWriterAlone(os: seq<Outcome>, acts: seq<Action>, pris: seq<Tid -> int>, k: nat, w: Tid, t: Tid)
    requires IsSchedRun(os, acts, pris) && k < |os| && os[k].Whole? && w != t && IsActive(PcOf(os[k].s.m, w), false)
    ensures !IsActive(PcOf(os[k].s.m, t), true) && !IsActive(PcOf(os[k].s.m, t), false)
  {
    var ms, ts := RunIsMonitorRun(os, acts, pris, k);
    RwLock.WriterAlone(ms, ts, |ts|, w, t);
  }

  // In the protocol, and awake or asleep for reasons of its own.
  ghost predicate Mover(s: Sched, t: Tid) {
    !PcOf(s.m, t).Out? && (s.running == Some(t) || t in s.ready || t in s.others)
  }

  lemma MoverIs(s: Sched, t: Tid)
    requires Threads(s) && !PcOf(s.m, t).Out? && !PcOf(s.m, t).Asleep? && t !in s.guard
    ensures Mover(s, t)
  {
    assert ThreadOk(s, t);
    OnListIff(s, t);
    if s.running != Some(t) {
      var w :| Home(s, t, w);
      assert t in List(s, w);
    }
  }

  /** In every whole state of every run, if somebody sleeps on a condition or on the guard, some
      thread in the protocol runs, is ready, or sleeps inside for reasons of its own. */
  lemma RunNobodyStuck(os: seq<Outcome>, acts: seq<Action>, pris: seq<Tid -> int>, k: nat) returns (t: Tid)
    requires IsSchedRun(os, acts, pris) && k < |os| && os[k].Whole?
    requires os[k].s.readers != [] || os[k].s.writers != [] || os[k].s.guard != []
    ensures Mover(os[k].s, t)
  {
    RunSound(os, acts, pris, k);
    t := SoundMover(os[k].s);
  }

  lemma SoundMover(s: Sched) returns (t: Tid)
    requires Sound(s) && (s.readers != [] || s.writers != [] || s.guard != [])
    ensures Mover(s, t)
  {
    if s.m.guard {
      t := Member(Guards(s.m.pcs));
      if t in s.guard { GuardWaiter(s, t); }
      MoverIs(s, t);
    } else if u :| u in s.gap {
      t := u;
      GapRuns(s, t);
    } else if s.guard != [] {
      t :| (s.running == Some(t) || t in s.ready) && WantsGuard(PcOf(s.m, t));
    } else {
      var r := s.readers != [];
      var u := List(s, OnCond(r))[0];
      AsleepIff(s, r, u);
      assert u in s.m.pcs && s.m.pcs[u] == Asleep(r);
      FreeHope(s.m);
      t := AwakeThread(s.m, r);
      MoverIs(s, t);
    }
  }
}
