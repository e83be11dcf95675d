/** The readers-writers lock (`synch.c`): a monitor with a guard lock and two Mesa-style condition
    variables. Any number of threads take steps in any order; a step is what happens between
    two points where another thread may run. */
module RwLock {
  import opened Queues

  type Tid = nat

  /** Where a thread is. From Testing on to Left, but for Asleep, Signalled and Inside, it holds
      the guard. */
  datatype Pc =
    | Out
    | Entering(reader: bool)   // waits for the guard, to acquire
    | Testing(reader: bool)    // at the loop condition
    | Asleep(reader: bool)     // in cond_wait, on the condition's list
    | Signalled(reader: bool)  // in cond_wait, off the list, waits for the guard
    | Woken(reader: bool)      // back from cond_wait
    | Admitted(reader: bool)   // counted, still holds the guard
    | Inside(reader: bool)
    | Exiting(reader: bool)    // waits for the guard, to release
    | Leaving(reader: bool)    // has the guard, still counted
    | Left                     // no longer counted, still holds the guard

  datatype Counts = Counts(ar: int, wr: int, aw: int, ww: int)

  datatype Signal = Nobody | OneWriter | AllReaders

  datatype Monitor = Monitor(counts: Counts, guard: bool, pcs: map<Tid, Pc>)

  // ---- the code on the counters ----

  predicate MustWait(c: Counts, reader: bool) { if reader then c.aw + c.ww > 0 else c.ar + c.aw > 0 }

  function AddWaiting(c: Counts, reader: bool, n: int): Counts {
    if reader then c.(wr := c.wr + n) else c.(ww := c.ww + n)
  }

  function AddActive(c: Counts, reader: bool, n: int): Counts {
    if reader then c.(ar := c.ar + n) else c.(aw := c.aw + n)
  }

  // Whom a release wakes; c is after the decrement.
  function WakesAfter(c: Counts, reader: bool): Signal {
    if reader then
      if c.ar == 0 && c.ww > 0 then OneWriter else Nobody
    else if c.ww > 0 then OneWriter
    else if c.wr > 0 then AllReaders
    else Nobody
  }

  // ---- the threads ----

  function PcOf(m: Monitor, t: Tid): Pc { if t in m.pcs then m.pcs[t] else Out }

  function Move(m: Monitor, t: Tid, c: Pc): Monitor { m.(pcs := m.pcs[t := c]) }

  predicate HoldsGuard(c: Pc) { c.Testing? || c.Woken? || c.Admitted? || c.Leaving? || c.Left? }

  // What cond_signal and cond_broadcast do to the sleepers.
  ghost predicate Wakes(pcs: map<Tid, Pc>, s: Signal, pcs': map<Tid, Pc>) {
    match s
    case Nobody => pcs' == pcs
    case OneWriter =>
      if exists t :: t in pcs && pcs[t] == Asleep(false) then
        exists t :: t in pcs && pcs[t] == Asleep(false) && pcs' == pcs[t := Signalled(false)]
      else
        pcs' == pcs
    case AllReaders =>
      && pcs'.Keys == pcs.Keys
      && forall t :: t in pcs ==> pcs'[t] == if pcs[t] == Asleep(true) then Signalled(true) else pcs[t]
  }

  /** A step of thread t. */
  ghost predicate Step(m: Monitor, t: Tid, m': Monitor) {
    match PcOf(m, t)
    case Out => exists r :: m' == Move(m, t, Entering(r))
    case Entering(r) => !m.guard && m' == Move(m, t, Testing(r)).(guard := true)
    case Testing(r) =>
      if MustWait(m.counts, r) then
        m' == Monitor(AddWaiting(m.counts, r, 1), false, m.pcs[t := Asleep(r)])
      else
        m' == Monitor(AddActive(m.counts, r, 1), true, m.pcs[t := Admitted(r)])
    case Asleep(_) => false
    case Signalled(r) => !m.guard && m' == Move(m, t, Woken(r)).(guard := true)
    case Woken(r) => m' == Monitor(AddWaiting(m.counts, r, -1), true, m.pcs[t := Testing(r)])
    case Admitted(r) => m' == Move(m, t, Inside(r)).(guard := false)
    case Inside(r) => m' == Move(m, t, Exiting(r))
    case Exiting(r) => !m.guard && m' == Move(m, t, Leaving(r)).(guard := true)
    case Leaving(r) =>
      var c := AddActive(m.counts, r, -1);
      m'.counts == c && m'.guard && Wakes(m.pcs[t := Left], WakesAfter(c, r), m'.pcs)
    case Left => m' == Move(m, t, Out).(guard := false)
  }

  // ---- the invariant ----

  predicate IsActive(c: Pc, r: bool) {
    (c.Admitted? || c.Inside? || c.Exiting? || c.Leaving?) && c.reader == r
  }

  predicate IsWaiting(c: Pc, r: bool) { (c.Asleep? || c.Signalled? || c.Woken?) && c.reader == r }

  // A writer on its way from a signal to its next test.
  predicate InFlight(c: Pc) { (c.Signalled? || c.Woken? || c.Testing?) && !c.reader }

  ghost function Active(pcs: map<Tid, Pc>, r: bool): set<Tid> { set t | t in pcs && IsActive(pcs[t], r) }

  ghost function Waiting(pcs: map<Tid, Pc>, r: bool): set<Tid> { set t | t in pcs && IsWaiting(pcs[t], r) }

  ghost function Guards(pcs: map<Tid, Pc>): set<Tid> { set t | t in pcs && HoldsGuard(pcs[t]) }

  ghost predicate SomeAsleep(pcs: map<Tid, Pc>, r: bool) { exists t :: t in pcs && pcs[t] == Asleep(r) }

  ghost predicate SomeInFlight(pcs: map<Tid, Pc>) { exists t :: t in pcs && InFlight(pcs[t]) }

  ghost predicate WriterTesting(pcs: map<Tid, Pc>) { exists t :: t in pcs && pcs[t] == Testing(false) }

  ghost predicate Counted(m: Monitor) {
    && m.counts.ar == |Active(m.pcs, true)| && m.counts.aw == |Active(m.pcs, false)|
    && m.counts.wr == |Waiting(m.pcs, true)| && m.counts.ww == |Waiting(m.pcs, false)|
    && |Guards(m.pcs)| == if m.guard then 1 else 0
  }

  ghost predicate Excluding(c: Counts) { c.aw <= 1 && (c.aw == 1 ==> c.ar == 0) }

  ghost predicate WriterHope(m: Monitor) {
    SomeAsleep(m.pcs, false) ==> m.counts.ar + m.counts.aw > 0 || SomeInFlight(m.pcs)
  }

  ghost predicate ReaderHope(m: Monitor) {
    SomeAsleep(m.pcs, true) ==> m.counts.aw + m.counts.ww > 0 || WriterTesting(m.pcs)
  }

  ghost predicate Inv(m: Monitor) { Counted(m) && Excluding(m.counts) && WriterHope(m) && ReaderHope(m) }

  // ---- one thread moves ----

  lemma MoveActive(pcs: map<Tid, Pc>, t: Tid, c: Pc, r: bool)
    ensures |Active(pcs[t := c], r)| == |Active(pcs, r)|
              - (if t in pcs && IsActive(pcs[t], r) then 1 else 0) + (if IsActive(c, r) then 1 else 0)
  {
    var a := Active(pcs, r);
    assert Active(pcs[t := c], r) == if IsActive(c, r) then a + {t} else a - {t};
  }

  lemma MoveWaiting(pcs: map<Tid, Pc>, t: Tid, c: Pc, r: bool)
    ensures |Waiting(pcs[t := c], r)| == |Waiting(pcs, r)|
              - (if t in pcs && IsWaiting(pcs[t], r) then 1 else 0) + (if IsWaiting(c, r) then 1 else 0)
  {
    var w := Waiting(pcs, r);
    assert Waiting(pcs[t := c], r) == if IsWaiting(c, r) then w + {t} else w - {t};
  }

  lemma MoveGuards(pcs: map<Tid, Pc>, t: Tid, c: Pc)
    ensures |Guards(pcs[t := c])| == |Guards(pcs)|
              - (if t in pcs && HoldsGuard(pcs[t]) then 1 else 0) + (if HoldsGuard(c) then 1 else 0)
    ensures t in pcs && HoldsGuard(pcs[t]) ==> |Guards(pcs)| > 0
  {
    var g := Guards(pcs);
    assert Guards(pcs[t := c]) == if HoldsGuard(c) then g + {t} else g - {t};
  }

  // The counters follow the thread when they change by what the move changes.
  ghost predicate Follows(c: Counts, old_: Pc, new_: Pc, c': Counts) {
    && c'.ar == c.ar - (if IsActive(old_, true) then 1 else 0) + (if IsActive(new_, true) then 1 else 0)
    && c'.aw == c.aw - (if IsActive(old_, false) then 1 else 0) + (if IsActive(new_, false) then 1 else 0)
    && c'.wr == c.wr - (if IsWaiting(old_, true) then 1 else 0) + (if IsWaiting(new_, true) then 1 else 0)
    && c'.ww == c.ww - (if IsWaiting(old_, false) then 1 else 0) + (if IsWaiting(new_, false) then 1 else 0)
  }

  lemma MoveCounted(m: Monitor, t: Tid, c: Pc, m': Monitor)
    requires Counted(m) && m'.pcs == m.pcs[t := c] && Follows(m.counts, PcOf(m, t), c, m'.counts)
    requires m'.guard == HoldsGuard(c) || (!HoldsGuard(PcOf(m, t)) && m'.guard == m.guard)
    requires !HoldsGuard(PcOf(m, t)) && HoldsGuard(c) ==> !m.guard && m'.guard
    requires !HoldsGuard(PcOf(m, t)) && !HoldsGuard(c) ==> m'.guard == m.guard
    ensures Counted(m')
  {
    MoveActive(m.pcs, t, c, true);
    MoveActive(m.pcs, t, c, false);
    MoveWaiting(m.pcs, t, c, true);
    MoveWaiting(m.pcs, t, c, false);
    MoveGuards(m.pcs, t, c);
  }

  lemma MoveSome(pcs: map<Tid, Pc>, t: Tid, c: Pc)
    ensures forall r :: SomeAsleep(pcs[t := c], r) ==> SomeAsleep(pcs, r) || c == Asleep(r)
    ensures InFlight(c) ==> SomeInFlight(pcs[t := c])
    ensures SomeInFlight(pcs) && !(t in pcs && InFlight(pcs[t])) ==> SomeInFlight(pcs[t := c])
    ensures c == Testing(false) ==> WriterTesting(pcs[t := c])
    ensures WriterTesting(pcs) && !(t in pcs && pcs[t] == Testing(false)) ==> WriterTesting(pcs[t := c])
  {
    var pcs' := pcs[t := c];
    assert t in pcs' && pcs'[t] == c;
    assert forall u :: u in pcs && u != t ==> u in pcs' && pcs'[u] == pcs[u];
  }

  lemma OneGuard(pcs: map<Tid, Pc>, t: Tid, u: Tid)
    requires |Guards(pcs)| <= 1 && t in Guards(pcs) && u in Guards(pcs)
    ensures t == u
  {
    SubsetCount({t, u}, Guards(pcs));
    assert t != u ==> |{t, u}| == 2;
  }

  // ---- every step keeps the invariant ----

  lemma SleepersCount(pcs: map<Tid, Pc>, r: bool)
    ensures SomeAsleep(pcs, r) ==> |Waiting(pcs, r)| > 0
  {
    if SomeAsleep(pcs, r) {
      var t :| t in pcs && pcs[t] == Asleep(r);
      assert t in Waiting(pcs, r);
    }
  }

  // Waking up moves nobody in or out of the counted sets.
  lemma WakesCounts(pcs: map<Tid, Pc>, s: Signal, pcs': map<Tid, Pc>, r: bool)
    requires Wakes(pcs, s, pcs')
    ensures Guards(pcs') == Guards(pcs) && Active(pcs', r) == Active(pcs, r) && Waiting(pcs', r) == Waiting(pcs, r)
  {
    WakesOnly(pcs, s, pcs');
  }

  lemma WakesOnly(pcs: map<Tid, Pc>, s: Signal, pcs': map<Tid, Pc>)
    requires Wakes(pcs, s, pcs')
    ensures pcs'.Keys == pcs.Keys
    ensures forall t :: t in pcs ==> pcs'[t] == pcs[t] || (pcs[t].Asleep? && pcs'[t] == Signalled(pcs[t].reader))
  {
  }

  // A signal that finds a sleeping writer puts one in flight; a broadcast leaves no reader asleep.
  lemma WakesSome(pcs: map<Tid, Pc>, s: Signal, pcs': map<Tid, Pc>)
    requires Wakes(pcs, s, pcs')
    ensures forall r :: SomeAsleep(pcs', r) ==> SomeAsleep(pcs, r)
    ensures s == OneWriter && SomeAsleep(pcs, false) ==> SomeInFlight(pcs')
    ensures s == AllReaders ==> !SomeAsleep(pcs', true)
  {
    WakesOnly(pcs, s, pcs');
    if s == OneWriter && SomeAsleep(pcs, false) {
      var t :| t in pcs && pcs[t] == Asleep(false) && pcs' == pcs[t := Signalled(false)];
      assert InFlight(pcs'[t]);
    }
  }

  lemma LeaveKeeps(m: Monitor, t: Tid, m': Monitor)
    requires Inv(m) && Step(m, t, m') && PcOf(m, t).Leaving?
    ensures Inv(m')
  {
    var r := PcOf(m, t).reader;
    var m1 := Monitor(m'.counts, true, m.pcs[t := Left]);
    MoveCounted(m, t, Left, m1);
    MoveSome(m.pcs, t, Left);
    assert t in Active(m.pcs, r) && t in Guards(m.pcs);
    var s := WakesAfter(m'.counts, r);
    WakesCounts(m1.pcs, s, m'.pcs, true);
    WakesCounts(m1.pcs, s, m'.pcs, false);
    WakesSome(m1.pcs, s, m'.pcs);
    SleepersCount(m1.pcs, false);
    SleepersCount(m1.pcs, true);
    assert !WriterTesting(m.pcs) by {
      forall u | u in m.pcs ensures m.pcs[u] != Testing(false) {
        if u in Guards(m.pcs) { OneGuard(m.pcs, t, u); }
      }
    }
  }

  // Steps that neither sleep nor leave: the thread moves, and the counters with it.
  lemma MoveKeeps(m: Monitor, t: Tid, c: Pc, m': Monitor)
    requires Inv(m) && m'.pcs == m.pcs[t := c] && Follows(m.counts, PcOf(m, t), c, m'.counts) && Counted(m')
    requires !c.Asleep? && Excluding(m'.counts) && (InFlight(PcOf(m, t)) ==> InFlight(c) || c == Admitted(false))
    requires m.counts.ar + m.counts.aw <= m'.counts.ar + m'.counts.aw
    requires m.counts.aw + m.counts.ww <= m'.counts.aw + m'.counts.ww || c == Testing(false)
    requires PcOf(m, t) == Testing(false) ==> c == Admitted(false)
    ensures Inv(m')
  {
    MoveSome(m.pcs, t, c);
  }

  // Taking the guard, giving it up, or neither.
  lemma GuardKeeps(m: Monitor, t: Tid, m': Monitor)
    requires Inv(m) && Step(m, t, m') && !PcOf(m, t).Testing? && !PcOf(m, t).Woken? && !PcOf(m, t).Leaving?
    ensures Inv(m')
  {
    var c := m'.pcs[t];
    MoveGuards(m.pcs, t, c);
    MoveCounted(m, t, c, m');
    MoveKeeps(m, t, c, m');
  }

  lemma WokenKeeps(m: Monitor, t: Tid, m': Monitor)
    requires Inv(m) && Step(m, t, m') && PcOf(m, t).Woken?
    ensures Inv(m')
  {
    MoveCounted(m, t, m'.pcs[t], m');
    MoveKeeps(m, t, m'.pcs[t], m');
  }

  lemma TestKeeps(m: Monitor, t: Tid, m': Monitor)
    requires Inv(m) && Step(m, t, m') && PcOf(m, t).Testing?
    ensures Inv(m')
  {
    var c := m'.pcs[t];
    MoveCounted(m, t, c, m');
    if c.Asleep? { MoveSome(m.pcs, t, c); } else { MoveKeeps(m, t, c, m'); }
  }

  lemma StepKeeps(m: Monitor, t: Tid, m': Monitor)
    requires Inv(m) && Step(m, t, m')
    ensures Inv(m')
  {
    hide Inv, Step;
    match PcOf(m, t)
    case Leaving(_) => LeaveKeeps(m, t, m');
    case Testing(_) => TestKeeps(m, t, m');
    case Woken(_) => WokenKeeps(m, t, m');
    case _ => GuardKeeps(m, t, m');
  }

  // ---- runs ----

  ghost predicate IsRun(ms: seq<Monitor>, ts: seq<Tid>) {
    && |ms| == |ts| + 1 && ms[0] == Monitor(Counts(0, 0, 0, 0), false, map[])
    && forall k :: 0 <= k < |ts| ==> Step(ms[k], ts[k], ms[k + 1])
  }

  lemma InitialInv()
    ensures Inv(Monitor(Counts(0, 0, 0, 0), false, map[]))
  {
    assert Active(map[], true) == {} && Active(map[], false) == {} && Guards(map[]) == {};
    assert Waiting(map[], true) == {} && Waiting(map[], false) == {};
  }

  lemma {:induction false} RunKeeps(ms: seq<Monitor>, ts: seq<Tid>, k: nat)
    requires IsRun(ms, ts) && k < |ms|
    ensures Inv(ms[k])
  {
    if k > 0 {
      RunKeeps(ms, ts, k - 1);
      StepKeeps(ms[k - 1], ts[k - 1], ms[k]);
    } else {
      InitialInv();
    }
  }

  /** A writer that is in shares with nobody, in every state of every run. */
  lemma WriterAlone(ms: seq<Monitor>, ts: seq<Tid>, k: nat, w: Tid, t: Tid)
    requires IsRun(ms, ts) && k < |ms| && w != t
    requires IsActive(PcOf(ms[k], w), false)
    ensures !IsActive(PcOf(ms[k], t), true) && !IsActive(PcOf(ms[k], t), false)
  {
    RunKeeps(ms, ts, k);
    var pcs := ms[k].pcs;
    assert w in Active(pcs, false) && |Active(pcs, false)| == 1 && |Active(pcs, true)| == 0 by {
      SubsetCount({w}, Active(pcs, false));
    }
    assert t !in Active(pcs, true);
    SubsetCount({w}, Active(pcs, false));
    assert t !in Active(pcs, false);
  }

  ghost predicate SomeSignalled(pcs: map<Tid, Pc>) { exists t :: t in pcs && pcs[t] == Signalled(false) }

  /** Whenever the guard is free, a sleeping writer has somebody inside or a signalled writer
      to wait for, and a sleeping reader a writer that is inside or waiting. */
  lemma NobodyForgotten(ms: seq<Monitor>, ts: seq<Tid>, k: nat)
    requires IsRun(ms, ts) && k < |ms| && !ms[k].guard
    ensures var m := ms[k];
            && (SomeAsleep(m.pcs, false) ==> m.counts.ar + m.counts.aw > 0 || SomeSignalled(m.pcs))
            && (SomeAsleep(m.pcs, true) ==> m.counts.aw + m.counts.ww > 0)
  {
    RunKeeps(ms, ts, k);
    FreeHope(ms[k]);
  }

  lemma FreeHope(m: Monitor)
    requires Inv(m) && !m.guard
    ensures SomeAsleep(m.pcs, false) ==> m.counts.ar + m.counts.aw > 0 || SomeSignalled(m.pcs)
    ensures SomeAsleep(m.pcs, true) ==> m.counts.aw + m.counts.ww > 0
  {
    forall t | t in m.pcs ensures !HoldsGuard(m.pcs[t]) { assert t !in Guards(m.pcs); }
  }

  // A thread holding the guard, or that needs only a free guard, can go on.
  lemma CanStep(m: Monitor, t: Tid) returns (m': Monitor)
    requires !PcOf(m, t).Asleep? && (!m.guard || HoldsGuard(PcOf(m, t)) || PcOf(m, t).Out? || PcOf(m, t).Inside?)
    ensures Step(m, t, m')
  {
    match PcOf(m, t)
    case Out => m' := Move(m, t, Entering(true));
    case Entering(r) => m' := Move(m, t, Testing(r)).(guard := true);
    case Testing(r) =>
      if MustWait(m.counts, r) {
        m' := Monitor(AddWaiting(m.counts, r, 1), false, m.pcs[t := Asleep(r)]);
      } else {
        m' := Monitor(AddActive(m.counts, r, 1), true, m.pcs[t := Admitted(r)]);
      }
    case Signalled(r) => m' := Move(m, t, Woken(r)).(guard := true);
    case Woken(r) => m' := Monitor(AddWaiting(m.counts, r, -1), true, m.pcs[t := Testing(r)]);
    case Admitted(r) => m' := Move(m, t, Inside(r)).(guard := false);
    case Inside(r) => m' := Move(m, t, Exiting(r));
    case Exiting(r) => m' := Move(m, t, Leaving(r)).(guard := true);
    case Leaving(r) =>
      var c := AddActive(m.counts, r, -1);
      var pcs' := CanWake(m.pcs[t := Left], WakesAfter(c, r));
      m' := Monitor(c, true, pcs');
    case Left => m' := Move(m, t, Out).(guard := false);
  }

  lemma CanWake(pcs: map<Tid, Pc>, s: Signal) returns (pcs': map<Tid, Pc>)
    ensures Wakes(pcs, s, pcs')
  {
    pcs' := pcs;
    if s == OneWriter && SomeAsleep(pcs, false) {
      var t :| t in pcs && pcs[t] == Asleep(false);
      pcs' := pcs[t := Signalled(false)];
    } else if s == AllReaders {
      pcs' := map t | t in pcs :: if pcs[t] == Asleep(true) then Signalled(true) else pcs[t];
    }
  }

  /** As long as somebody sleeps, a thread that is in the protocol and awake can take a step. */
  lemma NoDeadlock(ms: seq<Monitor>, ts: seq<Tid>, k: nat, r: bool) returns (t: Tid, m': Monitor)
    requires IsRun(ms, ts) && k < |ms| && SomeAsleep(ms[k].pcs, r)
    ensures t in ms[k].pcs && !ms[k].pcs[t].Out? && Step(ms[k], t, m')
  {
    RunKeeps(ms, ts, k);
    var m := ms[k];
    if m.guard {
      t := Member(Guards(m.pcs));
    } else {
      NobodyForgotten(ms, ts, k);
      t := AwakeThread(m, r);
    }
    m' := CanStep(m, t);
  }

  lemma AwakeThread(m: Monitor, r: bool) returns (t: Tid)
    requires Inv(m) && !m.guard && SomeAsleep(m.pcs, r)
    requires SomeAsleep(m.pcs, false) ==> m.counts.ar + m.counts.aw > 0 || SomeSignalled(m.pcs)
    requires SomeAsleep(m.pcs, true) ==> m.counts.aw + m.counts.ww > 0
    ensures t in m.pcs && !m.pcs[t].Asleep? && !m.pcs[t].Out?
  {
    if |Active(m.pcs, true)| > 0 {
      t := Member(Active(m.pcs, true));
    } else if |Active(m.pcs, false)| > 0 {
      t := Member(Active(m.pcs, false));
    } else {
      if r {
        t := Member(Waiting(m.pcs, false));
        if !m.pcs[t].Asleep? { return; }
      }
      t :| t in m.pcs && m.pcs[t] == Signalled(false);
    }
  }

  // ---- the lock itself ----

  /** The four counters, and with them where every thread is. */
  class Lock {
    var AR: int
    var WR: int
    var AW: int
    var WW: int
    ghost var monitor: Monitor

    ghost predicate Valid()
      reads this
    {
      Inv(monitor) && monitor.counts == Counts(AR, WR, AW, WW)
    }

    // `rw_lock_init`
    constructor ()
      ensures Valid() && monitor == Monitor(Counts(0, 0, 0, 0), false, map[])
    {
      AR, WR, AW, WW := 0, 0, 0, 0;
      monitor := Monitor(Counts(0, 0, 0, 0), false, map[]);
      new;
      InitialInv();
    }

    /** One turn of the loop of `rw_lock_acquire` by t. It goes to sleep exactly if a writer is in or
        waiting, for a reader, or anybody is in, for a writer; otherwise it is in, a writer alone. */
    method AcquireTurn(t: Tid, reader: bool) returns (waits: bool)
      requires Valid() && PcOf(monitor, t) == Testing(reader)
      modifies this
      ensures Valid() && Step(old(monitor), t, monitor)
      ensures PcOf(monitor, t) == if waits then Asleep(reader) else Admitted(reader)
      ensures waits <==> Blocked(old(monitor).pcs, reader)
    {
      hide Inv, Blocked, Step;
      ghost var m := monitor;
      TurnWaits(m, reader);
      if reader {
        waits := AW + WW > 0;
        if waits { WR := WR + 1; } else { AR := AR + 1; }
      } else {
        waits := AR + AW > 0;
        if waits { WW := WW + 1; } else { AW := AW + 1; }
      }
      monitor := Turned(m, t, reader);
      TurnSteps(m, t, reader);
    }

    /** After cond_wait: t no longer counts as waiting, and every other waiting thread still does. */
    method AfterWait(t: Tid, reader: bool)
      requires Valid() && PcOf(monitor, t) == Woken(reader)
      modifies this
      ensures Valid() && Step(old(monitor), t, monitor) && PcOf(monitor, t) == Testing(reader)
      ensures Waiting(monitor.pcs, reader) == Waiting(old(monitor).pcs, reader) - {t}
      ensures WR == |Waiting(monitor.pcs, true)| && WW == |Waiting(monitor.pcs, false)|
    {
      ghost var m := monitor;
      if reader { WR := WR - 1; } else { WW := WW - 1; }
      monitor := Monitor(Counts(AR, WR, AW, WW), true, m.pcs[t := Testing(reader)]);
      StepKeeps(m, t, monitor);
    }

    /** `rw_lock_release` by t with the guard held. Readers left inside: nobody is woken. A writer
        waits: one sleeping writer is. A writer leaves and none waits: all sleeping readers are. So
        if the last reader or a writer leaves and a writer sleeps, a writer is on its way. */
    method Release(t: Tid, reader: bool) returns (wakes: Signal)
      requires Valid() && PcOf(monitor, t) == Leaving(reader)
      modifies this
      ensures Valid() && Step(old(monitor), t, monitor) && PcOf(monitor, t) == Left
      ensures SomeAsleep(monitor.pcs, false) && (!reader || AR == 0) ==> SomeInFlight(monitor.pcs)
      ensures !reader && WW == 0 ==> !SomeAsleep(monitor.pcs, true)
      ensures WakesExactly(old(monitor).pcs, t, reader, monitor.pcs)
    {
      ghost var m := monitor;
      wakes := Nobody;
      if reader {
        AR := AR - 1;
        if AR == 0 && WW > 0 { wakes := OneWriter; }
      } else {
        AW := AW - 1;
        if WW > 0 { wakes := OneWriter; } else if WR > 0 { wakes := AllReaders; }
      }
      ghost var pcs := CanWake(m.pcs[t := Left], wakes);
      monitor := Monitor(Counts(AR, WR, AW, WW), true, pcs);
      ReleaseWakes(m, t, wakes, monitor);
      ReleaseExact(m, t, wakes, monitor);
      StepKeeps(m, t, monitor);
    }
  }

  // The monitor after a turn of the loop.
  function Turned(m: Monitor, t: Tid, reader: bool): Monitor {
    if MustWait(m.counts, reader) then Monitor(AddWaiting(m.counts, reader, 1), false, m.pcs[t := Asleep(reader)])
    else Monitor(AddActive(m.counts, reader, 1), true, m.pcs[t := Admitted(reader)])
  }

  lemma TurnSteps(m: Monitor, t: Tid, reader: bool)
    requires Inv(m) && PcOf(m, t) == Testing(reader)
    ensures Step(m, t, Turned(m, t, reader)) && Inv(Turned(m, t, reader))
  {
    StepKeeps(m, t, Turned(m, t, reader));
  }

  // A writer is in or waiting, for a reader; anybody is in, for a writer.
  ghost predicate Blocked(pcs: map<Tid, Pc>, reader: bool) {
    Active(pcs, false) + (if reader then Waiting(pcs, false) else Active(pcs, true)) != {}
  }

  lemma TurnWaits(m: Monitor, reader: bool)
    requires Inv(m)
    ensures MustWait(m.counts, reader) <==> Blocked(m.pcs, reader)
  {
  }

  // Who is woken when t leaves, by who is in and who waits.
  ghost predicate WakesExactly(pcs: map<Tid, Pc>, t: Tid, reader: bool, pcs': map<Tid, Pc>) {
    var left := pcs[t := Left];
    if reader && Active(pcs, true) != {t} then pcs' == left
    else if Waiting(pcs, false) != {} then
      if SomeAsleep(pcs, false) then exists w :: w in pcs && pcs[w] == Asleep(false) && pcs' == left[w := Signalled(false)]
      else pcs' == left
    else if reader then pcs' == left
    else pcs'.Keys == left.Keys && forall u :: u in left ==> pcs'[u] == if left[u] == Asleep(true) then Signalled(true) else left[u]
  }

  lemma LastReader(m: Monitor, t: Tid)
    requires Counted(m) && PcOf(m, t) == Leaving(true)
    ensures m.counts.ar == 1 <==> Active(m.pcs, true) == {t}
  {
    assert t in Active(m.pcs, true);
    if m.counts.ar == 1 {
      assert |Active(m.pcs, true) - {t}| == 0;
    }
  }

  lemma ReleaseExact(m: Monitor, t: Tid, s: Signal, m': Monitor)
    requires Inv(m) && PcOf(m, t).Leaving? && m'.counts == AddActive(m.counts, PcOf(m, t).reader, -1)
    requires s == WakesAfter(m'.counts, PcOf(m, t).reader) && Wakes(m.pcs[t := Left], s, m'.pcs)
    ensures WakesExactly(m.pcs, t, PcOf(m, t).reader, m'.pcs)
  {
    var left := m.pcs[t := Left];
    if PcOf(m, t).reader { LastReader(m, t); }
    SleepersCount(m.pcs, true);
    assert forall r :: SomeAsleep(left, r) <==> SomeAsleep(m.pcs, r) by {
      forall r, u | u in m.pcs && m.pcs[u] == Asleep(r) ensures u in left && left[u] == Asleep(r) {}
    }
    hide Inv, Active, Waiting;
  }

  lemma ReleaseWakes(m: Monitor, t: Tid, s: Signal, m': Monitor)
    requires Inv(m) && PcOf(m, t).Leaving? && m'.guard && m'.counts == AddActive(m.counts, PcOf(m, t).reader, -1)
    requires s == WakesAfter(m'.counts, PcOf(m, t).reader) && Wakes(m.pcs[t := Left], s, m'.pcs)
    ensures Step(m, t, m') && PcOf(m', t) == Left
    ensures SomeAsleep(m'.pcs, false) && (!PcOf(m, t).reader || m'.counts.ar == 0) ==> SomeInFlight(m'.pcs)
    ensures !PcOf(m, t).reader && m'.counts.ww == 0 ==> !SomeAsleep(m'.pcs, true)
  {
    var pcs := m.pcs[t := Left];
    WakesOnly(pcs, s, m'.pcs);
    WakesSome(pcs, s, m'.pcs);
    MoveSome(m.pcs, t, Left);
    SleepersCount(m.pcs, true);
    SleepersCount(m.pcs, false);
  }
}
