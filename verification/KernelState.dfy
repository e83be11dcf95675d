/** The scheduler, semaphores and locks of the kernel as one state, and the
    interrupt-off regions of `synch.c` and `thread.c` as functions on it. */
module KernelState {
  import opened Queues

  type Tid = int
  type Sid = int
  // A lock carries its own semaphore; both go by the same number.
  type Lid = Sid

  // The list a thread's `queue` field points at.
  datatype Queue = ReadyQ | WaitersQ(sema: Sid)

  // Where a thread that does not run is, or will resume, in its own code:
  // in the loop of `sema_down`, or between the two halves of `lock_release`.
  datatype Pc = Free | InDown(sema: Sid) | Releasing(lock: Lid)

  datatype Thread = Thread(
    bPri: int, ePri: int, donatedFor: Option<Lid>, lockQueue: seq<Lid>, queue: Option<Queue>, pc: Pc)

  datatype Lock = Lock(holder: Option<Tid>, state: int, pri: int)

  datatype Sema = Sema(value: nat, waiters: seq<Tid>)

  // `running` is None while the idle thread runs.
  datatype State = State(
    threads: map<Tid, Thread>, locks: map<Lid, Lock>, semas: map<Sid, Sema>, ready: seq<Tid>, running: Option<Tid>)

  // The assertion `donee != NULL` of the donation walk can fail.
  datatype Outcome = Panic | Done(s: State)

  const PRI_MAX := 63

  // Total lookups, so that the steps need no side conditions.
  function Th(s: State, t: Tid): Thread {
    if t in s.threads then s.threads[t] else Thread(0, 0, None, [], None, Free)
  }

  function Lk(s: State, l: Lid): Lock {
    if l in s.locks then s.locks[l] else Lock(None, 1, 0)
  }

  function Sm(s: State, x: Sid): Sema {
    if x in s.semas then s.semas[x] else Sema(0, [])
  }

  function EPri(ths: map<Tid, Thread>, t: Tid): int {
    if t in ths then ths[t].ePri else 0
  }

  function LPri(lks: map<Lid, Lock>, l: Lid): int {
    if l in lks then lks[l].pri else 0
  }

  function PutTh(s: State, t: Tid, th: Thread): State { s.(threads := s.threads[t := th]) }

  function PutLk(s: State, l: Lid, lk: Lock): State { s.(locks := s.locks[l := lk]) }

  function PutSm(s: State, x: Sid, sm: Sema): State { s.(semas := s.semas[x := sm]) }

  // `thread_before` with `grater_thread_pri`: strict, so equals stay first come first served.
  function ThreadBefore(ths: map<Tid, Thread>): (Tid, Tid) -> bool {
    (a, b) => EPri(ths, a) > EPri(ths, b)
  }

  // `lock_before` is not strict: an equal lock goes in front.
  function LockBefore(lks: map<Lid, Lock>): (Lid, Lid) -> bool {
    (a, b) => LPri(lks, a) >= LPri(lks, b)
  }

  function InsertThread(ths: map<Tid, Thread>, q: seq<Tid>, t: Tid): seq<Tid> {
    InsertOrdered(q, t, ThreadBefore(ths))
  }

  function InsertLock(lks: map<Lid, Lock>, q: seq<Lid>, l: Lid): seq<Lid> {
    InsertOrdered(q, l, LockBefore(lks))
  }

  // `state` is an int8_t.
  function Wrap8(x: int): int { (x + 128) % 256 - 128 }

  function QueueOf(s: State, q: Queue): seq<Tid> {
    match q
    case ReadyQ => s.ready
    case WaitersQ(x) => Sm(s, x).waiters
  }

  function SetQueue(s: State, q: Queue, ts: seq<Tid>): State {
    match q
    case ReadyQ => s.(ready := ts)
    case WaitersQ(x) => PutSm(s, x, Sm(s, x).(waiters := ts))
  }

  // ---- thread.c ----

  // `thread_enqueue`
  function Enqueue(s: State, t: Tid): State {
    var s1 := PutTh(s, t, Th(s, t).(queue := Some(ReadyQ)));
    s1.(ready := InsertThread(s1.threads, s1.ready, t))
  }

  // `schedule` with `thread_schedule_prio`, once the running thread has given up the CPU
  function Schedule(s: State): State {
    if s.ready == [] then s.(running := None) else s.(running := Some(s.ready[0]), ready := s.ready[1..])
  }

  // `thread_yield`
  function Yield(s: State, t: Tid): State { Schedule(Enqueue(s, t)) }

  // `thread_set_priority`, without the yield that may follow it
  function SetPriority(s: State, t: Tid, p: int): State {
    var th := Th(s, t);
    if p == th.bPri then s
    else if p > th.ePri || th.lockQueue == [] then PutTh(s, t, th.(ePri := p, bPri := p))
    else PutTh(s, t, th.(bPri := p))
  }

  // `thread_create`: `init_thread`, then `thread_unblock`
  function Create(s: State, t: Tid, p: int): State {
    Enqueue(PutTh(s, t, Thread(p, p, None, [], None, Free)), t)
  }

  // ---- synch.c ----

  // The body of the `sema_down` loop when the value is 0: queue up, block, reschedule.
  function Sleep(s: State, t: Tid, x: Sid): State {
    var s1 := PutSm(s, x, Sm(s, x).(waiters := InsertThread(s.threads, Sm(s, x).waiters, t)));
    Schedule(PutTh(s1, t, Th(s, t).(queue := Some(WaitersQ(x)), pc := InDown(x))))
  }

  function SetValue(s: State, x: Sid, v: nat): State { PutSm(s, x, Sm(s, x).(value := v)) }

  // The end of `lock_acquire`: t becomes the holder of l.
  function Own(s: State, t: Tid, l: Lid): State {
    var s1 := PutLk(s, l, Lk(s, l).(pri := EPri(s.threads, t), holder := Some(t)));
    PutTh(s1, t, Th(s, t).(donatedFor := None, pc := Free, lockQueue := InsertLock(s1.locks, Th(s, t).lockQueue, l)))
  }

  // One test of the `sema_down` loop by the running thread t, and what follows its success.
  function TryFinish(s: State, t: Tid, x: Sid): State {
    if Sm(s, x).value == 0 then Sleep(s, t, x)
    else
      var s1 := SetValue(s, x, Sm(s, x).value - 1);
      if x in s.locks then Own(s1, t, x) else PutTh(s1, t, Th(s1, t).(pc := Free))
  }

  // The interrupt-off region of `sema_up`.
  function Wake(s: State, x: Sid): State {
    var sm := Sm(s, x);
    if sm.waiters == [] then SetValue(s, x, sm.value + 1)
    else Enqueue(PutSm(s, x, Sema(sm.value + 1, sm.waiters[1..])), sm.waiters[0])
  }

  function Requeue(s: State, t: Tid): State {
    match Th(s, t).queue
    case None => s
    case Some(q) => SetQueue(s, q, InsertThread(s.threads, Remove(QueueOf(s, q), t), t))
  }

  // The lock half of one turn of the donation loop: l, held by d, is raised to p.
  function RaiseLock(s: State, l: Lid, d: Tid, p: int): State {
    var s1 := PutLk(s, l, Lk(s, l).(pri := p));
    PutTh(s1, d, Th(s, d).(lockQueue := InsertLock(s1.locks, Remove(Th(s, d).lockQueue, l), l)))
  }

  // The thread half: d is raised to p and put back in order in the list it stands in.
  function RaiseThread(s: State, d: Tid, p: int): State {
    Requeue(PutTh(s, d, Th(s, d).(ePri := p)), d)
  }

  // One turn of the loop when neither the assertion nor the first exit fires.
  function DonateTurn(s: State, l: Lid, d: Tid, p: int): State {
    var s1 := RaiseLock(s, l, d, p);
    if p <= EPri(s.threads, d) then s1 else RaiseThread(s1, d, p)
  }

  // The locks a donation at priority p can still raise; each turn removes one.
  ghost function Below(s: State, p: int): set<Lid> { set l | l in s.locks && s.locks[l].pri < p }

  // `donate_pri_acquire` from the turn at lock l on, with the given donor.
  function Walk(s: State, donor: Tid, l: Lid): (r: Outcome)
    requires l in s.locks
    decreases |Below(s, EPri(s.threads, donor))|
  {
    var p := EPri(s.threads, donor);
    match s.locks[l].holder
    case None => Panic
    case Some(d) =>
      if s.locks[l].pri >= p then Done(s)
      else
        var s1 := DonateTurn(s, l, d, p);
        if p <= EPri(s.threads, d) then Done(s1)
        else
          match Th(s, d).donatedFor
          case None => Done(s1)
          case Some(l') =>
            if l' !in s.locks then Done(s1)
            else
              TurnShrinks(s, l, d, p);
              Walk(s1, d, l')
  }

  lemma TurnShrinks(s: State, l: Lid, d: Tid, p: int)
    requires l in s.locks && s.locks[l].pri < p
    ensures var s1 := DonateTurn(s, l, d, p);
            s1.locks == s.locks[l := s.locks[l].(pri := p)] && |Below(s1, p)| < |Below(s, p)|
            && (EPri(s.threads, d) < p ==> EPri(s1.threads, d) == p)
  {
    var s1 := DonateTurn(s, l, d, p);
    assert Below(s1, p) == Below(s, p) - {l};
    assert l in Below(s, p);
  }

  // `lock_acquire` up to the point where it sleeps or has the lock.
  function Acquire(s: State, t: Tid, l: Lid): Outcome
    requires l in s.locks
  {
    var s1 := PutLk(s, l, Lk(s, l).(state := Wrap8(Lk(s, l).state - 1)));
    var s2 := PutTh(s1, t, Th(s, t).(donatedFor := Some(l)));
    if s2.locks[l].state < 0 && s2.locks[l].holder.Some? then
      match Walk(s2, t, l)
      case Panic => Panic
      case Done(s3) => Done(TryFinish(s3, t, l))
    else Done(TryFinish(s2, t, l))
  }

  // `lock_try_acquire`
  function TryAcquire(s: State, t: Tid, l: Lid): State {
    if Sm(s, l).value == 0 then s
    else Own(PutLk(SetValue(s, l, Sm(s, l).value - 1), l, Lk(s, l).(state := Wrap8(Lk(s, l).state - 1))), t, l)
  }

  // The interrupt-off region of `lock_release`.
  function Disown(s: State, t: Tid, l: Lid): State {
    var th := Th(s, t);
    var rest := Remove(th.lockQueue, l);
    var s1 := PutLk(s, l, Lock(None, Wrap8(Lk(s, l).state + 1), 0));
    PutTh(s1, t, th.(lockQueue := rest, pc := Releasing(l),
                     ePri := if rest == [] then th.bPri else LPri(s1.locks, rest[0])))
  }

  // `lock_release` after that region: `sema_up`.
  function FinishRelease(s: State, t: Tid, l: Lid): State {
    Wake(PutTh(s, t, Th(s, t).(pc := Free)), l)
  }

  // ---- the machine ----

  datatype Action =
    | Acquiring(l: Lid) | TryAcquiring(l: Lid) | Disowning(l: Lid) | FinishingRelease
    | Downing(x: Sid) | TryDowning(x: Sid) | Upping(x: Sid) | Resuming
    | Yielding | Dispatching | SettingPriority(p: int) | Creating(t: Tid, p: int)

  predicate Runs(s: State) { s.running.Some? && s.running.value in s.threads }

  predicate RunsFree(s: State) { Runs(s) && s.threads[s.running.value].pc == Free }

  /** What the source demands of a caller: a lock is not acquired by its holder and only
      released by it; a thread inside `sema_down` or `lock_release` goes on where it was. */
  predicate Enabled(s: State, a: Action) {
    match a
    case Acquiring(l) => RunsFree(s) && l in s.locks && s.locks[l].holder != s.running
    case TryAcquiring(l) => RunsFree(s) && l in s.locks && s.locks[l].holder != s.running
    case Disowning(l) => RunsFree(s) && l in s.locks && s.locks[l].holder == s.running
    case FinishingRelease => Runs(s) && s.threads[s.running.value].pc.Releasing?
    case Downing(x) => RunsFree(s) && x in s.semas && x !in s.locks
    case TryDowning(x) => x in s.semas && x !in s.locks
    case Upping(x) => x in s.semas && x !in s.locks
    case Resuming => Runs(s) && s.threads[s.running.value].pc.InDown?
    case Yielding => Runs(s)
    case Dispatching => s.running.None? && s.ready != []
    case SettingPriority(p) => RunsFree(s) && 0 <= p <= PRI_MAX
    case Creating(t, p) => t !in s.threads && 0 <= p <= PRI_MAX
  }

  function Apply(s: State, a: Action): Outcome
    requires Enabled(s, a)
  {
    match a
    case Acquiring(l) => Acquire(s, s.running.value, l)
    case TryAcquiring(l) => Done(TryAcquire(s, s.running.value, l))
    case Disowning(l) => Done(Disown(s, s.running.value, l))
    case FinishingRelease => Done(FinishRelease(s, s.running.value, s.threads[s.running.value].pc.lock))
    case Downing(x) => Done(TryFinish(s, s.running.value, x))
    case TryDowning(x) => Done(if s.semas[x].value == 0 then s else SetValue(s, x, s.semas[x].value - 1))
    case Upping(x) => Done(Wake(s, x))
    case Resuming => Done(TryFinish(s, s.running.value, s.threads[s.running.value].pc.sema))
    case Yielding => Done(Yield(s, s.running.value))
    case Dispatching => Done(Schedule(s))
    case SettingPriority(p) => Done(SetPriority(s, s.running.value, p))
    case Creating(t, p) => Done(Create(s, t, p))
  }
}
