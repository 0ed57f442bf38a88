/**
 The locking protocol of the high-resolution timers: `lock_hrtimer_base`, `switch_hrtimer_base`,
 start, cancel and `__run_hrtimer`, as atomic steps that any number of threads and CPUs interleave.
 Accesses made while holding the base lock are grouped; every access that races with another CPU
 (`timer->base`, `timer->state`, `base->running`, `base->seq`, and the locks) is a step of its own.
 */
module HrtimerProtocol {
  import opened Options

  type Cpu = nat
  type Timer = nat
  type ThreadId = nat

  /** One of the clock bases of one CPU. All clock bases of a CPU share that CPU's lock. */
  datatype Base = Base(cpu: Cpu, index: nat)

  /** The value of `timer->base`. */
  datatype Home = At(base: Base) | Migration

  datatype Agent = Expirer(base: Base) | Thread(id: ThreadId)

  /** What a thread was called for. `target` is what `get_target_base` answers. */
  datatype Op =
    | Start(timer: Timer, cpu: Cpu, target: Cpu)
    | Cancel(timer: Timer)

  /** Where a thread is inside `hrtimer_start_range_ns` or `hrtimer_try_to_cancel`; `ret` is what the latter will
      return. */
  datatype Pc =
    | Idle
    | ReadBase(op: Op)
    | Locking(op: Op, base: Base)
    | Recheck(op: Op, base: Base)
    | Owned(op: Op, base: Base)
    | Switching(op: Op, base: Base, target: Cpu, queued: bool, agains: nat)
    | Parked(op: Op, base: Base, target: Cpu, queued: bool, agains: nat)
    | Unlocked(op: Op, base: Base, target: Cpu, queued: bool, agains: nat)
    | AtNew(op: Op, base: Base, target: Cpu, queued: bool, agains: nat)
    | Returning(op: Op, base: Base, target: Cpu, queued: bool, agains: nat)
    | Returned(op: Op, base: Base, target: Cpu, queued: bool, agains: nat)
    | Placing(op: Op, base: Base, queued: bool)
    | Done(op: Op, base: Base, ret: int)
  {
    /** The CPU whose lock the thread holds here. */
    function Holds(): Option<Cpu> {
      match this
      case Recheck(_, b) => Some(b.cpu)
      case Owned(_, b) => Some(b.cpu)
      case Switching(_, b, _, _, _) => Some(b.cpu)
      case Parked(_, b, _, _, _) => Some(b.cpu)
      case AtNew(_, _, c, _, _) => Some(c)
      case Returned(_, b, _, _, _) => Some(b.cpu)
      case Placing(_, b, _) => Some(b.cpu)
      case Done(_, b, _) => Some(b.cpu)
      case _ => None
    }

    /** The timer's base is locked by this thread. */
    predicate AtHome() { Owned? || Switching? || Placing? || Done? }

    /** This thread has put the timer on the migration base. */
    predicate IsParked() { Parked? || Unlocked? || AtNew? || Returning? || Returned? }

    /** A restart between taking the timer off its queue and putting it on the new one. */
    predicate InWindow() { Switching? || IsParked() || Placing? }

    predicate Owns(t: Timer) { (AtHome() || IsParked()) && op.timer == t }
  }

  /** Where the expiry loop of one clock base is inside `__run_hrtimer`. */
  datatype ExpPc =
    | Resting
    | Holding
    | Marked(timer: Timer)
    | MarkBarrier(timer: Timer)
    | Fenced(timer: Timer)
    | Taken(timer: Timer)
    | Callback(timer: Timer)
    | Relocked(timer: Timer)
    | Requeued(timer: Timer)
    | PostBarrier(timer: Timer)
    | Clearing(timer: Timer)
  {
    predicate HoldsLock() { !Resting? && !Callback? }

    predicate Runs(t: Timer) { !Resting? && !Holding? && timer == t }

    /** `running` is already set but the timer is still on its queue. */
    predicate BeforeTaken() { Marked? || MarkBarrier? || Fenced? }

    /** In the middle of `raw_write_seqcount_barrier`. */
    predicate InBarrier() { MarkBarrier? || PostBarrier? }
  }

  datatype State = State(
    home: map<Timer, Home>,
    enqueued: set<Timer>,
    queue: multiset<(Base, Timer)>,
    running: map<Base, Timer>,
    seqs: map<Base, nat>,
    lock: map<Cpu, Agent>,
    expirers: map<Base, ExpPc>,
    threads: map<ThreadId, Pc>)
  {
    function PcOf(id: ThreadId): Pc { if id in threads then threads[id] else Idle }
    function ExpOf(b: Base): ExpPc { if b in expirers then expirers[b] else Resting }
    function SeqOf(b: Base): nat { if b in seqs then seqs[b] else 0 }

    /** `hrtimer_callback_running`, which may also look at the migration base. */
    predicate RunsAt(h: Home, t: Timer) { h.At? && h.base in running && running[h.base] == t }

    function Go(id: ThreadId, pc: Pc): State { this.(threads := threads[id := pc]) }
    function ExpGo(b: Base, pc: ExpPc): State { this.(expirers := expirers[b := pc]) }
    function Acquire(c: Cpu, a: Agent): State { this.(lock := lock[c := a]) }
    function Release(c: Cpu): State { this.(lock := lock - {c}) }
    function BumpSeq(b: Base): State { this.(seqs := seqs[b := SeqOf(b) + 1]) }

    /** `enqueue_hrtimer`: mark the timer enqueued and add it to the queue of `b`. */
    function Insert(t: Timer, b: Base): State {
      this.(enqueued := enqueued + {t}, queue := queue + multiset{(b, t)})
    }

    /** `__remove_hrtimer` with the state the caller asks for. */
    function Remove(t: Timer, b: Base, keepEnqueued: bool): State {
      if t in enqueued then
        this.(enqueued := if keepEnqueued then enqueued else enqueued - {t},
              queue := queue - multiset{(b, t)})
      else this
    }
  }

  datatype Event =
    | Call(id: ThreadId, op: Op)
    | ReadHome(id: ThreadId)
    | Lock(id: ThreadId)
    | Confirm(id: ThreadId)
    | Moved(id: ThreadId)
    | Dequeue(id: ThreadId)
    | Keep(id: ThreadId)
    | Stay(id: ThreadId)
    | TryHere(id: ThreadId)
    | Park(id: ThreadId)
    | DropOld(id: ThreadId)
    | TakeNew(id: ThreadId)
    | TooEarly(id: ThreadId)
    | Settle(id: ThreadId)
    | RetakeOld(id: ThreadId)
    | Unpark(id: ThreadId)
    | Enqueue(id: ThreadId)
    | CancelBusy(id: ThreadId)
    | CancelRemove(id: ThreadId)
    | Unlock(id: ThreadId)
    | ExpLock(base: Base)
    | ExpUnlock(base: Base)
    | Mark(base: Base, timer: Timer)
    | BeginFence(base: Base)
    | EndFence(base: Base)
    | Take(base: Base)
    | Fire(base: Base)
    | Return(base: Base)
    | Restart(base: Base, restart: bool)
    | BeginPost(base: Base)
    | EndPost(base: Base)
    | Clear(base: Base)
  {
    predicate ByThread() {
      Switches() || Call? || ReadHome? || Lock? || Confirm? || Moved? || Dequeue? || Enqueue? || CancelBusy?
      || CancelRemove? || Unlock?
    }

    predicate Switches() {
      Park? || Settle? || Unpark? || Keep? || Stay? || TryHere? || DropOld? || TakeNew? || TooEarly? || RetakeOld?
    }

    /** The step writes the `timer->base` of the thread's timer. */
    predicate MovesHome() { Park? || Settle? || Unpark? }
  }

  /** The clock base of the same index on the CPU the thread is trying. */
  function NewBase(pc: Pc): Base
    requires pc.Switching? || pc.IsParked()
  {
    Base(pc.target, pc.base.index)
  }

  /** `hrtimer_check_target` reads clock values outside this model, so the events that depend on it
      (Stay/TryHere and Settle/TooEarly) are both possible whenever the new CPU is not the caller's. */
  predicate Enabled(s: State, e: Event) {
    if e.ByThread() then ThreadEnabled(s, e, s.PcOf(e.id)) else ExpEnabled(s, e, s.ExpOf(e.base))
  }

  predicate ThreadEnabled(s: State, e: Event, pc: Pc)
    requires e.ByThread()
  {
    match e
    case Call(_, op) => pc.Idle? && op.timer in s.home
    case ReadHome(_) => pc.ReadBase? && pc.op.timer in s.home && s.home[pc.op.timer].At?
    case Lock(_) => pc.Locking? && pc.base.cpu !in s.lock
    case Confirm(_) => pc.Recheck? && pc.op.timer in s.home && s.home[pc.op.timer] == At(pc.base)
    case Moved(_) => pc.Recheck? && !(pc.op.timer in s.home && s.home[pc.op.timer] == At(pc.base))
    case Dequeue(_) => pc.Owned? && pc.op.Start?
    case Keep(_) =>
      pc.Switching? && pc.base != NewBase(pc) && s.RunsAt(At(pc.base), pc.op.timer)
    case Park(_) =>
      pc.Switching? && pc.base != NewBase(pc) && !s.RunsAt(At(pc.base), pc.op.timer)
    case Stay(_) => pc.Switching? && pc.base == NewBase(pc)
    case TryHere(_) =>
      pc.Switching? && pc.base == NewBase(pc) && pc.op.Start? && pc.target != pc.op.cpu
    case DropOld(_) => pc.Parked?
    case TakeNew(_) => pc.Unlocked? && pc.target !in s.lock
    case TooEarly(_) => pc.AtNew? && pc.op.Start? && pc.target != pc.op.cpu
    case Settle(_) => pc.AtNew?
    case RetakeOld(_) => pc.Returning? && pc.base.cpu !in s.lock
    case Unpark(_) => pc.Returned? && pc.op.Start?
    case Enqueue(_) => pc.Placing?
    case CancelBusy(_) => pc.Owned? && pc.op.Cancel? && s.RunsAt(At(pc.base), pc.op.timer)
    case CancelRemove(_) => pc.Owned? && pc.op.Cancel? && !s.RunsAt(At(pc.base), pc.op.timer)
    case Unlock(_) => pc.Done?
  }

  predicate ExpEnabled(s: State, e: Event, x: ExpPc)
    requires !e.ByThread()
  {
    match e
    case ExpLock(b) => x.Resting? && b.cpu !in s.lock
    case ExpUnlock(_) => x.Holding?
    case Mark(b, t) => x.Holding? && (b, t) in s.queue
    case BeginFence(_) => x.Marked?
    case EndFence(_) => x.MarkBarrier?
    case Take(_) => x.Fenced?
    case Fire(_) => x.Taken?
    case Return(b) => x.Callback? && b.cpu !in s.lock
    case Restart(_, _) => x.Relocked?
    case BeginPost(_) => x.Requeued?
    case EndPost(_) => x.PostBarrier?
    case Clear(_) => x.Clearing?
    case _ => false
  }

  function Apply(s: State, e: Event): State
    requires Enabled(s, e)
  {
    if e.ByThread() then ThreadApply(s, e, s.PcOf(e.id)) else ExpApply(s, e, s.ExpOf(e.base))
  }

  function ThreadApply(s: State, e: Event, pc: Pc): State
    requires e.ByThread() && ThreadEnabled(s, e, pc)
  {
    ThreadQueues(s, e, pc).(home := HomeAfter(s, e, pc), lock := LockAfter(s, e, pc)).Go(e.id, ThreadNext(s, e, pc))
  }

  /** Where the thread goes. */
  function ThreadNext(s: State, e: Event, pc: Pc): Pc
    requires e.ByThread() && ThreadEnabled(s, e, pc)
  {
    match e
    case Call(_, op) => ReadBase(op)
    case ReadHome(_) => Locking(pc.op, s.home[pc.op.timer].base)
    case Lock(_) => Recheck(pc.op, pc.base)
    case Confirm(_) => Owned(pc.op, pc.base)
    case Moved(_) => ReadBase(pc.op)
    case Dequeue(_) => Switching(pc.op, pc.base, pc.op.target, pc.op.timer in s.enqueued, 0)
    case Keep(_) => Placing(pc.op, pc.base, pc.queued)
    case Stay(_) => Placing(pc.op, pc.base, pc.queued)
    case TryHere(_) => Switching(pc.op, pc.base, pc.op.cpu, pc.queued, pc.agains + 1)
    case Park(_) => Parked(pc.op, pc.base, pc.target, pc.queued, pc.agains)
    case DropOld(_) => Unlocked(pc.op, pc.base, pc.target, pc.queued, pc.agains)
    case TakeNew(_) => AtNew(pc.op, pc.base, pc.target, pc.queued, pc.agains)
    case TooEarly(_) => Returning(pc.op, pc.base, pc.target, pc.queued, pc.agains)
    case Settle(_) => Placing(pc.op, NewBase(pc), pc.queued)
    case RetakeOld(_) => Returned(pc.op, pc.base, pc.target, pc.queued, pc.agains)
    case Unpark(_) => Switching(pc.op, pc.base, pc.op.cpu, pc.queued, pc.agains + 1)
    case Enqueue(_) => Done(pc.op, pc.base, 0)
    case CancelBusy(_) => Done(pc.op, pc.base, -1)
    case CancelRemove(_) => Done(pc.op, pc.base, if pc.op.timer in s.enqueued then 1 else 0)
    case Unlock(_) => Idle
  }

  /** What the step does to the queues and marks. */
  function ThreadQueues(s: State, e: Event, pc: Pc): (s': State)
    requires e.ByThread() && ThreadEnabled(s, e, pc)
    ensures s' == s.(enqueued := s'.enqueued, queue := s'.queue)
  {
    match e
    case Dequeue(_) => s.Remove(pc.op.timer, pc.base, true)
    case Enqueue(_) => s.Insert(pc.op.timer, pc.base)
    case CancelRemove(_) => s.Remove(pc.op.timer, pc.base, false)
    case _ => s
  }

  function HomeAfter(s: State, e: Event, pc: Pc): map<Timer, Home>
    requires e.ByThread() && ThreadEnabled(s, e, pc)
  {
    match e
    case Park(_) => s.home[pc.op.timer := Migration]
    case Settle(_) => s.home[pc.op.timer := At(NewBase(pc))]
    case Unpark(_) => s.home[pc.op.timer := At(pc.base)]
    case _ => s.home
  }

  function LockAfter(s: State, e: Event, pc: Pc): map<Cpu, Agent>
    requires e.ByThread() && ThreadEnabled(s, e, pc)
  {
    match e
    case Lock(id) => s.lock[pc.base.cpu := Thread(id)]
    case Moved(_) => s.lock - {pc.base.cpu}
    case DropOld(_) => s.lock - {pc.base.cpu}
    case TakeNew(id) => s.lock[pc.target := Thread(id)]
    case TooEarly(_) => s.lock - {pc.target}
    case RetakeOld(id) => s.lock[pc.base.cpu := Thread(id)]
    case Unlock(_) => s.lock - {pc.base.cpu}
    case _ => s.lock
  }

  function ExpApply(s: State, e: Event, x: ExpPc): State
    requires !e.ByThread() && ExpEnabled(s, e, x)
  {
    ExpEffect(s, e, x).ExpGo(e.base, ExpNext(e, x))
  }

  /** Where the expiry loop goes. */
  function ExpNext(e: Event, x: ExpPc): ExpPc
    requires !e.ByThread() && (e.ExpLock? || e.ExpUnlock? || e.Mark? || e.Clear? || (!x.Resting? && !x.Holding?))
  {
    match e
    case ExpLock(_) => Holding
    case ExpUnlock(_) => Resting
    case Mark(_, t) => Marked(t)
    case BeginFence(_) => MarkBarrier(x.timer)
    case EndFence(_) => Fenced(x.timer)
    case Take(_) => Taken(x.timer)
    case Fire(_) => Callback(x.timer)
    case Return(_) => Relocked(x.timer)
    case Restart(_, _) => Requeued(x.timer)
    case BeginPost(_) => PostBarrier(x.timer)
    case EndPost(_) => Clearing(x.timer)
    case Clear(_) => Holding
  }

  /** What the step does to what is shared: every `timer->base` and every thread is left alone. */
  function ExpEffect(s: State, e: Event, x: ExpPc): (s': State)
    requires !e.ByThread() && ExpEnabled(s, e, x)
    ensures s'.home == s.home && s'.threads == s.threads && s'.expirers == s.expirers
  {
    match e
    case ExpLock(b) => s.Acquire(b.cpu, Expirer(b))
    case ExpUnlock(b) => s.Release(b.cpu)
    case Mark(b, t) => s.(running := s.running[b := t])
    case BeginFence(b) => s.BumpSeq(b)
    case EndFence(b) => s.BumpSeq(b)
    case Take(b) => s.Remove(x.timer, b, false)
    case Fire(b) => s.Release(b.cpu)
    case Return(b) => s.Acquire(b.cpu, Expirer(b))
    case Restart(b, restart) => if restart && x.timer !in s.enqueued then s.Insert(x.timer, b) else s
    case BeginPost(b) => s.BumpSeq(b)
    case EndPost(b) => s.BumpSeq(b)
    case Clear(b) => s.(running := s.running - {b})
  }

  /** Freshly initialised timers: each on a clock base, none active, no lock held, nobody inside. */
  predicate Init(s: State) {
    && (forall t :: t in s.home ==> s.home[t].At?)
    && s.enqueued == {} && s.queue == multiset{} && s.running == map[] && s.seqs == map[]
    && s.lock == map[] && s.expirers == map[] && s.threads == map[]
  }

  /** A run: the states that some interleaving of events goes through. */
  datatype History =
    | Fresh(now: State)
    | After(past: History, event: Event, now: State)

  predicate Possible(h: History) {
    match h
    case Fresh(s) => Init(s)
    case After(p, e, s) => Possible(p) && Enabled(p.now, e) && s == Apply(p.now, e)
  }

  ghost predicate Reachable(s: State) {
    exists h :: Possible(h) && h.now == s
  }

  // ----- The invariant

  /** What one thread may rely on. */
  ghost predicate ThreadOk(s: State, id: ThreadId) {
    var pc := s.PcOf(id);
    && (pc.Holds().Some? ==> pc.Holds().value in s.lock && s.lock[pc.Holds().value] == Thread(id))
    && PcOk(s, pc)
  }

  ghost predicate PcOk(s: State, pc: Pc) {
    && (pc.AtHome() ==> pc.op.timer in s.home && s.home[pc.op.timer] == At(pc.base))
    && (pc.IsParked() ==> pc.op.timer in s.home && s.home[pc.op.timer] == Migration)
    && (pc.InWindow() && pc.AtHome() ==> (pc.base, pc.op.timer) !in s.queue)
    && (pc.InWindow() ==> (pc.queued <==> pc.op.timer in s.enqueued))
    && (pc.Switching? || pc.IsParked() ==>
          && pc.op.Start?
          && pc.agains <= 1
          && pc.target == (if pc.agains == 0 then pc.op.target else pc.op.cpu)
          && (pc.Returning? || pc.Returned? ==> pc.agains == 0))
  }

  /** No two threads have parked the same timer. */
  ghost predicate PairOk(s: State, id: ThreadId, jd: ThreadId) {
    s.PcOf(id).IsParked() && s.PcOf(jd).IsParked() && s.PcOf(id).op.timer == s.PcOf(jd).op.timer ==> id == jd
  }

  /** What the expiry loop of one clock base may rely on. */
  ghost predicate BaseOk(s: State, b: Base) {
    var x := s.ExpOf(b);
    && (x.HoldsLock() ==> b.cpu in s.lock && s.lock[b.cpu] == Expirer(b))
    && (x.Resting? || x.Holding? <==> b !in s.running)
    && (b in s.running ==> s.running[b] == x.timer && x.timer in s.home && s.home[x.timer] == At(b))
    && (x.BeforeTaken() ==> (b, x.timer) in s.queue)
    && (s.SeqOf(b) % 2 == 1 <==> x.InBarrier())
  }

  /** A queued timer is queued once, on the base it points to, and is marked enqueued. */
  ghost predicate EntryOk(s: State, b: Base, t: Timer) {
    (b, t) in s.queue ==> s.queue[(b, t)] == 1 && t in s.home && s.home[t] == At(b) && t in s.enqueued
  }

  ghost predicate Inv(s: State) {
    && (forall id :: ThreadOk(s, id))
    && (forall id, jd :: PairOk(s, id, jd))
    && (forall b :: BaseOk(s, b))
    && (forall b, t :: EntryOk(s, b, t))
  }

  lemma InitInv(s: State)
    requires Init(s)
    ensures Inv(s)
  {
  }

  /** At most one thread owns a timer: holds the lock of its base, or has it parked. */
  lemma SoleOwner(s: State, id: ThreadId, jd: ThreadId, t: Timer)
    requires Inv(s) && s.PcOf(id).Owns(t) && s.PcOf(jd).Owns(t)
    ensures id == jd
  {
    assert ThreadOk(s, id) && ThreadOk(s, jd) && PairOk(s, id, jd);
  }

  /** Nobody owns a timer while its expiry loop is working on it under the lock. */
  lemma OwnerExcludesExpirer(s: State, id: ThreadId, b: Base, t: Timer)
    requires Inv(s) && s.PcOf(id).Owns(t) && s.ExpOf(b).Runs(t)
    ensures !s.ExpOf(b).HoldsLock()
  {
    assert ThreadOk(s, id) && BaseOk(s, b);
  }

  // ----- Each kind of step keeps it

  lemma PcStep(s: State, id: ThreadId, pc: Pc)
    requires Inv(s) && PcOk(s, pc) && pc.Holds() == s.PcOf(id).Holds()
    requires pc.IsParked() ==> s.PcOf(id).IsParked() && s.PcOf(id).op.timer == pc.op.timer
    ensures Inv(s.Go(id, pc))
  {
    var s' := s.Go(id, pc);
    forall i ensures ThreadOk(s', i) { hide BaseOk, EntryOk; assert ThreadOk(s, i) && ThreadOk(s, id); }
    forall i, j ensures PairOk(s', i, j) { hide BaseOk, EntryOk, ThreadOk; assert PairOk(s, i, j); }
    forall b ensures BaseOk(s', b) { assert BaseOk(s, b); }
    forall b, t ensures EntryOk(s', b, t) { hide BaseOk, ThreadOk; assert EntryOk(s, b, t); }
  }

  lemma AcquireStep(s: State, id: ThreadId, c: Cpu, pc: Pc)
    requires Inv(s) && PcOk(s, pc) && c !in s.lock
    requires s.PcOf(id).Holds() == None && pc.Holds() == Some(c)
    requires pc.IsParked() ==> s.PcOf(id).IsParked() && s.PcOf(id).op.timer == pc.op.timer
    ensures Inv(s.Acquire(c, Thread(id)).Go(id, pc))
  {
    var s' := s.Acquire(c, Thread(id)).Go(id, pc);
    forall i ensures ThreadOk(s', i) { hide BaseOk, EntryOk; assert ThreadOk(s, i) && ThreadOk(s, id); }
    forall i, j ensures PairOk(s', i, j) { hide BaseOk, EntryOk, ThreadOk; assert PairOk(s, i, j); }
    forall b ensures BaseOk(s', b) { assert BaseOk(s, b); }
    forall b, t ensures EntryOk(s', b, t) { hide BaseOk, ThreadOk; assert EntryOk(s, b, t); }
  }

  lemma ReleaseStep(s: State, id: ThreadId, c: Cpu, pc: Pc)
    requires Inv(s) && PcOk(s, pc)
    requires s.PcOf(id).Holds() == Some(c) && pc.Holds() == None
    requires pc.IsParked() ==> s.PcOf(id).IsParked() && s.PcOf(id).op.timer == pc.op.timer
    ensures Inv(s.Release(c).Go(id, pc))
  {
    var s' := s.Release(c).Go(id, pc);
    forall i ensures ThreadOk(s', i) { hide BaseOk, EntryOk; assert ThreadOk(s, i) && ThreadOk(s, id); }
    forall i, j ensures PairOk(s', i, j) { hide BaseOk, EntryOk, ThreadOk; assert PairOk(s, i, j); }
    forall b ensures BaseOk(s', b) { assert BaseOk(s, b) && ThreadOk(s, id); }
    forall b, t ensures EntryOk(s', b, t) { hide BaseOk, ThreadOk; assert EntryOk(s, b, t); }
  }

  /** Parking, settling and unparking: the owner writes `timer->base`. */
  lemma HomeStep(s: State, id: ThreadId, h: Home, pc: Pc)
    requires Inv(s) && s.PcOf(id).InWindow() && pc.InWindow() && pc.op == s.PcOf(id).op
    requires pc.Holds() == s.PcOf(id).Holds() && pc.queued == s.PcOf(id).queued
    requires h == Migration ==> pc.IsParked() && s.PcOf(id).AtHome() && !s.RunsAt(At(s.PcOf(id).base), pc.op.timer)
    requires h.At? ==> pc.AtHome() && pc.base == h.base && s.PcOf(id).IsParked()
    requires PcOk(s.(home := s.home[pc.op.timer := h]), pc)
    ensures Inv(s.(home := s.home[pc.op.timer := h]).Go(id, pc))
  {
    var t := pc.op.timer;
    var s' := s.(home := s.home[t := h]).Go(id, pc);
    assert ThreadOk(s, id);
    forall i ensures ThreadOk(s', i) {
      hide BaseOk, EntryOk;
      assert ThreadOk(s, i);
      if i != id && s.PcOf(i).Owns(t) { SoleOwner(s, i, id, t); }
    }
    forall i, j ensures PairOk(s', i, j) {
      assert PairOk(s, i, j);
      if i != j && s'.PcOf(i).IsParked() && s'.PcOf(j).IsParked() && s'.PcOf(i).op.timer == s'.PcOf(j).op.timer {
        SoleOwner(s, i, j, s'.PcOf(i).op.timer);
      }
    }
    forall b ensures BaseOk(s', b) { assert BaseOk(s, b); }
    forall b, u ensures EntryOk(s', b, u) { hide BaseOk, ThreadOk; assert EntryOk(s, b, u); }
  }

  /** The owner takes its timer off the queue; no clock base relied on its being there. */
  lemma RemoveKeepsBases(s: State, id: ThreadId, keepEnqueued: bool)
    requires Inv(s) && s.PcOf(id).Owned? && s.PcOf(id).op.timer in s.enqueued
    ensures var r := s.Remove(s.PcOf(id).op.timer, s.PcOf(id).base, keepEnqueued);
      && (forall b :: BaseOk(r, b)) && (forall b, u :: EntryOk(r, b, u))
      && (s.PcOf(id).base, s.PcOf(id).op.timer) !in r.queue
  {
    var base, t := s.PcOf(id).base, s.PcOf(id).op.timer;
    var r := s.Remove(t, base, keepEnqueued);
    assert ThreadOk(s, id) && EntryOk(s, base, t);
    forall b ensures BaseOk(r, b) {
      assert BaseOk(s, b);
      if s.ExpOf(b).BeforeTaken() && s.ExpOf(b).timer == t { OwnerExcludesExpirer(s, id, b, t); }
    }
    forall b, u ensures EntryOk(r, b, u) { hide BaseOk, ThreadOk; assert EntryOk(s, b, u); }
  }

  /** A restart takes the timer off its queue but leaves it marked as it was. */
  lemma DequeueStep(s: State, id: ThreadId)
    requires Inv(s) && s.PcOf(id).Owned? && s.PcOf(id).op.Start?
    ensures var pc := s.PcOf(id);
      Inv(s.Remove(pc.op.timer, pc.base, true)
          .Go(id, Switching(pc.op, pc.base, pc.op.target, pc.op.timer in s.enqueued, 0)))
  {
    var was := s.PcOf(id);
    var pc := Switching(was.op, was.base, was.op.target, was.op.timer in s.enqueued, 0);
    var t := pc.op.timer;
    assert ThreadOk(s, id) && EntryOk(s, pc.base, t);
    if t !in s.enqueued {
      PcStep(s, id, pc);
    } else {
      var r := s.Remove(t, pc.base, true);
      var s' := r.Go(id, pc);
      RemoveKeepsBases(s, id, true);
      forall i ensures ThreadOk(s', i) {
      hide BaseOk, EntryOk;
        assert ThreadOk(s, i);
        if i != id && s.PcOf(i).Owns(t) { SoleOwner(s, i, id, t); }
      }
      forall i, j ensures PairOk(s', i, j) { hide BaseOk, EntryOk, ThreadOk; assert PairOk(s, i, j); }
      forall b ensures BaseOk(s', b) { assert BaseOk(r, b); }
      forall b, u ensures EntryOk(s', b, u) { hide BaseOk, ThreadOk; assert EntryOk(r, b, u); }
    }
  }

  lemma CancelStep(s: State, id: ThreadId, ret: int)
    requires Inv(s) && s.PcOf(id).Owned? && !s.RunsAt(At(s.PcOf(id).base), s.PcOf(id).op.timer)
    ensures var pc := s.PcOf(id); Inv(s.Remove(pc.op.timer, pc.base, false).Go(id, Done(pc.op, pc.base, ret)))
  {
    var pc := Done(s.PcOf(id).op, s.PcOf(id).base, ret);
    var t := pc.op.timer;
    assert ThreadOk(s, id) && EntryOk(s, pc.base, t);
    if t !in s.enqueued {
      PcStep(s, id, pc);
    } else {
      var r := s.Remove(t, pc.base, false);
      var s' := r.Go(id, pc);
      RemoveKeepsBases(s, id, false);
      forall i ensures ThreadOk(s', i) {
      hide BaseOk, EntryOk;
        assert ThreadOk(s, i);
        if i != id && s.PcOf(i).Owns(t) { SoleOwner(s, i, id, t); }
      }
      forall i, j ensures PairOk(s', i, j) { hide BaseOk, EntryOk, ThreadOk; assert PairOk(s, i, j); }
      forall b ensures BaseOk(s', b) { assert BaseOk(r, b); }
      forall b, u ensures EntryOk(s', b, u) { hide BaseOk, ThreadOk; assert EntryOk(r, b, u); }
    }
  }

  lemma InsertStep(s: State, id: ThreadId)
    requires Inv(s) && s.PcOf(id).Placing?
    ensures var pc := s.PcOf(id); Inv(s.Insert(pc.op.timer, pc.base).Go(id, Done(pc.op, pc.base, 0)))
  {
    var pc := s.PcOf(id);
    var t := pc.op.timer;
    var s' := s.Insert(t, pc.base).Go(id, Done(pc.op, pc.base, 0));
    assert ThreadOk(s, id);
    forall i ensures ThreadOk(s', i) {
      hide BaseOk, EntryOk;
      assert ThreadOk(s, i);
      if i != id && s.PcOf(i).Owns(t) { SoleOwner(s, i, id, t); }
    }
    forall i, j ensures PairOk(s', i, j) { hide BaseOk, EntryOk, ThreadOk; assert PairOk(s, i, j); }
    forall b ensures BaseOk(s', b) { assert BaseOk(s, b); }
    forall b, u ensures EntryOk(s', b, u) { hide BaseOk, ThreadOk; assert EntryOk(s, b, u); }
  }

  /** The expiry loop moves on without changing anything but its sequence count. */
  lemma ExpPcStep(s: State, b: Base, x: ExpPc, bump: bool)
    requires Inv(s) && s.ExpOf(b).HoldsLock() && x.HoldsLock()
    requires s.ExpOf(b).Holding? <==> x.Holding?
    requires !x.Holding? ==> x.timer == s.ExpOf(b).timer
    requires x.BeforeTaken() ==> s.ExpOf(b).BeforeTaken()
    requires bump <==> (s.ExpOf(b).InBarrier() != x.InBarrier())
    ensures Inv((if bump then s.BumpSeq(b) else s).ExpGo(b, x))
  {
    var s' := (if bump then s.BumpSeq(b) else s).ExpGo(b, x);
    assert BaseOk(s, b);
    forall i ensures ThreadOk(s', i) { hide BaseOk, EntryOk; assert ThreadOk(s, i); }
    forall i, j ensures PairOk(s', i, j) { hide BaseOk, EntryOk, ThreadOk; assert PairOk(s, i, j); }
    forall d ensures BaseOk(s', d) { assert BaseOk(s, d); }
    forall d, u ensures EntryOk(s', d, u) { hide BaseOk, ThreadOk; assert EntryOk(s, d, u); }
  }

  lemma ExpAcquireStep(s: State, b: Base, x: ExpPc)
    requires Inv(s) && b.cpu !in s.lock
    requires (s.ExpOf(b).Resting? && x.Holding?) || (s.ExpOf(b).Callback? && x == Relocked(s.ExpOf(b).timer))
    ensures Inv(s.Acquire(b.cpu, Expirer(b)).ExpGo(b, x))
  {
    var s' := s.Acquire(b.cpu, Expirer(b)).ExpGo(b, x);
    forall i ensures ThreadOk(s', i) { hide BaseOk, EntryOk; assert ThreadOk(s, i); }
    forall i, j ensures PairOk(s', i, j) { hide BaseOk, EntryOk, ThreadOk; assert PairOk(s, i, j); }
    forall d ensures BaseOk(s', d) { assert BaseOk(s, d); }
    forall d, u ensures EntryOk(s', d, u) { hide BaseOk, ThreadOk; assert EntryOk(s, d, u); }
  }

  lemma ExpReleaseStep(s: State, b: Base, x: ExpPc)
    requires Inv(s)
    requires (s.ExpOf(b).Holding? && x.Resting?) || (s.ExpOf(b).Taken? && x == Callback(s.ExpOf(b).timer))
    ensures Inv(s.Release(b.cpu).ExpGo(b, x))
  {
    var s' := s.Release(b.cpu).ExpGo(b, x);
    assert BaseOk(s, b);
    forall i ensures ThreadOk(s', i) { hide BaseOk, EntryOk; assert ThreadOk(s, i); }
    forall i, j ensures PairOk(s', i, j) { hide BaseOk, EntryOk, ThreadOk; assert PairOk(s, i, j); }
    forall d ensures BaseOk(s', d) { assert BaseOk(s, d); }
    forall d, u ensures EntryOk(s', d, u) { hide BaseOk, ThreadOk; assert EntryOk(s, d, u); }
  }

  lemma MarkStep(s: State, b: Base, t: Timer)
    requires Inv(s) && s.ExpOf(b).Holding? && (b, t) in s.queue
    ensures Inv(s.(running := s.running[b := t]).ExpGo(b, Marked(t)))
  {
    var s' := s.(running := s.running[b := t]).ExpGo(b, Marked(t));
    assert EntryOk(s, b, t);
    forall i ensures ThreadOk(s', i) { hide BaseOk, EntryOk; assert ThreadOk(s, i); }
    forall i, j ensures PairOk(s', i, j) { hide BaseOk, EntryOk, ThreadOk; assert PairOk(s, i, j); }
    forall d ensures BaseOk(s', d) { assert BaseOk(s, d); }
    forall d, u ensures EntryOk(s', d, u) { hide BaseOk, ThreadOk; assert EntryOk(s, d, u); }
  }

  lemma ClearStep(s: State, b: Base)
    requires Inv(s) && s.ExpOf(b).Clearing?
    ensures Inv(s.(running := s.running - {b}).ExpGo(b, Holding))
  {
    var s' := s.(running := s.running - {b}).ExpGo(b, Holding);
    forall i ensures ThreadOk(s', i) { hide BaseOk, EntryOk; assert ThreadOk(s, i); }
    forall i, j ensures PairOk(s', i, j) { hide BaseOk, EntryOk, ThreadOk; assert PairOk(s, i, j); }
    forall d ensures BaseOk(s', d) { assert BaseOk(s, d); }
    forall d, u ensures EntryOk(s', d, u) { hide BaseOk, ThreadOk; assert EntryOk(s, d, u); }
  }

  lemma TakeStep(s: State, b: Base)
    requires Inv(s) && s.ExpOf(b).Fenced?
    ensures var t := s.ExpOf(b).timer; Inv(s.Remove(t, b, false).ExpGo(b, Taken(t)))
  {
    var t := s.ExpOf(b).timer;
    var s' := s.Remove(t, b, false).ExpGo(b, Taken(t));
    assert BaseOk(s, b) && EntryOk(s, b, t);
    forall i ensures ThreadOk(s', i) {
      hide BaseOk, EntryOk;
      assert ThreadOk(s, i);
      if s.PcOf(i).Owns(t) { OwnerExcludesExpirer(s, i, b, t); }
    }
    forall i, j ensures PairOk(s', i, j) { hide BaseOk, EntryOk, ThreadOk; assert PairOk(s, i, j); }
    forall d ensures BaseOk(s', d) { assert BaseOk(s, d); }
    forall d, u ensures EntryOk(s', d, u) { hide BaseOk, ThreadOk; assert EntryOk(s, d, u); }
  }

  lemma RestartStep(s: State, b: Base)
    requires Inv(s) && s.ExpOf(b).Relocked? && s.ExpOf(b).timer !in s.enqueued
    ensures var t := s.ExpOf(b).timer; Inv(s.Insert(t, b).ExpGo(b, Requeued(t)))
  {
    var t := s.ExpOf(b).timer;
    var s' := s.Insert(t, b).ExpGo(b, Requeued(t));
    assert BaseOk(s, b);
    forall i ensures ThreadOk(s', i) {
      hide BaseOk, EntryOk;
      assert ThreadOk(s, i);
      if s.PcOf(i).Owns(t) { OwnerExcludesExpirer(s, i, b, t); }
    }
    forall i, j ensures PairOk(s', i, j) { hide BaseOk, EntryOk, ThreadOk; assert PairOk(s, i, j); }
    forall d ensures BaseOk(s', d) { assert BaseOk(s, d); }
    forall d, u ensures EntryOk(s', d, u) { hide BaseOk, ThreadOk; assert EntryOk(s, d, u); }
  }

  /** Steps outside `switch_hrtimer_base`. */
  lemma LockEventKeepsInv(s: State, e: Event)
    requires Inv(s) && e.ByThread() && Enabled(s, e) && !e.Switches()
    ensures Inv(Apply(s, e))
  {
    var pc := s.PcOf(e.id);
    assert ThreadOk(s, e.id);
    hide Inv, ExpApply, ExpEnabled;
    match e
    case Call(id, op) => PcStep(s, id, ReadBase(op));
    case ReadHome(id) => PcStep(s, id, Locking(pc.op, s.home[pc.op.timer].base));
    case Lock(id) => AcquireStep(s, id, pc.base.cpu, Recheck(pc.op, pc.base));
    case Confirm(id) => PcStep(s, id, Owned(pc.op, pc.base));
    case Moved(id) => ReleaseStep(s, id, pc.base.cpu, ReadBase(pc.op));
    case Dequeue(id) => DequeueStep(s, id);
    case Enqueue(id) => InsertStep(s, id);
    case CancelBusy(id) => PcStep(s, id, Done(pc.op, pc.base, -1));
    case CancelRemove(id) => CancelStep(s, id, if pc.op.timer in s.enqueued then 1 else 0);
    case Unlock(id) => ReleaseStep(s, id, pc.base.cpu, Idle);
  }

  /** Steps of `switch_hrtimer_base` that only decide. */
  lemma DecideKeepsInv(s: State, e: Event)
    requires Inv(s) && (e.Keep? || e.Stay? || e.TryHere?) && Enabled(s, e)
    ensures Inv(Apply(s, e))
  {
    var pc := s.PcOf(e.id);
    assert ThreadOk(s, e.id);
    hide Inv, ExpApply, ExpEnabled;
    match e
    case Keep(id) => PcStep(s, id, Placing(pc.op, pc.base, pc.queued));
    case Stay(id) => PcStep(s, id, Placing(pc.op, pc.base, pc.queued));
    case TryHere(id) => PcStep(s, id, Switching(pc.op, pc.base, pc.op.cpu, pc.queued, pc.agains + 1));
  }

  /** Steps of `switch_hrtimer_base` that change locks while the timer is parked. */
  lemma RelockKeepsInv(s: State, e: Event)
    requires Inv(s) && (e.DropOld? || e.TakeNew? || e.TooEarly? || e.RetakeOld?) && Enabled(s, e)
    ensures Inv(Apply(s, e))
  {
    var pc := s.PcOf(e.id);
    assert ThreadOk(s, e.id);
    hide Inv, ExpApply, ExpEnabled;
    match e
    case DropOld(id) =>
      ReleaseStep(s, id, pc.base.cpu, Unlocked(pc.op, pc.base, pc.target, pc.queued, pc.agains));
    case TakeNew(id) => AcquireStep(s, id, pc.target, AtNew(pc.op, pc.base, pc.target, pc.queued, pc.agains));
    case TooEarly(id) => ReleaseStep(s, id, pc.target, Returning(pc.op, pc.base, pc.target, pc.queued, pc.agains));
    case RetakeOld(id) =>
      AcquireStep(s, id, pc.base.cpu, Returned(pc.op, pc.base, pc.target, pc.queued, pc.agains));
  }

  lemma ParkKeepsInv(s: State, e: Event)
    requires Inv(s) && e.Park? && Enabled(s, e)
    ensures Inv(Apply(s, e))
  {
    var pc := s.PcOf(e.id);
    assert ThreadOk(s, e.id);
    HomeStep(s, e.id, Migration, Parked(pc.op, pc.base, pc.target, pc.queued, pc.agains));
  }

  lemma SettleKeepsInv(s: State, e: Event)
    requires Inv(s) && e.Settle? && Enabled(s, e)
    ensures Inv(Apply(s, e))
  {
    var pc := s.PcOf(e.id);
    assert ThreadOk(s, e.id) && EntryOk(s, NewBase(pc), pc.op.timer);
    HomeStep(s, e.id, At(NewBase(pc)), Placing(pc.op, NewBase(pc), pc.queued));
  }

  lemma UnparkKeepsInv(s: State, e: Event)
    requires Inv(s) && e.Unpark? && Enabled(s, e)
    ensures Inv(Apply(s, e))
  {
    var pc := s.PcOf(e.id);
    assert ThreadOk(s, e.id) && EntryOk(s, pc.base, pc.op.timer);
    HomeStep(s, e.id, At(pc.base), Switching(pc.op, pc.base, pc.op.cpu, pc.queued, pc.agains + 1));
  }

  lemma ExpEventKeepsInv(s: State, e: Event)
    requires Inv(s) && !e.ByThread() && Enabled(s, e)
    ensures Inv(Apply(s, e))
  {
    var x := s.ExpOf(e.base);
    assert BaseOk(s, e.base);
    match e
    case ExpLock(b) => ExpAcquireStep(s, b, Holding);
    case ExpUnlock(b) => ExpReleaseStep(s, b, Resting);
    case Mark(b, t) => MarkStep(s, b, t);
    case BeginFence(b) => ExpPcStep(s, b, MarkBarrier(x.timer), true);
    case EndFence(b) => ExpPcStep(s, b, Fenced(x.timer), true);
    case Take(b) => TakeStep(s, b);
    case Fire(b) => ExpReleaseStep(s, b, Callback(x.timer));
    case Return(b) => ExpAcquireStep(s, b, Relocked(x.timer));
    case Restart(b, restart) =>
      if restart && x.timer !in s.enqueued { RestartStep(s, b); } else { ExpPcStep(s, b, Requeued(x.timer), false); }
    case BeginPost(b) => ExpPcStep(s, b, PostBarrier(x.timer), true);
    case EndPost(b) => ExpPcStep(s, b, Clearing(x.timer), true);
    case Clear(b) => ClearStep(s, b);
  }

  lemma EventKeepsInv(s: State, e: Event)
    requires Inv(s) && Enabled(s, e)
    ensures Inv(Apply(s, e))
  {
    if !e.ByThread() {
      ExpEventKeepsInv(s, e);
    } else if e.Park? {
      ParkKeepsInv(s, e);
    } else if e.Settle? {
      SettleKeepsInv(s, e);
    } else if e.Unpark? {
      UnparkKeepsInv(s, e);
    } else if e.Keep? || e.Stay? || e.TryHere? {
      DecideKeepsInv(s, e);
    } else if e.Switches() {
      RelockKeepsInv(s, e);
    } else {
      LockEventKeepsInv(s, e);
    }
  }

  lemma {:induction false} HistoryInv(h: History)
    requires Possible(h)
    ensures Inv(h.now)
  {
    match h
    case Fresh(s) => InitInv(s);
    case After(p, e, s) =>
      HistoryInv(p);
      EventKeepsInv(p.now, e);
  }

  lemma ReachableInv(s: State)
    requires Reachable(s)
    ensures Inv(s)
  {
    var h :| Possible(h) && h.now == s;
    HistoryInv(h);
  }

  // ----- Ownership

  /**
   Whoever is past `lock_hrtimer_base` owns the timer alone: it holds the lock of the base the timer
   points to, or the timer is on the migration base and no other thread put it there. The restart of an
   enqueued timer keeps it marked enqueued all the way, and `goto again` happens at most once.
   */
  lemma Ownership(s: State, id: ThreadId, t: Timer)
    requires Reachable(s) && s.PcOf(id).Owns(t)
    ensures t in s.home
    ensures s.PcOf(id).AtHome() ==>
      s.home[t] == At(s.PcOf(id).base) && s.PcOf(id).base.cpu in s.lock && s.lock[s.PcOf(id).base.cpu] == Thread(id)
    ensures s.PcOf(id).IsParked() ==> s.home[t] == Migration
    ensures forall jd :: s.PcOf(jd).Owns(t) ==> jd == id
    ensures s.PcOf(id).InWindow() ==> (s.PcOf(id).queued <==> t in s.enqueued) && forall b :: (b, t) !in s.queue
    ensures s.PcOf(id).Switching? || s.PcOf(id).IsParked() ==>
      var pc := s.PcOf(id);
      pc.agains <= 1 && pc.op.Start? && pc.target == if pc.agains == 0 then pc.op.target else pc.op.cpu
  {
    ReachableInv(s);
    assert ThreadOk(s, id);
    forall jd | s.PcOf(jd).Owns(t) ensures jd == id { SoleOwner(s, id, jd, t); }
    forall b | s.PcOf(id).InWindow() ensures (b, t) !in s.queue { assert EntryOk(s, b, t); }
  }

  /**
   A timer's callback is in progress on at most one clock base, and until `running` is cleared the timer
   stays on that base; no timer is queued twice; and the consistency check before clearing never fires.
   */
  lemma CallbackExclusion(s: State, b: Base, t: Timer)
    requires Reachable(s) && s.ExpOf(b).Runs(t)
    ensures t in s.home && s.home[t] == At(b) && b in s.running && s.running[b] == t
    ensures forall d :: s.ExpOf(d).Runs(t) ==> d == b
    ensures forall id :: !(s.PcOf(id).IsParked() && s.PcOf(id).op.timer == t)
    ensures s.ExpOf(b).HoldsLock() ==> forall id :: !s.PcOf(id).Owns(t)
  {
    ReachableInv(s);
    assert BaseOk(s, b);
    forall d | s.ExpOf(d).Runs(t) ensures d == b { assert BaseOk(s, d); }
    forall id ensures !(s.PcOf(id).IsParked() && s.PcOf(id).op.timer == t) { assert ThreadOk(s, id); }
    forall id | s.ExpOf(b).HoldsLock() ensures !s.PcOf(id).Owns(t) {
      if s.PcOf(id).Owns(t) { OwnerExcludesExpirer(s, id, b, t); }
    }
  }

  lemma QueuedOnce(s: State, b: Base, t: Timer)
    requires Reachable(s) && (b, t) in s.queue
    ensures s.queue[(b, t)] == 1 && t in s.enqueued
    ensures forall d :: (d, t) in s.queue ==> d == b
  {
    ReachableInv(s);
    assert EntryOk(s, b, t);
    forall d | (d, t) in s.queue ensures d == b { assert EntryOk(s, d, t); }
  }

  // ----- No timer is lost

  /** A timer marked enqueued is on a queue, or one thread is carrying it to one. */
  ghost predicate Kept(s: State, t: Timer) {
    t in s.enqueued ==>
      (exists b :: (b, t) in s.queue) || (exists id :: s.PcOf(id).InWindow() && s.PcOf(id).op.timer == t)
  }

  lemma CarrierKeeps(s: State, e: Event, id: ThreadId)
    requires Inv(s) && Enabled(s, e) && s.PcOf(id).InWindow()
    ensures Kept(Apply(s, e), s.PcOf(id).op.timer)
  {
    var s' := Apply(s, e);
    var t := s.PcOf(id).op.timer;
    if e.ByThread() && e.id == id {
      hide ExpApply, ExpEnabled, Inv;
      if e.Enqueue? {
        assert (s.PcOf(id).base, t) in s'.queue;
      } else {
        hide ThreadQueues, HomeAfter, LockAfter;
        assert s'.PcOf(id).InWindow() && s'.PcOf(id).op.timer == t;
      }
    } else {
      OthersStay(s, e, id);
      hide Apply, Enabled, Inv;
    }
  }

  lemma OthersStay(s: State, e: Event, id: ThreadId)
    requires Enabled(s, e) && (e.ByThread() ==> e.id != id)
    ensures Apply(s, e).PcOf(id) == s.PcOf(id)
  {
    hide ThreadQueues, HomeAfter, LockAfter, ThreadNext, ThreadEnabled, ExpEffect, ExpNext, ExpEnabled;
  }

  lemma QueuedThenThread(s: State, e: Event, b: Base, t: Timer)
    requires Inv(s) && Enabled(s, e) && e.ByThread() && (b, t) in s.queue
    ensures Kept(Apply(s, e), t)
  {
    var s' := Apply(s, e);
    assert EntryOk(s, b, t) && ThreadOk(s, e.id);
    if e.Dequeue? && s.PcOf(e.id).op.timer == t {
      assert s'.PcOf(e.id).InWindow() && s'.PcOf(e.id).op.timer == t;
    } else if e.Dequeue? || e.CancelRemove? {
      assert t in s'.enqueued ==> (b, t) in s'.queue;
    } else {
      ThreadQueueGrows(s, e);
      assert (b, t) in s'.queue;
    }
  }

  lemma ThreadQueueGrows(s: State, e: Event)
    requires Enabled(s, e) && e.ByThread() && !e.Dequeue? && !e.CancelRemove?
    ensures s.queue <= Apply(s, e).queue
  {
  }

  lemma QueuedThenExp(s: State, e: Event, b: Base, t: Timer)
    requires Inv(s) && Enabled(s, e) && !e.ByThread() && (b, t) in s.queue
    ensures Kept(Apply(s, e), t)
  {
    assert EntryOk(s, b, t) && BaseOk(s, e.base);
    assert t in Apply(s, e).enqueued ==> (b, t) in Apply(s, e).queue;
  }

  lemma NewlyMarkedIsQueued(s: State, e: Event, t: Timer)
    requires Inv(s) && Enabled(s, e) && t !in s.enqueued && t in Apply(s, e).enqueued
    ensures Kept(Apply(s, e), t)
  {
    if e.ByThread() {
      assert (s.PcOf(e.id).base, t) in Apply(s, e).queue;
    } else {
      assert (e.base, t) in Apply(s, e).queue;
    }
  }

  lemma {:induction false} HistoryKeeps(h: History, t: Timer)
    requires Possible(h)
    ensures Kept(h.now, t)
  {
    match h
    case Fresh(s) =>
    case After(p, e, s) =>
      HistoryKeeps(p, t);
      HistoryInv(p);
      if t !in s.enqueued {
      } else if t !in p.now.enqueued {
        NewlyMarkedIsQueued(p.now, e, t);
      } else if b :| (b, t) in p.now.queue {
        if e.ByThread() { QueuedThenThread(p.now, e, b, t); } else { QueuedThenExp(p.now, e, b, t); }
      } else {
        var id :| p.now.PcOf(id).InWindow() && p.now.PcOf(id).op.timer == t;
        CarrierKeeps(p.now, e, id);
      }
  }

  /** A timer marked enqueued sits on the queue of the base it points to, or one restart carries it there. */
  lemma NoTimerLost(s: State, t: Timer)
    requires Reachable(s) && t in s.enqueued
    ensures t in s.home
    ensures (s.home[t].At? && (s.home[t].base, t) in s.queue)
            || (exists id :: s.PcOf(id).InWindow() && s.PcOf(id).Owns(t))
  {
    var h :| Possible(h) && h.now == s;
    HistoryInv(h);
    HistoryKeeps(h, t);
    if b :| (b, t) in s.queue {
      assert EntryOk(s, b, t);
    } else {
      var id :| s.PcOf(id).InWindow() && s.PcOf(id).op.timer == t;
      assert ThreadOk(s, id) && s.PcOf(id).Owns(t);
    }
  }

  // ----- The lock-free activity check

  /** Where a caller is inside `hrtimer_active`. */
  datatype Reader =
    | GetBase
    | GetSeq(base: Home)
    | GetState(base: Home, seqn: nat)
    | GetRunning(base: Home, seqn: nat)
    | GetSeqAgain(base: Home, seqn: nat)
    | GetBaseAgain(base: Home)
    | Answered(active: bool)
  {
    /** The reader has read `timer->base` and not yet checked that it is still the same. */
    predicate Carries() { !GetBase? && !Answered? }
  }

  function SeqAt(s: State, h: Home): nat { if h.At? then s.SeqOf(h.base) else 0 }

  predicate ReaderEnabled(s: State, t: Timer, r: Reader) {
    t in s.home && !r.Answered? && (r.GetSeq? ==> SeqAt(s, r.base) % 2 == 0)
  }

  function ReaderNext(s: State, t: Timer, r: Reader): Reader
    requires ReaderEnabled(s, t, r)
  {
    match r
    case GetBase => GetSeq(s.home[t])
    case GetSeq(h) => GetState(h, SeqAt(s, h))
    case GetState(h, n) => if t in s.enqueued then Answered(true) else GetRunning(h, n)
    case GetRunning(h, n) => if s.RunsAt(h, t) then Answered(true) else GetSeqAgain(h, n)
    case GetSeqAgain(h, n) => if SeqAt(s, h) != n then GetBase else GetBaseAgain(h)
    case GetBaseAgain(h) => if s.home[t] != h then GetBase else Answered(false)
  }

  /** One instant of a run during which somebody is inside `hrtimer_active(t)`. */
  datatype Instant = Instant(state: State, reader: Reader)

  datatype Move = Others(event: Event) | Reads

  predicate CanMove(x: Instant, m: Move, t: Timer) {
    match m
    case Others(e) => Enabled(x.state, e)
    case Reads => ReaderEnabled(x.state, t, x.reader)
  }

  function MoveOn(x: Instant, m: Move, t: Timer): Instant
    requires CanMove(x, m, t)
  {
    match m
    case Others(e) => Instant(Apply(x.state, e), x.reader)
    case Reads => Instant(x.state, ReaderNext(x.state, t, x.reader))
  }

  /** The instants of a call of `hrtimer_active`, interleaved with everybody else's steps. */
  datatype ActiveCall =
    | Begin(now: Instant)
    | Then(before: ActiveCall, move: Move, now: Instant)

  ghost predicate Watched(c: ActiveCall, t: Timer) {
    match c
    case Begin(x) => x.reader == GetBase && Reachable(x.state) && t in x.state.home
    case Then(d, m, y) => Watched(d, t) && CanMove(d.now, m, t) && y == MoveOn(d.now, m, t)
  }

  /** A step takes the timer back to the base that the reader still holds. */
  predicate ComesBack(x: Instant, y: Instant, t: Timer) {
    && x.reader.Carries() && t in x.state.home && t in y.state.home
    && x.state.home[t] != x.reader.base && y.state.home[t] == x.reader.base
  }

  /** The timer may move during the call, but never back to the base that the reader holds. */
  predicate NoReturn(c: ActiveCall, t: Timer) {
    c.Then? ==> NoReturn(c.before, t) && !ComesBack(c.before.now, c.now, t)
  }

  /** At some instant of the call the timer is quiet. */
  predicate SometimeQuiet(c: ActiveCall, t: Timer) {
    Quiet(c.now.state, t) || (c.Then? && SometimeQuiet(c.before, t))
  }

  /** The timer is neither enqueued nor the running timer of its base. */
  predicate Quiet(s: State, t: Timer) {
    t in s.home && t !in s.enqueued && !s.RunsAt(s.home[t], t)
  }

  /** What the reader's local values say as long as the timer has not been quiet. */
  ghost predicate ReaderOk(s: State, t: Timer, r: Reader) {
    && t in s.home
    && (r.Carries() ==> r.base == s.home[t])
    && (r.GetState? || r.GetRunning? || r.GetSeqAgain? ==> r.seqn % 2 == 0 && r.seqn <= SeqAt(s, r.base))
    && (r.GetRunning? ==> r.seqn < SeqAt(s, r.base) || InactiveRun(s, t, r.base))
    && (r.GetSeqAgain? ==> r.seqn < SeqAt(s, r.base))
    && !r.GetBaseAgain?
    && r != Answered(false)
  }

  /** `t` is running on `h`, past the point where it was marked inactive, and unless it is restarted
      before the second barrier it stays inactive until `running` is cleared. */
  ghost predicate InactiveRun(s: State, t: Timer, h: Home) {
    h.At? && var x := s.ExpOf(h.base);
    x.Runs(t) && !x.BeforeTaken() && !x.PostBarrier? && (x.Clearing? ==> t !in s.enqueued)
  }

  lemma ReaderMoves(s: State, t: Timer, r: Reader)
    requires Inv(s) && ReaderOk(s, t, r) && ReaderEnabled(s, t, r) && !Quiet(s, t)
    ensures ReaderOk(s, t, ReaderNext(s, t, r))
  {
    if (r.GetState? || r.GetRunning?) && r.base.At? {
      var b := r.base.base;
      assert BaseOk(s, b);
      if s.ExpOf(b).BeforeTaken() { assert EntryOk(s, b, s.ExpOf(b).timer); }
    }
  }

  lemma LeavesExpiry(s: State, e: Event)
    requires Enabled(s, e) && e.ByThread()
    ensures var s' := Apply(s, e); s'.expirers == s.expirers && s'.seqs == s.seqs && s'.running == s.running
  {
    hide ThreadQueues, ThreadNext, HomeAfter, LockAfter, ThreadEnabled, ExpApply, ExpEnabled;
  }

  lemma OnlyEnqueueMarks(s: State, e: Event)
    requires Enabled(s, e) && e.ByThread()
    ensures Apply(s, e).enqueued <= s.enqueued + (if e.Enqueue? then {s.PcOf(e.id).op.timer} else {})
  {
    hide ThreadNext, HomeAfter, LockAfter, ThreadEnabled, ExpApply, ExpEnabled;
  }

  /** Another thread's step never disturbs what the reader relies on. */
  lemma ReaderSurvivesThread(s: State, e: Event, t: Timer, r: Reader)
    requires Inv(s) && ReaderOk(s, t, r) && Enabled(s, e) && e.ByThread()
    requires t in Apply(s, e).home && Apply(s, e).home[t] == s.home[t]
    ensures ReaderOk(Apply(s, e), t, r)
  {
    hide ThreadNext, ThreadQueues, LockAfter, HomeAfter, ExpApply, ExpEnabled, Inv;
    var s' := Apply(s, e);
    LeavesExpiry(s, e);
    OnlyEnqueueMarks(s, e);
    if r.GetRunning? && r.base.At? && s.ExpOf(r.base.base).Clearing? && s.ExpOf(r.base.base).Runs(t)
       && t !in s.enqueued && t in s'.enqueued {
      OwnerExcludesExpirer(s, e.id, r.base.base, t);
    }
  }

  /** An expiry loop changes only the mark of the timer it runs. */
  lemma OnlyItsMark(s: State, e: Event, t: Timer)
    requires Enabled(s, e) && !e.ByThread() && !s.ExpOf(e.base).Runs(t)
    ensures t in Apply(s, e).enqueued <==> t in s.enqueued
  {
    hide ThreadApply, ThreadEnabled;
  }

  /** It leaves the other clock bases alone, and no sequence count ever falls. */
  lemma OnlyItsBase(s: State, e: Event, b: Base)
    requires Enabled(s, e) && !e.ByThread()
    ensures b != e.base ==> Apply(s, e).ExpOf(b) == s.ExpOf(b)
    ensures s.SeqOf(b) <= Apply(s, e).SeqOf(b)
  {
    hide ThreadApply, ThreadEnabled;
  }

  lemma ReaderSurvivesOtherExp(s: State, e: Event, t: Timer, r: Reader)
    requires Inv(s) && ReaderOk(s, t, r) && Enabled(s, e) && !e.ByThread()
    requires r.GetRunning? ==> r.base != At(e.base)
    ensures ReaderOk(Apply(s, e), t, r)
  {
    var s' := Apply(s, e);
    assert s'.home == s.home;
    hide Apply, Enabled;
    if r.Carries() && r.base.At? {
      var b := r.base.base;
      OnlyItsBase(s, e, b);
      if InactiveRun(s, t, r.base) && b != e.base {
        assert BaseOk(s, e.base) && BaseOk(s, b);
        OnlyItsMark(s, e, t);
      }
    }
  }

  /** A step of the expiry loop the reader looks at disturbs it only by making the timer quiet. */
  lemma ReaderSurvivesOwnExp(s: State, e: Event, t: Timer, r: Reader)
    requires Inv(s) && ReaderOk(s, t, r) && Enabled(s, e) && !e.ByThread()
    requires r.GetRunning? && r.base == At(e.base) && !Quiet(Apply(s, e), t)
    ensures ReaderOk(Apply(s, e), t, r)
  {
    assert BaseOk(s, e.base);
    OnlyItsBase(s, e, e.base);
    hide Inv, ThreadApply, ThreadEnabled;
    if r.seqn == s.SeqOf(e.base) {
      match e
      case Fire(b) =>
      case Return(b) =>
      case Restart(b, restart) =>
      case BeginPost(b) =>
      case Clear(b) =>
      case _ =>
    } else {
      hide ExpApply, ExpEnabled;
    }
  }

  lemma ReaderSurvives(x: Instant, m: Move, t: Timer)
    requires Inv(x.state) && ReaderOk(x.state, t, x.reader) && CanMove(x, m, t)
    requires var y := MoveOn(x, m, t);
      t in y.state.home && y.state.home[t] == x.state.home[t] && !Quiet(x.state, t) && !Quiet(y.state, t)
    ensures var y := MoveOn(x, m, t); Inv(y.state) && ReaderOk(y.state, t, y.reader)
  {
    match m
    case Reads => ReaderMoves(x.state, t, x.reader);
    case Others(e) =>
      EventKeepsInv(x.state, e);
      if e.ByThread() {
        ReaderSurvivesThread(x.state, e, t, x.reader);
      } else if x.reader.GetRunning? && x.reader.base == At(e.base) {
        ReaderSurvivesOwnExp(x.state, e, t, x.reader);
      } else {
        ReaderSurvivesOtherExp(x.state, e, t, x.reader);
      }
  }

  /** The reader's facts hold, or the timer has left the base it holds, which the last access will notice. */
  ghost predicate ReaderFine(s: State, t: Timer, r: Reader) {
    && t in s.home && r != Answered(false)
    && (ReaderOk(s, t, r) || (r.Carries() && r.base != s.home[t]))
  }

  lemma HomesStay(s: State, e: Event, t: Timer)
    requires Enabled(s, e) && t in s.home
    ensures t in Apply(s, e).home
    ensures Apply(s, e).home[t] == s.home[t] || (e.MovesHome() && s.PcOf(e.id).op.timer == t)
  {
    if e.MovesHome() {
      hide ExpApply, ExpEnabled;
    } else {
      hide ThreadEnabled, ExpEnabled;
    }
  }

  lemma ReaderStaysFine(x: Instant, m: Move, t: Timer)
    requires Inv(x.state) && ReaderFine(x.state, t, x.reader) && CanMove(x, m, t)
    requires var y := MoveOn(x, m, t); !Quiet(x.state, t) && !Quiet(y.state, t) && !ComesBack(x, y, t)
    ensures var y := MoveOn(x, m, t); Inv(y.state) && ReaderFine(y.state, t, y.reader)
  {
    hide Inv, Quiet, Apply, Enabled, ReaderOk;
    match m
    case Reads =>
      if ReaderOk(x.state, t, x.reader) {
        ReaderSurvives(x, m, t);
      } else {
        LeftBehind(x.state, t, x.reader);
      }
      NeverFalse(MoveOn(x, m, t).state, t, MoveOn(x, m, t).reader);
    case Others(e) =>
      EventKeepsInv(x.state, e);
      HomesStay(x.state, e, t);
      var y := MoveOn(x, m, t);
      if !x.reader.Carries() {
        OutsideIsFine(y.state, t, x.reader);
      } else if y.state.home[t] == x.reader.base {
        ReaderSurvives(x, m, t);
      }
  }

  /** A reader whose base the timer has left goes round again, if it does not find the timer active. */
  lemma LeftBehind(s: State, t: Timer, r: Reader)
    requires ReaderEnabled(s, t, r) && r.Carries() && r.base != s.home[t]
    ensures var q := ReaderNext(s, t, r);
      ReaderOk(s, t, q) || (q.Carries() && q.base == r.base)
  {
  }

  lemma NeverFalse(s: State, t: Timer, r: Reader)
    ensures ReaderOk(s, t, r) ==> r != Answered(false)
  {
  }

  lemma OutsideIsFine(s: State, t: Timer, r: Reader)
    requires t in s.home && (r.GetBase? || r == Answered(true))
    ensures ReaderOk(s, t, r)
  {
  }

  lemma {:induction false} ReaderNeverMisled(c: ActiveCall, t: Timer)
    requires Watched(c, t) && NoReturn(c, t) && !SometimeQuiet(c, t)
    ensures Inv(c.now.state) && ReaderFine(c.now.state, t, c.now.reader)
  {
    match c
    case Begin(x) => ReachableInv(x.state);
    case Then(d, m, y) =>
      ReaderNeverMisled(d, t);
      ReaderStaysFine(d.now, m, t);
  }

  /**
   However the call is interleaved with starts, cancels and expiry on any CPU, and wherever the timer moves,
   as long as it does not come back to the base that the reader holds, the answer "not active" is true of some
   instant within the call.
   */
  lemma ActivityCheckIsSound(c: ActiveCall, t: Timer)
    requires Watched(c, t) && NoReturn(c, t) && c.now.reader == Answered(false)
    ensures SometimeQuiet(c, t)
  {
    if !SometimeQuiet(c, t) { ReaderNeverMisled(c, t); }
  }

  /** The answer "active" is true of the instant it was given on, without any proviso. */
  lemma ActiveAnswerIsSound(s: State, t: Timer, r: Reader)
    requires Reachable(s) && ReaderEnabled(s, t, r) && ReaderNext(s, t, r) == Answered(true)
    ensures !Quiet(s, t)
  {
    ReachableInv(s);
    if r.GetRunning? { assert BaseOk(s, r.base.base); }
  }

  // ----- Which CPUs the timer may be started on

  /** A start of `t` is made from, and aims at, one of these CPUs. */
  predicate KeepsTo(e: Event, t: Timer, cpus: set<Cpu>) {
    e.Call? && e.op.Start? && e.op.timer == t ==> e.op.cpu in cpus && e.op.target in cpus
  }

  /** A run in which `t` begins on one of these CPUs and all its starts keep to them. */
  predicate RunsOn(h: History, t: Timer, cpus: set<Cpu>) {
    match h
    case Fresh(s) => t in s.home && s.home[t].At? && s.home[t].base.cpu in cpus
    case After(p, e, s) => RunsOn(p, t, cpus) && KeepsTo(e, t, cpus)
  }

  ghost predicate LeadsTo(h: History, s: State, t: Timer, cpus: set<Cpu>) {
    Possible(h) && h.now == s && RunsOn(h, t, cpus)
  }

  /** A call of `hrtimer_active(t)` in such a run. */
  ghost predicate WatchedOn(c: ActiveCall, t: Timer, cpus: set<Cpu>) {
    match c
    case Begin(x) => x.reader == GetBase && exists h :: LeadsTo(h, x.state, t, cpus)
    case Then(d, m, y) =>
      && WatchedOn(d, t, cpus) && CanMove(d.now, m, t) && y == MoveOn(d.now, m, t)
      && (m.Others? ==> KeepsTo(m.event, t, cpus))
  }

  lemma {:induction false} RunsOnHasHome(h: History, t: Timer, cpus: set<Cpu>)
    requires Possible(h) && RunsOn(h, t, cpus)
    ensures t in h.now.home
  {
    match h
    case Fresh(s) =>
    case After(p, e, s) =>
      RunsOnHasHome(p, t, cpus);
      HomesStay(p.now, e, t);
  }

  lemma {:induction false} WatchedOnIsWatched(c: ActiveCall, t: Timer, cpus: set<Cpu>)
    requires WatchedOn(c, t, cpus)
    ensures Watched(c, t)
  {
    hide Possible;
    match c
    case Begin(x) =>
      var h :| LeadsTo(h, x.state, t, cpus);
      RunsOnHasHome(h, t, cpus);
    case Then(d, m, y) => WatchedOnIsWatched(d, t, cpus);
  }

  /** Nothing can move `t` away from `b`: every start of it under way aims at the CPU of `b`. */
  ghost predicate Bound(s: State, t: Timer, b: Base) {
    t in s.home && s.home[t] == At(b) && forall id :: StaysOn(s.PcOf(id), t, b.cpu)
  }

  predicate StaysOn(pc: Pc, t: Timer, cpu: Cpu) {
    !pc.Idle? && pc.op.timer == t && pc.op.Start? ==>
      && pc.op.cpu == cpu && pc.op.target == cpu && !pc.IsParked()
      && (pc.Switching? ==> pc.target == cpu)
  }

  /** On the only CPU there is for it, the new base is the old one, so the timer is never parked. */
  lemma NotParked(s: State, e: Event, t: Timer, b: Base)
    requires Inv(s) && Enabled(s, e) && e.ByThread() && Bound(s, t, b) && s.PcOf(e.id) != Idle
    requires s.PcOf(e.id).op.timer == t
    ensures !e.MovesHome()
  {
    hide ExpEnabled;
    assert ThreadOk(s, e.id) && StaysOn(s.PcOf(e.id), t, b.cpu);
    hide Inv, ThreadOk, Bound;
  }

  lemma OwnStaysOn(s: State, e: Event, t: Timer, b: Base, cpus: set<Cpu>)
    requires Enabled(s, e) && e.ByThread() && StaysOn(s.PcOf(e.id), t, b.cpu) && KeepsTo(e, t, cpus)
    requires s.PcOf(e.id) != Idle && s.PcOf(e.id).op.timer == t ==> !e.MovesHome()
    requires forall c :: c in cpus ==> c == b.cpu
    ensures StaysOn(Apply(s, e).PcOf(e.id), t, b.cpu)
  {
    hide ExpApply, ExpEnabled;
  }

  lemma BoundThread(s: State, e: Event, t: Timer, b: Base, cpus: set<Cpu>)
    requires Inv(s) && Enabled(s, e) && e.ByThread() && Bound(s, t, b) && KeepsTo(e, t, cpus)
    requires forall c :: c in cpus ==> c == b.cpu
    ensures Bound(Apply(s, e), t, b)
  {
    var s' := Apply(s, e);
    hide Apply, Enabled;
    if s.PcOf(e.id) != Idle && s.PcOf(e.id).op.timer == t { NotParked(s, e, t, b); }
    hide Inv;
    HomesStay(s, e, t);
    forall id ensures StaysOn(s'.PcOf(id), t, b.cpu) {
      assert StaysOn(s.PcOf(id), t, b.cpu);
      if id == e.id { OwnStaysOn(s, e, t, b, cpus); } else { OthersStay(s, e, id); }
    }
  }

  lemma BoundStep(s: State, e: Event, t: Timer, b: Base, cpus: set<Cpu>)
    requires Inv(s) && Enabled(s, e) && Bound(s, t, b) && KeepsTo(e, t, cpus)
    requires forall c :: c in cpus ==> c == b.cpu
    ensures Bound(Apply(s, e), t, b)
  {
    if e.ByThread() {
      BoundThread(s, e, t, b, cpus);
    } else {
      hide ThreadApply, ThreadEnabled;
      var s' := Apply(s, e);
      forall id ensures StaysOn(s'.PcOf(id), t, b.cpu) { assert StaysOn(s.PcOf(id), t, b.cpu); }
    }
  }

  lemma {:induction false} BoundInRun(h: History, t: Timer, cpus: set<Cpu>) returns (b: Base)
    requires Possible(h) && RunsOn(h, t, cpus)
    requires forall c, d :: c in cpus && d in cpus ==> c == d
    ensures Inv(h.now) && Bound(h.now, t, b) && b.cpu in cpus
  {
    hide Apply, Enabled;
    match h
    case Fresh(s) =>
      InitInv(s);
      b := s.home[t].base;
    case After(p, e, s) =>
      b := BoundInRun(p, t, cpus);
      EventKeepsInv(p.now, e);
      BoundStep(p.now, e, t, b, cpus);
  }

  lemma {:induction false} BoundInCall(c: ActiveCall, t: Timer, cpus: set<Cpu>) returns (b: Base)
    requires WatchedOn(c, t, cpus)
    requires forall c, d :: c in cpus && d in cpus ==> c == d
    ensures Inv(c.now.state) && Bound(c.now.state, t, b) && b.cpu in cpus && NoReturn(c, t)
  {
    hide Apply, Enabled, Possible, RunsOn;
    match c
    case Begin(x) =>
      var h :| LeadsTo(h, x.state, t, cpus);
      b := BoundInRun(h, t, cpus);
    case Then(d, m, y) =>
      b := BoundInCall(d, t, cpus);
      if m.Others? {
        EventKeepsInv(d.now.state, m.event);
        BoundStep(d.now.state, m.event, t, b, cpus);
      }
  }

  /** The answer "not active" can be relied on when the starts of `t` keep to these CPUs. */
  ghost predicate Reliable(t: Timer, cpus: set<Cpu>) {
    forall c :: WatchedOn(c, t, cpus) && c.now.reader == Answered(false) ==> SometimeQuiet(c, t)
  }

  /** The answer can be relied on exactly when there is no choice of CPU: for any two CPUs that a timer may be
      moved between there is a call that is misled. */
  lemma ReliableOnOneCpu(t: Timer, cpus: set<Cpu>)
    ensures Reliable(t, cpus) <==> forall a, b :: a in cpus && b in cpus ==> a == b
  {
    if forall a, b :: a in cpus && b in cpus ==> a == b {
      forall c | WatchedOn(c, t, cpus) && c.now.reader == Answered(false) ensures SometimeQuiet(c, t) {
        var b := BoundInCall(c, t, cpus);
        WatchedOnIsWatched(c, t, cpus);
        ActivityCheckIsSound(c, t);
      }
    } else {
      var a, b :| a in cpus && b in cpus && a != b;
      var x := MisledWhenTimerReturns(t, Base(a, 0), Base(b, 0), cpus);
    }
  }

  // ----- A call that is misled

  /** A call during which the timer was never quiet. */
  ghost predicate Busy(c: ActiveCall, t: Timer, cpus: set<Cpu>) { WatchedOn(c, t, cpus) && !SometimeQuiet(c, t) }

  lemma OthersMove(c: ActiveCall, e: Event, t: Timer, cpus: set<Cpu>) returns (d: ActiveCall)
    requires Busy(c, t, cpus) && Enabled(c.now.state, e) && KeepsTo(e, t, cpus) && !Quiet(Apply(c.now.state, e), t)
    ensures Busy(d, t, cpus) && d.now == Instant(Apply(c.now.state, e), c.now.reader)
  {
    d := Then(c, Others(e), Instant(Apply(c.now.state, e), c.now.reader));
  }

  lemma ReaderMove(c: ActiveCall, t: Timer, cpus: set<Cpu>) returns (d: ActiveCall)
    requires Busy(c, t, cpus) && ReaderEnabled(c.now.state, t, c.now.reader)
    ensures Busy(d, t, cpus) && d.now == Instant(c.now.state, ReaderNext(c.now.state, t, c.now.reader))
  {
    d := Then(c, Reads, Instant(c.now.state, ReaderNext(c.now.state, t, c.now.reader)));
  }

  /** A state with the timer at `h`, marked enqueued or not, and everybody but thread 0 outside. */
  ghost predicate Scene(s: State, t: Timer, h: Home, marked: set<Timer>, q: multiset<(Base, Timer)>,
                        l: map<Cpu, Agent>, pc: Pc) {
    && t in s.home && s.home[t] == h && s.enqueued == marked && s.queue == q
    && s.running == map[] && s.lock == l
    && (forall d :: d in s.expirers ==> s.expirers[d] == Resting) && s.PcOf(0) == pc
  }

  /** `t` just sits in the queue of `b`. */
  ghost predicate Settled(s: State, t: Timer, b: Base) {
    Scene(s, t, At(b), {t}, multiset{(b, t)}, map[], Idle)
  }

  lemma LockedForRestart(x: ActiveCall, t: Timer, from: Base, to: Cpu, cpus: set<Cpu>) returns (y: ActiveCall)
    requires Busy(x, t, cpus) && Settled(x.now.state, t, from) && to in cpus
    ensures Busy(y, t, cpus) && y.now.reader == x.now.reader && y.now.state.seqs == x.now.state.seqs
    ensures Scene(y.now.state, t, At(from), {t}, multiset{(from, t)}, map[from.cpu := Thread(0)],
                  Owned(Start(t, to, to), from))
  {
    hide Busy;
    y := OthersMove(x, Call(0, Start(t, to, to)), t, cpus);
    y := OthersMove(y, ReadHome(0), t, cpus);
    y := OthersMove(y, Lock(0), t, cpus);
    y := OthersMove(y, Confirm(0), t, cpus);
  }

  lemma ParkedForMove(x: ActiveCall, t: Timer, from: Base, to: Cpu, cpus: set<Cpu>) returns (y: ActiveCall)
    requires Busy(x, t, cpus) && from.cpu != to
    requires Scene(x.now.state, t, At(from), {t}, multiset{(from, t)}, map[from.cpu := Thread(0)],
                   Owned(Start(t, to, to), from))
    ensures Busy(y, t, cpus) && y.now.reader == x.now.reader && y.now.state.seqs == x.now.state.seqs
    ensures Scene(y.now.state, t, Migration, {t}, multiset{}, map[], Unlocked(Start(t, to, to), from, to, true, 0))
  {
    hide Busy;
    y := OthersMove(x, Dequeue(0), t, cpus);
    y := OthersMove(y, Park(0), t, cpus);
    y := OthersMove(y, DropOld(0), t, cpus);
  }

  lemma AtNewBase(x: ActiveCall, t: Timer, from: Base, to: Cpu, cpus: set<Cpu>) returns (y: ActiveCall)
    requires Busy(x, t, cpus)
    requires Scene(x.now.state, t, Migration, {t}, multiset{}, map[], Unlocked(Start(t, to, to), from, to, true, 0))
    ensures Busy(y, t, cpus) && y.now.reader == x.now.reader && y.now.state.seqs == x.now.state.seqs
    ensures Scene(y.now.state, t, At(Base(to, from.index)), {t}, multiset{}, map[to := Thread(0)],
                  Placing(Start(t, to, to), Base(to, from.index), true))
  {
    hide Busy;
    y := OthersMove(x, TakeNew(0), t, cpus);
    y := OthersMove(y, Settle(0), t, cpus);
  }

  lemma Placed(x: ActiveCall, t: Timer, op: Op, b: Base, cpus: set<Cpu>) returns (y: ActiveCall)
    requires Busy(x, t, cpus) && op.timer == t
    requires Scene(x.now.state, t, At(b), {t}, multiset{}, map[b.cpu := Thread(0)], Placing(op, b, true))
    ensures Busy(y, t, cpus) && y.now.reader == x.now.reader && y.now.state.seqs == x.now.state.seqs
    ensures Settled(y.now.state, t, b)
  {
    hide Busy;
    y := OthersMove(x, Enqueue(0), t, cpus);
    y := OthersMove(y, Unlock(0), t, cpus);
  }

  /** A restart from another CPU carries the timer over. */
  lemma CarriedOver(x: ActiveCall, t: Timer, from: Base, to: Cpu, cpus: set<Cpu>) returns (y: ActiveCall)
    requires Busy(x, t, cpus) && Settled(x.now.state, t, from) && from.cpu != to && to in cpus
    ensures Busy(y, t, cpus) && Settled(y.now.state, t, Base(to, from.index))
    ensures y.now.reader == x.now.reader && y.now.state.seqs == x.now.state.seqs
  {
    y := LockedForRestart(x, t, from, to, cpus);
    y := ParkedForMove(y, t, from, to, cpus);
    y := AtNewBase(y, t, from, to, cpus);
    y := Placed(y, t, Start(t, to, to), Base(to, from.index), cpus);
  }

  /** The expiry loop of `b` at `x` with the timer, and nobody else around. */
  ghost predicate Expiring(s: State, t: Timer, b: Base, marked: bool, l: map<Cpu, Agent>, x: ExpPc) {
    && t in s.home && s.home[t] == At(b) && s.PcOf(0) == Idle
    && s.enqueued == (if marked then {t} else {}) && s.queue == (if marked then multiset{(b, t)} else multiset{})
    && s.running == map[b := t] && s.lock == l && s.ExpOf(b) == x
    && (forall d :: d in s.expirers && d != b ==> s.expirers[d] == Resting)
  }

  lemma Marking(x: ActiveCall, t: Timer, b: Base, cpus: set<Cpu>) returns (y: ActiveCall)
    requires Busy(x, t, cpus) && Settled(x.now.state, t, b)
    ensures Busy(y, t, cpus) && y.now.reader == x.now.reader
    ensures Expiring(y.now.state, t, b, true, map[b.cpu := Expirer(b)], MarkBarrier(t))
    ensures forall d :: d != b ==> y.now.state.SeqOf(d) == x.now.state.SeqOf(d)
  {
    hide Busy, ThreadApply, ThreadEnabled;
    y := OthersMove(x, ExpLock(b), t, cpus);
    y := OthersMove(y, Mark(b, t), t, cpus);
    y := OthersMove(y, BeginFence(b), t, cpus);
  }

  lemma Firing(x: ActiveCall, t: Timer, b: Base, cpus: set<Cpu>) returns (y: ActiveCall)
    requires Busy(x, t, cpus) && Expiring(x.now.state, t, b, true, map[b.cpu := Expirer(b)], MarkBarrier(t))
    ensures Busy(y, t, cpus) && y.now.reader == x.now.reader
    ensures Expiring(y.now.state, t, b, false, map[], Callback(t))
    ensures forall d :: d != b ==> y.now.state.SeqOf(d) == x.now.state.SeqOf(d)
  {
    hide Busy, ThreadApply, ThreadEnabled;
    y := OthersMove(x, EndFence(b), t, cpus);
    y := OthersMove(y, Take(b), t, cpus);
    y := OthersMove(y, Fire(b), t, cpus);
  }

  lemma Refilling(x: ActiveCall, t: Timer, b: Base, cpus: set<Cpu>) returns (y: ActiveCall)
    requires Busy(x, t, cpus) && Expiring(x.now.state, t, b, false, map[], Callback(t))
    ensures Busy(y, t, cpus) && y.now.reader == x.now.reader
    ensures Expiring(y.now.state, t, b, true, map[b.cpu := Expirer(b)], PostBarrier(t))
    ensures forall d :: d != b ==> y.now.state.SeqOf(d) == x.now.state.SeqOf(d)
  {
    hide Busy, ThreadApply, ThreadEnabled;
    y := OthersMove(x, Return(b), t, cpus);
    y := OthersMove(y, Restart(b, true), t, cpus);
    y := OthersMove(y, BeginPost(b), t, cpus);
  }

  lemma Cleared(x: ActiveCall, t: Timer, b: Base, cpus: set<Cpu>) returns (y: ActiveCall)
    requires Busy(x, t, cpus) && Expiring(x.now.state, t, b, true, map[b.cpu := Expirer(b)], PostBarrier(t))
    ensures Busy(y, t, cpus) && y.now.reader == x.now.reader
    ensures Scene(y.now.state.(expirers := map[]), t, At(b), {t}, multiset{(b, t)}, map[b.cpu := Expirer(b)], Idle)
    ensures y.now.state.ExpOf(b) == Holding
    ensures forall d :: d in y.now.state.expirers && d != b ==> y.now.state.expirers[d] == Resting
    ensures forall d :: d != b ==> y.now.state.SeqOf(d) == x.now.state.SeqOf(d)
  {
    hide Busy, ThreadApply, ThreadEnabled;
    y := OthersMove(x, EndPost(b), t, cpus);
    y := OthersMove(y, Clear(b), t, cpus);
  }

  lemma Refilled(x: ActiveCall, t: Timer, b: Base, cpus: set<Cpu>) returns (y: ActiveCall)
    requires Busy(x, t, cpus) && Expiring(x.now.state, t, b, true, map[b.cpu := Expirer(b)], PostBarrier(t))
    ensures Busy(y, t, cpus) && Settled(y.now.state, t, b) && y.now.reader == x.now.reader
    ensures forall d :: d != b ==> y.now.state.SeqOf(d) == x.now.state.SeqOf(d)
  {
    hide Busy;
    y := Cleared(x, t, b, cpus);
    y := OthersMove(y, ExpUnlock(b), t, cpus);
  }

  lemma Step(h: History, e: Event, t: Timer, cpus: set<Cpu>) returns (g: History)
    requires Possible(h) && Enabled(h.now, e) && RunsOn(h, t, cpus) && KeepsTo(e, t, cpus)
    ensures Possible(g) && g.now == Apply(h.now, e) && RunsOn(g, t, cpus)
  {
    g := After(h, e, Apply(h.now, e));
  }

  lemma OwnedOnce(t: Timer, b: Base, cpus: set<Cpu>) returns (h: History)
    requires b.cpu in cpus
    ensures Possible(h) && RunsOn(h, t, cpus) && h.now.seqs == map[]
    ensures Scene(h.now, t, At(b), {}, multiset{}, map[b.cpu := Thread(0)], Owned(Start(t, b.cpu, b.cpu), b))
  {
    hide Possible, RunsOn;
    h := Initialised(t, b, cpus);
    h := Step(h, Call(0, Start(t, b.cpu, b.cpu)), t, cpus);
    h := Step(h, ReadHome(0), t, cpus);
    h := Step(h, Lock(0), t, cpus);
    h := Step(h, Confirm(0), t, cpus);
  }

  lemma Initialised(t: Timer, b: Base, cpus: set<Cpu>) returns (h: History)
    requires b.cpu in cpus
    ensures Possible(h) && RunsOn(h, t, cpus)
    ensures h.now == State(map[t := At(b)], {}, multiset{}, map[], map[], map[], map[], map[])
  {
    h := Fresh(State(map[t := At(b)], {}, multiset{}, map[], map[], map[], map[], map[]));
  }

  lemma PlacedOnce(t: Timer, b: Base, cpus: set<Cpu>) returns (h: History)
    requires b.cpu in cpus
    ensures Possible(h) && RunsOn(h, t, cpus) && h.now.seqs == map[]
    ensures Scene(h.now, t, At(b), {}, multiset{}, map[b.cpu := Thread(0)], Placing(Start(t, b.cpu, b.cpu), b, false))
  {
    hide Possible, RunsOn;
    h := OwnedOnce(t, b, cpus);
    h := Step(h, Dequeue(0), t, cpus);
    h := Step(h, Stay(0), t, cpus);
  }

  /** A freshly initialised timer, started once. */
  lemma StartedOnce(t: Timer, b: Base, cpus: set<Cpu>) returns (h: History)
    requires b.cpu in cpus
    ensures Possible(h) && RunsOn(h, t, cpus) && Settled(h.now, t, b) && h.now.seqs == map[]
  {
    hide Possible, RunsOn;
    h := PlacedOnce(t, b, cpus);
    h := Step(h, Enqueue(0), t, cpus);
    h := Step(h, Unlock(0), t, cpus);
  }

  lemma CallBegins(h: History, t: Timer, cpus: set<Cpu>) returns (x: ActiveCall)
    requires Possible(h) && RunsOn(h, t, cpus) && !Quiet(h.now, t)
    ensures Busy(x, t, cpus) && x.now == Instant(h.now, GetBase)
  {
    x := Begin(Instant(h.now, GetBase));
    assert LeadsTo(h, h.now, t, cpus);
  }

  lemma ReadSeq(x: ActiveCall, t: Timer, b: Base, cpus: set<Cpu>) returns (y: ActiveCall)
    requires Busy(x, t, cpus) && x.now.reader == GetBase && Settled(x.now.state, t, b) && x.now.state.SeqOf(b) == 0
    ensures Busy(y, t, cpus) && y.now.state == x.now.state && y.now.reader == GetState(At(b), 0)
  {
    hide Busy;
    y := ReaderMove(x, t, cpus);
    y := ReaderMove(y, t, cpus);
  }

  lemma ReadElsewhere(x: ActiveCall, t: Timer, here: Base, there: Base, cpus: set<Cpu>) returns (y: ActiveCall)
    requires Busy(x, t, cpus) && x.now.reader == GetState(At(here), 0) && here != there
    requires Expiring(x.now.state, t, there, false, map[], Callback(t))
    ensures Busy(y, t, cpus) && y.now.state == x.now.state && y.now.reader == GetSeqAgain(At(here), 0)
  {
    hide Busy;
    y := ReaderMove(x, t, cpus);
    y := ReaderMove(y, t, cpus);
  }

  lemma ReadBack(x: ActiveCall, t: Timer, b: Base, cpus: set<Cpu>) returns (y: ActiveCall)
    requires Busy(x, t, cpus) && x.now.reader == GetSeqAgain(At(b), 0)
    requires Settled(x.now.state, t, b) && x.now.state.SeqOf(b) == 0
    ensures Busy(y, t, cpus) && y.now.reader == Answered(false)
  {
    hide Busy;
    y := ReaderMove(x, t, cpus);
    y := ReaderMove(y, t, cpus);
  }

  /**
   The proviso of `ActivityCheckIsSound` is needed: a timer that is carried to another CPU, runs there with
   a restarting callback, and is carried back while the reader is between its accesses is answered "not
   active" although at every instant of the call it was enqueued or running.
   */
  lemma MisledWhenTimerReturns(t: Timer, here: Base, there: Base, cpus: set<Cpu>) returns (x: ActiveCall)
    requires here.cpu in cpus && there.cpu in cpus && here.cpu != there.cpu && here.index == there.index
    ensures WatchedOn(x, t, cpus) && x.now.reader == Answered(false) && !SometimeQuiet(x, t)
  {
    var h := StartedOnce(t, here, cpus);
    x := CallBegins(h, t, cpus);
    x := ReadSeq(x, t, here, cpus);
    x := CarriedOver(x, t, here, there.cpu, cpus);
    assert x.now.state.SeqOf(here) == 0;
    x := Marking(x, t, there, cpus);
    x := Firing(x, t, there, cpus);
    x := ReadElsewhere(x, t, here, there, cpus);
    x := Refilling(x, t, there, cpus);
    x := Refilled(x, t, there, cpus);
    x := CarriedOver(x, t, there, here.cpu, cpus);
    x := ReadBack(x, t, here, cpus);
  }
}
