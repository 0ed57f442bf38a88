/**
 One CPU's `hrtimer_cpu_base`: eight sorted queues, the bit mask of the non-empty ones, and the cached next
 events. Each method from `Take` on is one stretch of code run under the CPU's lock, by this CPU or by another;
 any order of their calls is an interleaving. The methods before are what these stretches are made of.
 */
module HrtimerCpu {
  import opened Options
  import opened HrtimerQueues

  /** Where `__hrtimer_run_queues` is on this CPU, once for the timer interrupt and once for the softirq.
      `todo` is the snapshot of the active bases it works through; in a callback the lock is free. */
  datatype Phase =
    | Outside
    | Scanning(now: int, todo: seq<bool>, idx: nat)
    | InCallback(now: int, todo: seq<bool>, idx: nat, timer: Timer)

  class CpuBase {
    var queues: seq<Queue>
    const offset: seq<int>
    var active: seq<bool>
    var nextTimer: Option<Timer>
    var softirqNextTimer: Option<Timer>
    var expiresNext: int
    var softirqExpiresNext: int
    var softirqActivated: bool
    var irq: Phase
    var softirq: Phase

    /** `in_hrtirq`. */
    predicate InHrtirq() reads this { !irq.Outside? }

    predicate LockFree() reads this { !irq.Scanning? && !softirq.Scanning? }

    ghost predicate Valid() reads this {
      && |queues| == |offset| == |active| == MAX_BASES
      && (forall i :: 0 <= i < MAX_BASES ==> QueueOk(queues[i], offset[i], i))
      && (forall i :: 0 <= i < MAX_BASES ==> (active[i] <==> queues[i] != []))
      && 0 <= expiresNext <= KTIME_MAX && 0 <= softirqExpiresNext <= KTIME_MAX
      && (softirqActivated ==> softirqExpiresNext == KTIME_MAX)
      && PhaseOk(irq, 0, SOFT_BASES) && PhaseOk(softirq, SOFT_BASES, MAX_BASES)
      && !(irq.Scanning? && softirq.Scanning?)
    }

    static ghost predicate QueueOk(q: Queue, off: int, i: nat) {
      && Sorted(q) && Distinct(q)
      && (forall t :: t in q ==> TimerOk(t, off, i))
    }

    /** No wrap-around, a soft expiry not behind the hard one, and the right kind of base. */
    static predicate TimerOk(t: Timer, off: int, i: nat) {
      t.softExpires <= t.expires && t.expires - off <= KTIME_MAX && (t.soft <==> SOFT_BASES <= i) && t.index == i
    }

    static predicate PhaseOk(p: Phase, lo: nat, hi: nat) {
      !p.Outside? ==>
        && |p.todo| == MAX_BASES && lo <= p.idx <= hi
        && (p.InCallback? ==> p.idx < hi && p.timer.softExpires <= p.timer.expires)
    }

    /** The event device is not armed later than any hard timer queued here. */
    ghost predicate Armed() reads this
      requires Valid()
    {
      !InHrtirq() ==> Bounded(queues, offset, 0, SOFT_BASES, expiresNext)
    }

    // The same for soft timers

    /** No softirq is pending or running, and the interrupt is not running. */
    predicate Idle() reads this { irq.Outside? && softirq.Outside? && !softirqActivated }

    /** While nothing else is going to look after the soft timers, the device is not armed later than any. */
    ghost predicate SoftArmed() reads this
      requires Valid()
    {
      Idle() ==> Bounded(queues, offset, SOFT_BASES, MAX_BASES, expiresNext)
    }

    /** When the timer expires, as the event device is told. */
    function Event(timer: Timer): int
      requires timer.index < |offset|
    {
      Max0(timer.expires - offset[timer.index])
    }

    /** The next soft event on record is at or before `e`, but the device is armed for later than `e`. */
    predicate Overlooked(e: int) reads this { softirqExpiresNext <= e < expiresNext }

    /** What is cached of the next events is what it was. */
    twostate predicate CachesKept() reads this {
      && expiresNext == old(expiresNext) && nextTimer == old(nextTimer)
      && softirqExpiresNext == old(softirqExpiresNext) && softirqNextTimer == old(softirqNextTimer)
      && softirqActivated == old(softirqActivated)
    }

    /** A queued timer may have become the next soft event on record, but the device is left as it is. */
    twostate predicate RecordsOnly(timer: Timer) reads this
      requires timer.index < |offset| && timer.index < |queues|
    {
      var sooner := queues[timer.index] != [] && queues[timer.index][0] == timer && timer.soft && !softirqActivated
                    && Event(timer) < old(softirqExpiresNext);
      && expiresNext == old(expiresNext) && nextTimer == old(nextTimer) && softirqActivated == old(softirqActivated)
      && softirqExpiresNext == (if sooner then Event(timer) else old(softirqExpiresNext))
      && softirqNextTimer == (if sooner then Some(timer) else old(softirqNextTimer))
    }

    // ----- The next event

    /** The bases whose timers the event device has to serve: the soft ones only while no softirq is
        pending. */
    function EventBases(): nat reads this { if softirqActivated then SOFT_BASES else MAX_BASES }

    /** `__hrtimer_next_event_base` over the active soft bases, or over the active hard ones. */
    method NextEventBase(soft: bool, exclude: Option<nat>, best: int) returns (r: int)
      requires Valid()
      modifies this`nextTimer, this`softirqNextTimer
      ensures IsEarliest(queues, offset, Lo(soft), Hi(soft), exclude, best, r)
      ensures soft || exclude.Some? ==> nextTimer == old(nextTimer)
      ensures !soft || exclude.Some? ==> softirqNextTimer == old(softirqNextTimer)
      ensures soft && exclude.None? ==> Pointed(old(softirqNextTimer), softirqNextTimer, soft, best, r)
      ensures !soft && exclude.None? ==> Pointed(old(nextTimer), nextTimer, soft, best, r)
    {
      hide IsLeast, AttainsRaw, IsEarliest, Attains, PhaseOk;
      var lo, hi := Lo(soft), Hi(soft);
      LeastOfNone(queues, offset, lo, exclude, best);
      var least := best;
      var found: Option<Timer> := None;
      for i := lo to hi
        invariant IsLeast(queues, offset, lo, i, exclude, best, least)
        invariant found.None? ==> least == best
        invariant found.Some? && exclude.None? ==> AttainsRaw(queues, offset, lo, i, found.value, least)
        invariant found.Some? ==> found.value.soft == soft && least < best
        invariant nextTimer == old(nextTimer) && softirqNextTimer == old(softirqNextTimer)
      {
        LeastGrows(queues, offset, lo, i, exclude, best, least);
        if found.Some? && exclude.None? { AttainsGrows(queues, offset, lo, i, found.value, least); }
        var next := if active[i] then FirstOf(queues[i], exclude) else None;
        if next.Some? {
          var timer := next.value;
          assert timer in queues[i];
          var expires := timer.expires - offset[i];
          if expires < least {
            least, found := expires, Some(timer);
            if exclude.None? { LeftmostAttains(queues, offset, lo, i); }
          }
        }
      }
      LeastClamped(queues, offset, lo, hi, exclude, best, least);
      if found.Some? && exclude.None? {
        AttainsGrows(queues, offset, lo, hi, found.value, least);
        if found.value.soft { softirqNextTimer := found; } else { nextTimer := found; }
      }
      r := Max0(least);
    }

    /** A next-timer pointer after a search: untouched, or at a queued timer that attains the result. */
    ghost predicate Pointed(was: Option<Timer>, now: Option<Timer>, soft: bool, best: int, r: int)
      reads this
      requires |queues| == |offset|
    {
      || (now == was && r == Max0(best))
      || (now.Some? && Attains(queues, offset, Lo(soft), Hi(soft), now.value, r) && (best > 0 ==> r < best))
    }

    /** The pointer to the next soft timer is at one, or there is none to be at. */
    ghost predicate SoftPointed() reads this
      requires |queues| == |offset|
    {
      forall s :: IsEarliest(queues, offset, SOFT_BASES, MAX_BASES, None, KTIME_MAX, s) ==>
        if s < KTIME_MAX then
          softirqNextTimer.Some? && Attains(queues, offset, SOFT_BASES, MAX_BASES, softirqNextTimer.value, s)
        else softirqNextTimer == None
    }

    lemma SoftPointedAt(s: int)
      requires Valid() && IsEarliest(queues, offset, SOFT_BASES, MAX_BASES, None, KTIME_MAX, s)
      requires Pointed(None, softirqNextTimer, true, KTIME_MAX, s)
      ensures SoftPointed()
    {
      hide IsEarliest, Attains;
      forall t | IsEarliest(queues, offset, SOFT_BASES, MAX_BASES, None, KTIME_MAX, t) ensures s == t {
        EarliestIsUnique(queues, offset, SOFT_BASES, MAX_BASES, None, KTIME_MAX, s, t);
      }
    }

    /** `__hrtimer_get_next_event`; `soft` and `hard` are the two halves of the active mask. */
    method GetNextEvent(soft: bool, hard: bool) returns (r: int)
      requires Valid() && (soft || hard)
      modifies this`nextTimer, this`softirqNextTimer
      ensures var lo, hi := if hard then 0 else SOFT_BASES, if soft && !softirqActivated then MAX_BASES else SOFT_BASES;
        && IsEarliest(queues, offset, lo, hi, None, KTIME_MAX, r)
        && (hard && r < KTIME_MAX ==> nextTimer.Some? && Attains(queues, offset, lo, hi, nextTimer.value, r))
        && (!hard && r < KTIME_MAX ==>
              softirqNextTimer.Some? && Attains(queues, offset, lo, hi, softirqNextTimer.value, r))
      ensures hard && r == KTIME_MAX ==> nextTimer == None
      ensures !hard ==> nextTimer == old(nextTimer)
      ensures if soft && !softirqActivated then SoftPointed() else softirqNextTimer == old(softirqNextTimer)
    {
      var next: Option<Timer> := None;
      r := KTIME_MAX;
      if !softirqActivated && soft {
        softirqNextTimer := None;
        r := NextEventBase(true, None, KTIME_MAX);
        next := softirqNextTimer;
        SoftPointedAt(r);
      }
      if hard {
        nextTimer := next;
        var s := r;
        r := NextEventBase(false, None, r);
        if soft && !softirqActivated {
          EarliestOfBoth(queues, offset, SOFT_BASES, MAX_BASES, None, KTIME_MAX, s, r);
        }
      }
    }

    /** `hrtimer_next_event_without` in high-resolution mode. */
    method NextEventWithout(exclude: nat) returns (r: int)
      requires Valid()
      modifies this`nextTimer, this`softirqNextTimer
      ensures nextTimer == old(nextTimer) && softirqNextTimer == old(softirqNextTimer)
      ensures IsEarliest(queues, offset, 0, EventBases(), Some(exclude), KTIME_MAX, r)
    {
      r := KTIME_MAX;
      if !softirqActivated {
        r := NextEventBase(true, Some(exclude), KTIME_MAX);
      }
      var s := r;
      r := NextEventBase(false, Some(exclude), r);
      if !softirqActivated {
        EarliestOfBoth(queues, offset, SOFT_BASES, MAX_BASES, Some(exclude), KTIME_MAX, s, r);
      }
    }

    // ----- Programming the event device

    /** `hrtimer_force_reprogram`, up to the event device itself. */
    method ForceReprogram(skipEqual: bool)
      requires Valid()
      modifies this`nextTimer, this`softirqNextTimer, this`expiresNext, this`softirqExpiresNext
      ensures Valid() && Bounded(queues, offset, 0, SOFT_BASES, expiresNext)
      ensures IsEarliest(queues, offset, 0, EventBases(), None, KTIME_MAX, expiresNext)
      ensures expiresNext < KTIME_MAX ==>
        nextTimer.Some? && Attains(queues, offset, 0, EventBases(), nextTimer.value, expiresNext)
      ensures expiresNext == KTIME_MAX ==> nextTimer == None
      ensures softirqExpiresNext
           == if !softirqActivated && nextTimer.Some? && nextTimer.value.soft then expiresNext
              else old(softirqExpiresNext)
    {
      hide IsEarliest, Attains, QueueOk, PhaseOk;
      var r := GetNextEvent(true, true);
      EarliestBounds(queues, offset, 0, EventBases(), KTIME_MAX, r);
      if nextTimer.Some? && nextTimer.value.soft {
        if softirqActivated {
          r := GetNextEvent(false, true);
        } else {
          softirqExpiresNext := r;
        }
      }
      if softirqActivated { EarliestBounds(queues, offset, 0, EventBases(), KTIME_MAX, r); }
      if skipEqual && r == expiresNext { return; }
      expiresNext := r;
    }

    lemma AttainedIsQueued(lo: nat, hi: nat, t: Timer, r: int)
      requires Valid() && hi <= MAX_BASES && Attains(queues, offset, lo, hi, t, r)
      ensures t.index < MAX_BASES && t in queues[t.index] && TimerOk(t, offset[t.index], t.index)
      ensures lo <= t.index && r == Event(t)
    {
      var i: nat, k: nat :|
        Searched(queues, lo, hi, None, i, k) && queues[i][k] == t && r == EventTime(queues, offset, i, k);
      assert t in queues[i] && QueueOk(queues[i], offset[i], i);
    }

    /** `hrtimer_reprogram`; `local` says that the caller runs on this CPU. */
    method Reprogram(timer: Timer, reprogram: bool, local: bool)
      requires Valid() && timer.index < MAX_BASES && timer.expires - offset[timer.index] <= KTIME_MAX
      modifies this`nextTimer, this`softirqNextTimer, this`expiresNext, this`softirqExpiresNext
      ensures Valid()
      ensures var e := Max0(timer.expires - offset[timer.index]);
        var sooner := timer.soft && !softirqActivated && e < old(softirqExpiresNext);
        && softirqExpiresNext == (if sooner then e else old(softirqExpiresNext))
        && softirqNextTimer == (if sooner then Some(timer) else old(softirqNextTimer))
        && var arms := e < old(expiresNext) && local && !InHrtirq() && (timer.soft ==> sooner && reprogram);
           && expiresNext == (if arms then e else old(expiresNext))
           && nextTimer == (if arms then Some(timer) else old(nextTimer))
    {
      var expires := timer.expires - offset[timer.index];
      if expires < 0 { expires := 0; }
      if timer.soft {
        if softirqActivated { return; }
        if !(expires < softirqExpiresNext) { return; }
        softirqNextTimer := Some(timer);
        softirqExpiresNext := expires;
        if !(expires < expiresNext) || !reprogram { return; }
      }
      if !local { return; }
      if InHrtirq() { return; }
      if expires >= expiresNext { return; }
      nextTimer := Some(timer);
      expiresNext := expires;
    }

    // ----- Queueing

    /** `enqueue_hrtimer`: true when the timer is now the leftmost of its queue. */
    method Enqueue(timer: Timer) returns (leftmost: bool)
      requires Valid() && timer.index < MAX_BASES && TimerOk(timer, offset[timer.index], timer.index)
      requires forall t :: t in queues[timer.index] ==> t.id != timer.id
      modifies this`queues, this`active
      ensures Valid()
      ensures queues == old(queues)[timer.index := Insert(old(queues)[timer.index], timer)]
      ensures leftmost <==> queues[timer.index][0] == timer
    {
      hide Position, Insert, Sorted, Distinct;
      var i := timer.index;
      InsertDistinct(queues[i], timer);
      InsertAdds(queues[i], timer);
      active := active[i := true];
      queues := queues[i := Insert(queues[i], timer)];
      leftmost := queues[i][0] == timer;
    }

    /** `__remove_hrtimer` of a queued timer. */
    method RemoveTimer(timer: Timer, reprogram: bool)
      requires Valid() && timer.index < MAX_BASES && timer in queues[timer.index]
      modifies this`queues, this`active, this`nextTimer, this`softirqNextTimer, this`expiresNext,
               this`softirqExpiresNext
      ensures Valid()
      ensures queues == old(queues)[timer.index := Remove(old(queues)[timer.index], timer)]
      ensures old(Bounded(queues, offset, 0, SOFT_BASES, expiresNext)) ==>
        Bounded(queues, offset, 0, SOFT_BASES, expiresNext)
      ensures if reprogram && old(nextTimer).Some? && old(nextTimer).value.id == timer.id
        then
          && IsEarliest(queues, offset, 0, EventBases(), None, KTIME_MAX, expiresNext)
          && (expiresNext < KTIME_MAX ==>
                nextTimer.Some? && Attains(queues, offset, 0, EventBases(), nextTimer.value, expiresNext))
          && softirqExpiresNext == (if !softirqActivated && nextTimer.Some? && nextTimer.value.soft then expiresNext
                                    else old(softirqExpiresNext))
        else expiresNext == old(expiresNext) && nextTimer == old(nextTimer)
             && softirqExpiresNext == old(softirqExpiresNext) && softirqNextTimer == old(softirqNextTimer)
    {
      hide Remove, Sorted, Distinct;
      var i := timer.index;
      RemoveSorted(queues[i], timer);
      RemoveDistinct(queues[i], timer);
      RemoveTakes(queues[i], timer);
      queues := queues[i := Remove(queues[i], timer)];
      if queues[i] == [] {
        active := active[i := false];
      }
      if reprogram && nextTimer.Some? && nextTimer.value.id == timer.id {
        ForceReprogram(true);
      }
    }

    // ----- Stretches of code under the lock: start and cancel

    /** Nothing is queued, nothing runs. */
    constructor (offset: seq<int>)
      requires |offset| == MAX_BASES
      ensures Valid() && Armed() && LockFree() && Idle() && this.offset == offset
      ensures expiresNext == softirqExpiresNext == KTIME_MAX
      ensures queues == seq(MAX_BASES, _ => [])
    {
      this.offset := offset;
      queues := seq(MAX_BASES, _ => []);
      active := seq(MAX_BASES, _ => false);
      nextTimer, softirqNextTimer := None, None;
      expiresNext, softirqExpiresNext := KTIME_MAX, KTIME_MAX;
      softirqActivated := false;
      irq, softirq := Outside, Outside;
    }

    /** The first half of a restart, or a cancel: the timer leaves its queue. */
    method Take(timer: Timer, local: bool)
      requires Valid() && Armed() && LockFree()
      requires timer.index < MAX_BASES && timer in queues[timer.index]
      modifies this
      ensures Valid() && Armed() && LockFree() && irq == old(irq) && softirq == old(softirq)
      ensures queues == old(queues)[timer.index := Remove(old(queues)[timer.index], timer)]
      ensures softirqActivated == old(softirqActivated) && (old(SoftArmed()) ==> SoftArmed())
      ensures if local && old(nextTimer).Some? && old(nextTimer).value.id == timer.id
        then
          && IsEarliest(queues, offset, 0, EventBases(), None, KTIME_MAX, expiresNext)
          && (expiresNext < KTIME_MAX ==>
                nextTimer.Some? && Attains(queues, offset, 0, EventBases(), nextTimer.value, expiresNext))
          && softirqExpiresNext == (if !softirqActivated && nextTimer.Some? && nextTimer.value.soft then expiresNext
                                    else old(softirqExpiresNext))
        else expiresNext == old(expiresNext) && nextTimer == old(nextTimer)
             && softirqExpiresNext == old(softirqExpiresNext)
    {
      hide Remove, Attains, IsEarliest, QueueOk, PhaseOk;
      RemoveTakes(queues[timer.index], timer);
      RemoveTimer(timer, local);
      if local && old(nextTimer).Some? && old(nextTimer).value.id == timer.id && Idle() {
        EarliestBounds(queues, offset, 0, MAX_BASES, KTIME_MAX, expiresNext);
      }
    }

    /** `hrtimer_check_target`, by another CPU that holds this lock. */
    predicate CheckTarget(timer: Timer)
      reads this
      requires timer.index < |offset|
    {
      timer.expires - offset[timer.index] < expiresNext
    }

    predicate CanQueue(timer: Timer)
      reads this
      requires |queues| == |offset| == MAX_BASES
    {
      && timer.index < MAX_BASES && TimerOk(timer, offset[timer.index], timer.index)
      && forall t :: t in queues[timer.index] ==> t.id != timer.id
    }

    /** The second half of a start by this CPU that keeps the timer here. The device may be armed too late for a
        soft timer afterwards, exactly when the next soft event on record is an earlier one. */
    method StartHere(timer: Timer)
      requires Valid() && Armed() && LockFree() && CanQueue(timer)
      modifies this
      ensures Valid() && Armed() && LockFree() && irq == old(irq) && softirq == old(softirq)
      ensures queues == old(queues)[timer.index := Insert(old(queues)[timer.index], timer)]
      ensures softirqActivated == old(softirqActivated)
      ensures var e, leftmost := Event(timer), queues[timer.index][0] == timer;
        var sooner := leftmost && timer.soft && !softirqActivated && e < old(softirqExpiresNext);
        && softirqExpiresNext == (if sooner then e else old(softirqExpiresNext))
        && var arms := leftmost && e < old(expiresNext) && !InHrtirq() && (timer.soft ==> sooner);
           && expiresNext == (if arms then e else old(expiresNext))
           && nextTimer == (if arms then Some(timer) else old(nextTimer))
           && softirqNextTimer == (if sooner then Some(timer) else old(softirqNextTimer))
      ensures old(SoftArmed()) ==> (SoftArmed() <==> !(old(Idle()) && timer.soft && old(Overlooked(Event(timer)))))
    {
      hide Position, Insert, Distinct, Bounded, PhaseOk;
      var leftmost := Enqueue(timer);
      if leftmost { Reprogram(timer, true, true); }
      if !InHrtirq() {
        BoundedAfterInsert(old(queues), offset, 0, SOFT_BASES, timer.index, timer, old(expiresNext), expiresNext);
      }
      if Idle() && old(SoftArmed()) { SoftAfterInsert(old(queues), timer, old(expiresNext)); }
    }

    lemma SoftAfterInsert(was: seq<Queue>, timer: Timer, armed: int)
      requires Valid() && |was| == MAX_BASES && timer.index < MAX_BASES && Sorted(was[timer.index])
      requires queues == was[timer.index := Insert(was[timer.index], timer)]
      requires Bounded(was, offset, SOFT_BASES, MAX_BASES, armed) && expiresNext <= armed
      ensures Bounded(queues, offset, SOFT_BASES, MAX_BASES, expiresNext)
         <==> (SOFT_BASES <= timer.index && queues[timer.index][0] == timer ==> expiresNext <= Event(timer))
      ensures SOFT_BASES <= timer.index && queues[timer.index][0] != timer ==> armed <= Event(timer)
    {
      BoundedAfterInsert(was, offset, SOFT_BASES, MAX_BASES, timer.index, timer, armed, expiresNext);
      if SOFT_BASES <= timer.index && queues[timer.index][0] != timer {
        assert Position(was[timer.index], timer) > 0;
        assert was[timer.index][0] in was[timer.index] && was[timer.index][0].expires <= timer.expires;
      }
    }

    /** The second half of a start by another CPU that picked this one as target; refused when the timer
        would expire before the event this CPU is armed for. */
    method StartFromElsewhere(timer: Timer) returns (accepted: bool)
      requires Valid() && Armed() && LockFree() && CanQueue(timer)
      modifies this
      ensures Valid() && Armed() && LockFree() && irq == old(irq) && softirq == old(softirq)
      ensures accepted <==> old(expiresNext) <= timer.expires - offset[timer.index]
      ensures queues == if accepted then old(queues)[timer.index := Insert(old(queues)[timer.index], timer)]
                        else old(queues)
      ensures softirqActivated == old(softirqActivated) && (old(SoftArmed()) ==> SoftArmed())
      ensures if accepted then RecordsOnly(timer) else CachesKept()
    {
      hide Position, Insert, Distinct, Bounded, PhaseOk;
      if CheckTarget(timer) { return false; }
      var leftmost := Enqueue(timer);
      if leftmost { Reprogram(timer, true, false); }
      if !InHrtirq() {
        BoundedAfterInsert(old(queues), offset, 0, SOFT_BASES, timer.index, timer, old(expiresNext), expiresNext);
      }
      if Idle() && old(SoftArmed()) { SoftAfterInsert(old(queues), timer, old(expiresNext)); }
      return true;
    }

    /** The timer's callback is running here. */
    predicate CallbackRunning(timer: Timer) reads this {
      var p := if timer.soft then softirq else irq;
      p.InCallback? && p.idx == timer.index && p.timer.id == timer.id
    }

    /** The second half of a start by another CPU that must leave the timer here because its callback is
        running; nothing is checked against the armed event. */
    method StartWhileRunning(timer: Timer)
      requires Valid() && Armed() && LockFree() && CanQueue(timer) && CallbackRunning(timer)
      modifies this
      ensures Valid() && Armed() && LockFree() && irq == old(irq) && softirq == old(softirq)
      ensures queues == old(queues)[timer.index := Insert(old(queues)[timer.index], timer)]
      ensures RecordsOnly(timer)
    {
      hide Position, Insert, Distinct, Bounded, PhaseOk;
      var leftmost := Enqueue(timer);
      if leftmost { Reprogram(timer, true, false); }
      if !InHrtirq() {
        BoundedAfterInsert(old(queues), offset, 0, SOFT_BASES, timer.index, timer, old(expiresNext), expiresNext);
      }
    }

    // ----- Stretches of code under the lock: expiry

    /** `hrtimer_interrupt` up to its expiry loop. */
    method EnterInterrupt(now: int)
      requires Valid() && LockFree() && irq.Outside?
      modifies this
      ensures Valid() && Armed() && queues == old(queues) && softirq == old(softirq)
      ensures irq == Scanning(now, active, 0)
      ensures expiresNext == KTIME_MAX && nextTimer == old(nextTimer) && softirqNextTimer == old(softirqNextTimer)
      ensures var due := old(softirqExpiresNext) <= now;
        && softirqActivated == (old(softirqActivated) || due)
        && softirqExpiresNext == (if due then KTIME_MAX else old(softirqExpiresNext))
    {
      irq := Scanning(now, active, 0);
      expiresNext := KTIME_MAX;
      if !(now < softirqExpiresNext) {
        softirqExpiresNext := KTIME_MAX;
        softirqActivated := true;
      }
    }

    /** `hrtimer_run_softirq` up to its expiry loop. */
    method EnterSoftirq(now: int)
      requires Valid() && Armed() && LockFree() && softirq.Outside?
      modifies this`softirq
      ensures Valid() && Armed() && softirq == Scanning(now, active, SOFT_BASES)
    {
      softirq := Scanning(now, active, SOFT_BASES);
    }

    /** One look at the leftmost timer of the clock base being worked through: either its callback starts,
        or the base is left. */
    method ExpireOrLeave(soft: bool) returns (ran: Option<Timer>)
      requires Valid() && Armed()
      requires var p := if soft then softirq else irq; p.Scanning? && p.idx < Hi(soft)
      modifies this
      ensures Valid() && Armed() && (if soft then irq == old(irq) else softirq == old(softirq)) && CachesKept()
      ensures var p, q := old(if soft then softirq else irq), if soft then softirq else irq;
        var i := p.idx;
        match ran
        case Some(t) =>
          && p.todo[i] && old(queues)[i] != [] && t == old(queues)[i][0]
          && t.softExpires - offset[i] <= p.now
          && queues == old(queues)[i := Remove(old(queues)[i], t)]
          && q == InCallback(p.now, p.todo, i, t)
        case None =>
          && queues == old(queues) && q == Scanning(p.now, p.todo, i + 1)
          && (p.todo[i] && queues[i] != [] ==> p.now < queues[i][0].softExpires - offset[i])
          && (p.todo[i] ==> forall t :: t in queues[i] ==> p.now + offset[i] < t.expires)
    {
      var p := if soft then softirq else irq;
      var i := p.idx;
      var q := Scanning(p.now, p.todo, i + 1);
      ran := None;
      if p.todo[i] && queues[i] != [] {
        var timer := queues[i][0];
        assert timer in queues[i];
        if !(p.now + offset[i] < timer.softExpires) {
          RemoveTimer(timer, false);
          ran := Some(timer);
          q := InCallback(p.now, p.todo, i, timer);
        }
      }
      if soft { softirq := q; } else { irq := q; }
    }

    /** The callback returns and the lock is taken again; `restart` is the timer with its new expiry when
        the callback asks for a restart. */
    method CallbackReturns(soft: bool, restart: Option<Timer>)
      requires Valid() && Armed() && LockFree()
      requires var p := if soft then softirq else irq;
        p.InCallback? && (restart.Some? ==>
          restart.value.id == p.timer.id && restart.value.index == p.idx
          && TimerOk(restart.value, offset[p.idx], p.idx))
      modifies this
      ensures Valid() && Armed() && (if soft then irq == old(irq) else softirq == old(softirq)) && CachesKept()
      ensures var p, q := old(if soft then softirq else irq), if soft then softirq else irq;
        && q == Scanning(p.now, p.todo, p.idx)
        && queues == if restart.Some? && forall t :: t in old(queues)[p.idx] ==> t.id != restart.value.id
                     then old(queues)[p.idx := Insert(old(queues)[p.idx], restart.value)] else old(queues)
    {
      var p := if soft then softirq else irq;
      if restart.Some? && forall t :: t in queues[p.idx] ==> t.id != restart.value.id {
        InsertAdds(queues[p.idx], restart.value);
        var _ := Enqueue(restart.value);
      }
      if soft { softirq := Scanning(p.now, p.todo, p.idx); } else { irq := Scanning(p.now, p.todo, p.idx); }
    }

    /** The end of `hrtimer_interrupt`'s locked part: the next event is worked out afresh. */
    method LeaveInterrupt()
      requires Valid() && irq.Scanning? && irq.idx == SOFT_BASES
      modifies this
      ensures Valid() && Armed() && LockFree() && irq.Outside? && queues == old(queues) && softirq == old(softirq)
      ensures IsEarliest(queues, offset, 0, EventBases(), None, KTIME_MAX, expiresNext)
      ensures expiresNext < KTIME_MAX ==>
        nextTimer.Some? && Attains(queues, offset, 0, EventBases(), nextTimer.value, expiresNext)
      ensures expiresNext == KTIME_MAX ==> nextTimer == None
      ensures softirqActivated == old(softirqActivated) && softirqExpiresNext == old(softirqExpiresNext)
      ensures SoftArmed()
    {
      expiresNext := GetNextEvent(true, true);
      EarliestBounds(queues, offset, 0, EventBases(), KTIME_MAX, expiresNext);
      irq := Outside;
    }

    /** The end of `hrtimer_run_softirq`. The next soft event on record is worked out from the queues and what was
        on record; the interrupt that raised the softirq has cleared that record, so that then the device is armed
        for the next soft timer. */
    method LeaveSoftirq() returns (ghost next: int)
      requires Valid() && Armed() && softirq.Scanning? && softirq.idx == MAX_BASES
      modifies this
      ensures Valid() && Armed() && LockFree() && softirq.Outside? && queues == old(queues) && irq == old(irq)
      ensures !softirqActivated
      ensures IsEarliest(queues, offset, SOFT_BASES, MAX_BASES, None, old(softirqExpiresNext), softirqExpiresNext)
      ensures expiresNext == if softirqExpiresNext < old(softirqExpiresNext) && softirqExpiresNext < old(expiresNext)
                                && !InHrtirq() then softirqExpiresNext else old(expiresNext)
      ensures IsEarliest(queues, offset, SOFT_BASES, MAX_BASES, None, KTIME_MAX, next)
      ensures SoftArmed() <==> !(irq.Outside? && old(Overlooked(next)))
      ensures old(softirqActivated) ==> softirqExpiresNext == next && SoftArmed()
    {
      hide IsEarliest, QueueOk;
      softirqActivated := false;
      next := UpdateSoftirqTimer();
      softirq := Outside;
      EarliestWithRecord(next, old(softirqExpiresNext), softirqExpiresNext);
      SoftBound(next);
    }

    /** `hrtimer_update_softirq_timer`, by this CPU: the record and the device only ever move forward. */
    method UpdateSoftirqTimer() returns (ghost next: int)
      requires Valid() && !softirqActivated
      modifies this`nextTimer, this`softirqNextTimer, this`expiresNext, this`softirqExpiresNext
      ensures Valid() && IsEarliest(queues, offset, SOFT_BASES, MAX_BASES, None, KTIME_MAX, next)
      ensures softirqExpiresNext == if next < old(softirqExpiresNext) then next else old(softirqExpiresNext)
      ensures expiresNext == if next < old(softirqExpiresNext) && next < old(expiresNext) && !InHrtirq() then next
                             else old(expiresNext)
    {
      hide IsEarliest, Attains, QueueOk, PhaseOk;
      var expires := GetNextEvent(true, false);
      next := expires;
      SoftBound(expires);
      if expires != KTIME_MAX {
        AttainedIsQueued(SOFT_BASES, MAX_BASES, softirqNextTimer.value, expires);
        Reprogram(softirqNextTimer.value, true, true);
      }
    }

    /** The earliest of the soft timers and an event known already. */
    lemma EarliestWithRecord(e: int, best: int, r: int)
      requires Valid() && 0 <= best <= KTIME_MAX && r == (if e < best then e else best)
      requires IsEarliest(queues, offset, SOFT_BASES, MAX_BASES, None, KTIME_MAX, e)
      ensures IsEarliest(queues, offset, SOFT_BASES, MAX_BASES, None, best, r)
    {
    }

    lemma SoftBound(e: int)
      requires Valid() && IsEarliest(queues, offset, SOFT_BASES, MAX_BASES, None, KTIME_MAX, e)
      ensures Bounded(queues, offset, SOFT_BASES, MAX_BASES, expiresNext) <==> expiresNext <= e
      ensures e <= KTIME_MAX
    {
      EarliestBounds(queues, offset, SOFT_BASES, MAX_BASES, KTIME_MAX, e);
      if e < KTIME_MAX {
        var i: nat, k: nat :|
          Searched(queues, SOFT_BASES, MAX_BASES, None, i, k) && e == EventTime(queues, offset, i, k);
        assert queues[i][k] in queues[i];
      }
    }
  }

  function Lo(soft: bool): nat { if soft then SOFT_BASES else 0 }

  function Hi(soft: bool): nat { if soft then MAX_BASES else SOFT_BASES }

  // ----- Runs

  /** One stretch of locked code that this CPU or another may ask for. */
  datatype Request =
    | Taking(timer: Timer, local: bool)
    | Here(timer: Timer)
    | FromElsewhere(timer: Timer)
    | WhileRunning(timer: Timer)
    | Interrupt(now: int)
    | Softirq(now: int)
    | Look(soft: bool)
    | Return(soft: bool, restart: Option<Timer>)
    | Leave(soft: bool)

  /** The request can be made in this state: the lock allows it and the caller keeps the rules. */
  predicate Possible(cpu: CpuBase, r: Request)
    reads cpu
    requires cpu.Valid()
  {
    match r
    case Taking(t, _) => cpu.LockFree() && t.index < MAX_BASES && t in cpu.queues[t.index]
    case Here(t) => cpu.LockFree() && cpu.CanQueue(t)
    case FromElsewhere(t) => cpu.LockFree() && cpu.CanQueue(t)
    case WhileRunning(t) => cpu.LockFree() && cpu.CanQueue(t) && cpu.CallbackRunning(t)
    case Interrupt(_) => cpu.LockFree() && cpu.irq.Outside?
    case Softirq(_) => cpu.LockFree() && cpu.softirq.Outside?
    case Look(soft) => var p := if soft then cpu.softirq else cpu.irq; p.Scanning? && p.idx < Hi(soft)
    case Return(soft, restart) =>
      var p := if soft then cpu.softirq else cpu.irq;
      cpu.LockFree() && p.InCallback? && (restart.Some? ==>
        restart.value.id == p.timer.id && restart.value.index == p.idx
        && CpuBase.TimerOk(restart.value, cpu.offset[p.idx], p.idx))
    case Leave(soft) => var p := if soft then cpu.softirq else cpu.irq; p.Scanning? && p.idx == Hi(soft)
  }

  /** The request brings a soft event that the CPU takes for one it has armed the device for. */
  ghost predicate Overlooks(cpu: CpuBase, r: Request)
    reads cpu
    requires cpu.Valid()
  {
    match r
    case Here(t) => cpu.Idle() && t.soft && t.index < MAX_BASES && cpu.Overlooked(cpu.Event(t))
    case Leave(true) =>
      cpu.irq.Outside?
      && exists e :: cpu.Overlooked(e)
                     && IsEarliest(cpu.queues, cpu.offset, SOFT_BASES, MAX_BASES, None, KTIME_MAX, e)
    case _ => false
  }

  lemma OneEarliest(cpu: CpuBase, e: int)
    requires cpu.Valid() && IsEarliest(cpu.queues, cpu.offset, SOFT_BASES, MAX_BASES, None, KTIME_MAX, e)
    ensures forall f :: IsEarliest(cpu.queues, cpu.offset, SOFT_BASES, MAX_BASES, None, KTIME_MAX, f) ==> f == e
  {
    forall f | IsEarliest(cpu.queues, cpu.offset, SOFT_BASES, MAX_BASES, None, KTIME_MAX, f) ensures f == e {
      EarliestIsUnique(cpu.queues, cpu.offset, SOFT_BASES, MAX_BASES, None, KTIME_MAX, e, f);
    }
  }

  /** Each request keeps the bound on hard timers; it keeps that on soft timers exactly if it overlooks none. */
  method Serve(cpu: CpuBase, r: Request)
    requires cpu.Valid() && cpu.Armed() && Possible(cpu, r)
    modifies cpu
    ensures cpu.Valid() && cpu.Armed()
    ensures old(cpu.SoftArmed()) ==> (cpu.SoftArmed() <==> !old(Overlooks(cpu, r)))
  {
    match r
    case Taking(t, local) => cpu.Take(t, local);
    case Here(t) => cpu.StartHere(t);
    case FromElsewhere(t) => var _ := cpu.StartFromElsewhere(t);
    case WhileRunning(t) => cpu.StartWhileRunning(t);
    case Interrupt(now) => cpu.EnterInterrupt(now);
    case Softirq(now) => cpu.EnterSoftirq(now);
    case Look(soft) => var _ := cpu.ExpireOrLeave(soft);
    case Return(soft, restart) => cpu.CallbackReturns(soft, restart);
    case Leave(soft) =>
      if soft {
        ghost var e := cpu.LeaveSoftirq();
        OneEarliest(cpu, e);
      } else {
        cpu.LeaveInterrupt();
      }
  }

  /**
   Whatever the CPUs ask for in whatever order, the event device is never armed later than a hard timer
   queued here, except while the timer interrupt is about to work the next event out anew. Requests that
   cannot be made are passed over.
   */
  method NeverArmedLate(offset: seq<int>, requests: seq<Request>) returns (cpu: CpuBase)
    requires |offset| == MAX_BASES
    ensures cpu.Valid() && fresh(cpu)
    ensures cpu.irq.Outside? ==> Bounded(cpu.queues, cpu.offset, 0, SOFT_BASES, cpu.expiresNext)
  {
    cpu := new CpuBase(offset);
    for n := 0 to |requests|
      invariant cpu.Valid() && cpu.Armed() && fresh(cpu)
    {
      if Possible(cpu, requests[n]) { Serve(cpu, requests[n]); }
    }
  }

  // ----- A run that leaves a soft timer waiting

  /** Hard timers on the first clock base, soft ones on its counterpart, and nothing is going on. */
  ghost predicate Holds(cpu: CpuBase, soft: Queue, hard: Queue) reads cpu {
    && cpu.Valid() && cpu.Armed() && cpu.LockFree() && cpu.Idle()
    && cpu.offset[0] == cpu.offset[SOFT_BASES] == 0
    && cpu.queues == seq(MAX_BASES, _ => [])[0 := hard][SOFT_BASES := soft]
  }

  function HardAt(e: int): Timer { Timer(1, 0, e, e, false) }

  function SoftAt(e: int): Timer { Timer(2, SOFT_BASES, e, e, true) }

  lemma InsertFirst(t: Timer)
    ensures Insert([], t) == [t] && Remove([t], t) == []
  {
  }

  method StartHard(cpu: CpuBase, soft: Queue, h: int)
    requires Holds(cpu, soft, []) && 0 <= cpu.expiresNext <= h <= KTIME_MAX
    modifies cpu
    ensures Holds(cpu, soft, [HardAt(h)]) && cpu.nextTimer == old(cpu.nextTimer)
    ensures cpu.expiresNext == old(cpu.expiresNext) && cpu.softirqExpiresNext == old(cpu.softirqExpiresNext)
  {
    hide Insert;
    InsertFirst(HardAt(h));
    cpu.StartHere(HardAt(h));
  }

  method StartSoft(cpu: CpuBase, hard: Queue, e: int)
    requires Holds(cpu, [], hard) && 0 <= e <= KTIME_MAX
    modifies cpu
    ensures Holds(cpu, [SoftAt(e)], hard)
    ensures old(cpu.softirqExpiresNext) <= e ==>
      cpu.expiresNext == old(cpu.expiresNext) && cpu.softirqExpiresNext == old(cpu.softirqExpiresNext)
    ensures e < old(cpu.softirqExpiresNext) && e < old(cpu.expiresNext) ==>
      cpu.expiresNext == cpu.softirqExpiresNext == e && cpu.nextTimer == Some(SoftAt(e))
  {
    hide Insert;
    InsertFirst(SoftAt(e));
    cpu.StartHere(SoftAt(e));
  }

  method CancelSoft(cpu: CpuBase, e: int, h: int)
    requires Holds(cpu, [SoftAt(e)], [HardAt(h)]) && 0 <= h < KTIME_MAX && cpu.nextTimer == Some(SoftAt(e))
    modifies cpu
    ensures Holds(cpu, [], [HardAt(h)])
    ensures cpu.expiresNext == h && cpu.softirqExpiresNext == old(cpu.softirqExpiresNext)
  {
    hide IsEarliest, Attains, Remove;
    InsertFirst(SoftAt(e));
    assert SoftAt(e) in cpu.queues[SOFT_BASES];
    cpu.Take(SoftAt(e), true);
    OnlyHard(cpu, HardAt(h));
  }

  /**
   A run that ends with the device armed too late for a soft timer: the soft timer at `a` is cancelled, which
   leaves its event on record because a hard timer is next, and the soft timer at `b` is taken for served.
   */
  method ArmedLateForSoft(a: int, b: int, h: int) returns (cpu: CpuBase)
    requires 0 <= a <= b < h < KTIME_MAX
    ensures Holds(cpu, [SoftAt(b)], [HardAt(h)]) && cpu.expiresNext == h && fresh(cpu)
    ensures cpu.Event(SoftAt(b)) == b && !cpu.SoftArmed()
  {
    hide Holds, SoftAt, HardAt;
    cpu := EmptyCpu();
    StartSoft(cpu, [], a);
    StartHard(cpu, [SoftAt(a)], h);
    CancelSoft(cpu, a, h);
    StartSoft(cpu, [HardAt(h)], b);
    Late(cpu, b, h);
  }

  method EmptyCpu() returns (cpu: CpuBase)
    ensures Holds(cpu, [], []) && cpu.expiresNext == cpu.softirqExpiresNext == KTIME_MAX && fresh(cpu)
  {
    cpu := new CpuBase(seq(MAX_BASES, _ => 0));
  }

  lemma Late(cpu: CpuBase, b: int, h: int)
    requires 0 <= b < h && Holds(cpu, [SoftAt(b)], [HardAt(h)]) && cpu.expiresNext == h
    ensures cpu.Event(SoftAt(b)) == b && !cpu.SoftArmed()
  {
    assert SoftAt(b) in cpu.queues[SOFT_BASES];
  }

  /** With one hard timer queued and nothing else, that timer is the next event. */
  lemma OnlyHard(cpu: CpuBase, hard: Timer)
    requires cpu.Valid() && hard.index == 0 && cpu.offset[0] == 0 && 0 <= hard.expires < KTIME_MAX
    requires cpu.queues == seq(MAX_BASES, _ => [])[0 := [hard]][SOFT_BASES := []]
    requires IsEarliest(cpu.queues, cpu.offset, 0, MAX_BASES, None, KTIME_MAX, cpu.expiresNext)
    ensures cpu.expiresNext == hard.expires
    ensures forall t :: Attains(cpu.queues, cpu.offset, 0, MAX_BASES, t, cpu.expiresNext) ==> t == hard
  {
    assert Searched(cpu.queues, 0, MAX_BASES, None, 0, 0);
  }
}
