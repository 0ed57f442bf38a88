/**
 What the operations achieve: where a start, a cancel, an expiry and a callback leave the timer, and that nobody
 inside any of them ever gets stuck.
 */
module HrtimerOutcome {
  import opened Options
  import opened HrtimerProtocol

  // ----- Cancel

  /** On no queue, not marked, and nowhere is its callback about to run, running or being finished. */
  ghost predicate Gone(s: State, t: Timer) {
    t !in s.enqueued && (forall b :: (b, t) !in s.queue) && forall b :: !s.ExpOf(b).Runs(t)
  }

  /** Nothing but the one timer's mark and queue entries has changed. */
  ghost predicate OnlyConcerns(s: State, s': State, t: Timer) {
    && s'.home == s.home && s'.running == s.running && s'.expirers == s.expirers && s'.lock == s.lock
    && (forall u :: u != t ==> (u in s'.enqueued <==> u in s.enqueued))
    && (forall b, u :: u != t ==> s'.queue[(b, u)] == s.queue[(b, u)])
  }

  lemma RunsWhereItIs(s: State, b: Base, t: Timer)
    requires Inv(s) && t in s.home && s.home[t] == At(b)
    ensures s.RunsAt(At(b), t) <==> s.ExpOf(b).Runs(t)
    ensures forall d :: s.ExpOf(d).Runs(t) ==> d == b
  {
    assert BaseOk(s, b);
    forall d | s.ExpOf(d).Runs(t) ensures d == b { assert BaseOk(s, d); }
  }

  /** The owner of a timer at home finds it marked exactly if it is on the queue there. */
  lemma MarkedIsQueued(s: State, id: ThreadId)
    requires Reachable(s) && s.PcOf(id).Owned?
    ensures var t := s.PcOf(id).op.timer;
      && t in s.home && s.home[t] == At(s.PcOf(id).base)
      && (t in s.enqueued <==> (s.PcOf(id).base, t) in s.queue)
      && s.queue[(s.PcOf(id).base, t)] <= 1 && forall b :: (b, t) in s.queue ==> b == s.PcOf(id).base
  {
    hide Reachable;
    ReachableInv(s);
    var t := s.PcOf(id).op.timer;
    assert ThreadOk(s, id);
    if t in s.enqueued {
      NoTimerLost(s, t);
      forall jd | s.PcOf(jd).InWindow() && s.PcOf(jd).Owns(t) ensures false { SoleOwner(s, id, jd, t); }
    }
    forall b ensures (b, t) in s.queue ==> s.queue[(b, t)] == 1 && t in s.enqueued && b == s.PcOf(id).base {
      assert EntryOk(s, b, t);
    }
  }

  /** What the owner of a timer at home knows about its callback. */
  lemma CallbackSeen(s: State, id: ThreadId)
    requires Reachable(s) && s.PcOf(id).Owned?
    ensures var b, t := s.PcOf(id).base, s.PcOf(id).op.timer;
      s.RunsAt(At(b), t) <==> exists d :: s.ExpOf(d).Runs(t)
  {
    hide Inv, Reachable;
    MarkedIsQueued(s, id);
    ReachableInv(s);
    RunsWhereItIs(s, s.PcOf(id).base, s.PcOf(id).op.timer);
  }

  lemma CancelEnabled(s: State, id: ThreadId)
    requires s.PcOf(id).Owned? && s.PcOf(id).op.Cancel?
    ensures Enabled(s, CancelBusy(id)) == s.RunsAt(At(s.PcOf(id).base), s.PcOf(id).op.timer)
    ensures Enabled(s, CancelRemove(id)) == !s.RunsAt(At(s.PcOf(id).base), s.PcOf(id).op.timer)
  {
    hide ExpEnabled;
  }

  /** `hrtimer_try_to_cancel` under the lock: it has no say while the callback is in progress, and otherwise takes
      the timer off and reports whether it was queued. It always comes to one of the two. */
  lemma CancelDecides(s: State, id: ThreadId)
    requires Reachable(s) && s.PcOf(id).Owned? && s.PcOf(id).op.Cancel?
    ensures Enabled(s, CancelBusy(id)) <==> exists b :: s.ExpOf(b).Runs(s.PcOf(id).op.timer)
    ensures Enabled(s, CancelRemove(id)) <==> forall b :: !s.ExpOf(b).Runs(s.PcOf(id).op.timer)
  {
    hide Reachable, Enabled;
    CallbackSeen(s, id);
    CancelEnabled(s, id);
  }

  lemma RemovalOwned(s: State, id: ThreadId)
    requires Enabled(s, CancelRemove(id))
    ensures s.PcOf(id).Owned? && !s.RunsAt(At(s.PcOf(id).base), s.PcOf(id).op.timer)
  {
    hide ExpEnabled;
  }

  lemma CancelTakesOff(s: State, id: ThreadId)
    requires Reachable(s) && Enabled(s, CancelRemove(id))
    ensures var t, s' := s.PcOf(id).op.timer, Apply(s, CancelRemove(id));
      && Gone(s', t) && OnlyConcerns(s, s', t) && s'.PcOf(id).Done?
      && s'.PcOf(id).ret == if exists b :: (b, t) in s.queue then 1 else 0
  {
    hide Reachable, Enabled, Apply;
    RemovalOwned(s, id);
    MarkedIsQueued(s, id);
    CallbackSeen(s, id);
    LeavesExpiry(s, CancelRemove(id));
    RemovalElse(s, id);
    RemovedOff(s, id);
    assert forall b :: Apply(s, CancelRemove(id)).ExpOf(b) == s.ExpOf(b);
  }

  lemma RemovalElse(s: State, id: ThreadId)
    requires Enabled(s, CancelRemove(id))
    ensures var s' := Apply(s, CancelRemove(id));
      && s'.home == s.home && s'.lock == s.lock
      && s'.PcOf(id) == Done(s.PcOf(id).op, s.PcOf(id).base, if s.PcOf(id).op.timer in s.enqueued then 1 else 0)
  {
    hide ThreadQueues, ExpApply, ExpEnabled;
  }

  lemma RemovedOff(s: State, id: ThreadId)
    requires Enabled(s, CancelRemove(id))
    requires var b, t := s.PcOf(id).base, s.PcOf(id).op.timer;
      && (t in s.enqueued <==> (b, t) in s.queue) && s.queue[(b, t)] <= 1
      && (forall d :: d != b ==> (d, t) !in s.queue)
    ensures var t, s' := s.PcOf(id).op.timer, Apply(s, CancelRemove(id));
      t !in s'.enqueued && (forall b :: (b, t) !in s'.queue)
      && (forall u :: u != t ==> (u in s'.enqueued <==> u in s.enqueued))
      && (forall b, u :: u != t ==> s'.queue[(b, u)] == s.queue[(b, u)])
  {
    hide ThreadNext, HomeAfter, LockAfter, ExpApply, ExpEnabled;
  }

  lemma CancelWhileRunning(s: State, id: ThreadId)
    requires Reachable(s) && Enabled(s, CancelBusy(id))
    ensures var t, s' := s.PcOf(id).op.timer, Apply(s, CancelBusy(id));
      && OnlyConcerns(s, s', t) && s'.enqueued == s.enqueued && s'.queue == s.queue
      && s'.PcOf(id).Done? && s'.PcOf(id).ret == -1
  {
  }

  // ----- Until it is started again

  /** The step is the insertion by a start of `t`. */
  predicate Puts(s: State, e: Event, t: Timer) {
    e.Enqueue? && s.PcOf(e.id).Placing? && s.PcOf(e.id).op.timer == t
  }

  /** No start has put `t` on a queue on the way from `p` to `h`. */
  predicate NotPutSince(p: History, h: History, t: Timer) {
    h == p || (h.After? && NotPutSince(p, h.past, t) && !Puts(h.past.now, h.event, t))
  }

  lemma ThreadStaysGone(s: State, e: Event, t: Timer)
    requires Enabled(s, e) && e.ByThread() && !Puts(s, e, t) && Gone(s, t)
    ensures Gone(Apply(s, e), t)
  {
    hide Apply, Enabled;
    LeavesExpiry(s, e);
    QueuesOnlyShrink(s, e, t);
    assert forall b :: Apply(s, e).ExpOf(b) == s.ExpOf(b);
  }

  lemma QueuesOnlyShrink(s: State, e: Event, t: Timer)
    requires Enabled(s, e) && e.ByThread() && !Puts(s, e, t)
    ensures t !in s.enqueued ==> t !in Apply(s, e).enqueued
    ensures forall b :: (b, t) !in s.queue ==> (b, t) !in Apply(s, e).queue
  {
    hide ThreadNext, HomeAfter, LockAfter, ExpApply, ExpEnabled;
  }

  lemma ExpStaysGone(s: State, e: Event, t: Timer)
    requires Enabled(s, e) && !e.ByThread() && Gone(s, t)
    ensures Gone(Apply(s, e), t)
  {
    hide ThreadApply, ThreadEnabled;
    var s' := Apply(s, e);
    OnlyItsMark(s, e, t);
    forall b ensures !s'.ExpOf(b).Runs(t) {
      OnlyItsBase(s, e, b);
      assert !s.ExpOf(b).Runs(t);
    }
    forall b ensures (b, t) !in s'.queue {
      assert (b, t) !in s.queue && !s.ExpOf(e.base).Runs(t);
    }
  }

  /** A cancelled timer is on no queue and its callback does not run, until a start puts it on a queue again. */
  lemma {:induction false} CancelledStaysOff(p: History, h: History, t: Timer)
    requires Possible(h) && Gone(p.now, t) && NotPutSince(p, h, t)
    ensures Gone(h.now, t)
  {
    if h != p {
      CancelledStaysOff(p, h.past, t);
      hide Apply, Enabled, Gone;
      if h.event.ByThread() { ThreadStaysGone(h.past.now, h.event, t); } else { ExpStaysGone(h.past.now, h.event, t); }
    }
  }

  // ----- Expiry and restart

  /** The expiry loop takes its timer off before it calls back. */
  lemma TakeTakesOff(s: State, b: Base)
    requires Reachable(s) && Enabled(s, Take(b))
    ensures var t, s' := s.ExpOf(b).timer, Apply(s, Take(b));
      t !in s'.enqueued && (forall d :: (d, t) !in s'.queue) && s'.ExpOf(b) == Taken(t)
  {
    ReachableInv(s);
    hide ThreadApply, ThreadEnabled;
    var t, s' := s.ExpOf(b).timer, Apply(s, Take(b));
    assert BaseOk(s, b) && EntryOk(s, b, t);
    forall d ensures (d, t) !in s'.queue { assert EntryOk(s, d, t); }
  }

  /** Back from a callback that asks for a restart the timer is on the queue of its base, once, whoever put it
      there; and back from one that does not, it is where others have put it meanwhile, if anywhere. */
  lemma RestartPutsBack(s: State, b: Base, restart: bool)
    requires Reachable(s) && Enabled(s, Restart(b, restart))
    ensures var t, s' := s.ExpOf(b).timer, Apply(s, Restart(b, restart));
      if restart then t in s'.enqueued && s'.queue[(b, t)] == 1 && forall d :: d != b ==> (d, t) !in s'.queue
      else s'.enqueued == s.enqueued && s'.queue == s.queue
  {
    hide Reachable, Apply, Enabled;
    ReachableInv(s);
    RestartEffect(s, b, restart);
    var t := s.ExpOf(b).timer;
    assert BaseOk(s, b) && EntryOk(s, b, t);
    if restart {
      forall d | d != b ensures (d, t) !in s.queue { assert EntryOk(s, d, t); }
      if t in s.enqueued {
        NoTimerLost(s, t);
        forall id | s.PcOf(id).InWindow() && s.PcOf(id).Owns(t) ensures false { OwnerExcludesExpirer(s, id, b, t); }
      }
    }
  }

  lemma RestartEffect(s: State, b: Base, restart: bool)
    requires Enabled(s, Restart(b, restart))
    ensures var t, s' := s.ExpOf(b).timer, Apply(s, Restart(b, restart));
      && s.ExpOf(b).Relocked?
      && (if restart && t !in s.enqueued then s'.enqueued == s.enqueued + {t} && s'.queue == s.queue + multiset{(b, t)}
          else s'.enqueued == s.enqueued && s'.queue == s.queue)
  {
    hide ThreadApply, ThreadEnabled;
  }

  // ----- Start

  /** A start first tries the CPU it is aimed at; its timer is off the queue by then, and marked as before. */
  lemma StartAims(s: State, id: ThreadId)
    requires Reachable(s) && Enabled(s, Dequeue(id))
    ensures var was, s' := s.PcOf(id), Apply(s, Dequeue(id));
      var t, pc := was.op.timer, s'.PcOf(id);
      && was.op.Start? && pc.Switching? && pc.op == was.op && pc.target == was.op.target && pc.agains == 0
      && s'.home == s.home && s'.enqueued == s.enqueued && forall b :: (b, t) !in s'.queue
  {
    hide Reachable, Apply, Enabled;
    DequeueReady(s, id);
    MarkedIsQueued(s, id);
    DequeueEffect(s, id);
  }

  lemma DequeueReady(s: State, id: ThreadId)
    requires Enabled(s, Dequeue(id))
    ensures s.PcOf(id).Owned? && s.PcOf(id).op.Start?
  {
    hide ExpEnabled;
  }

  lemma DequeueEffect(s: State, id: ThreadId)
    requires Enabled(s, Dequeue(id))
    requires var b, t := s.PcOf(id).base, s.PcOf(id).op.timer;
      && (t in s.enqueued <==> (b, t) in s.queue) && s.queue[(b, t)] <= 1
      && (forall d :: d != b ==> (d, t) !in s.queue)
    ensures var was, s' := s.PcOf(id), Apply(s, Dequeue(id));
      var t, pc := was.op.timer, s'.PcOf(id);
      && pc.Switching? && pc.op == was.op && pc.target == was.op.target && pc.agains == 0
      && s'.home == s.home && s'.enqueued == s.enqueued && forall b :: (b, t) !in s'.queue
  {
    hide ExpApply, ExpEnabled;
  }

  /** Where a start may put its timer: where it was aimed at, with its caller, or where its callback runs. */
  ghost predicate PlacedOk(s: State, id: ThreadId) {
    var pc := s.PcOf(id);
    pc.Placing? ==>
      && pc.op.Start?
      && (pc.base.cpu == pc.op.target || pc.base.cpu == pc.op.cpu || s.ExpOf(pc.base) == Callback(pc.op.timer))
  }

  lemma OwnPlacedOk(s: State, e: Event)
    requires Inv(s) && Enabled(s, e) && e.ByThread() && PlacedOk(s, e.id)
    ensures PlacedOk(Apply(s, e), e.id)
  {
    LeavesExpiry(s, e);
    hide ThreadQueues, HomeAfter, LockAfter, ExpApply, ExpEnabled;
    if e.Keep? || e.Stay? || e.Settle? {
      var pc := s.PcOf(e.id);
      assert ThreadOk(s, e.id);
      if e.Keep? { assert BaseOk(s, pc.base); }
      hide Inv, BaseOk;
    } else {
      ElseNotPlacing(s, e);
      hide Apply, Enabled, Inv;
    }
  }

  lemma ElseNotPlacing(s: State, e: Event)
    requires Enabled(s, e) && e.ByThread() && !e.Keep? && !e.Stay? && !e.Settle?
    ensures !Apply(s, e).PcOf(e.id).Placing?
  {
    hide ThreadQueues, HomeAfter, LockAfter, ThreadEnabled, ExpApply, ExpEnabled;
  }

  /** The callback cannot be left while a thread holds the lock. */
  lemma PlacedSurvivesExp(s: State, e: Event, id: ThreadId)
    requires Inv(s) && Enabled(s, e) && !e.ByThread() && PlacedOk(s, id) && s.PcOf(id).Placing?
    ensures PlacedOk(Apply(s, e), id)
  {
    hide ThreadApply, ThreadEnabled, ExpEffect;
    var pc := s.PcOf(id);
    assert ThreadOk(s, id);
    hide Inv;
    OthersStay(s, e, id);
    OnlyItsBase(s, e, pc.base);
    assert s.ExpOf(pc.base).Callback? ==> e.base != pc.base;
    hide Apply, Enabled;
  }

  lemma PlacedSurvives(s: State, e: Event, id: ThreadId)
    requires Inv(s) && Enabled(s, e) && PlacedOk(s, id)
    ensures PlacedOk(Apply(s, e), id)
  {
    hide Apply, Enabled, Inv;
    if e.ByThread() && e.id == id {
      OwnPlacedOk(s, e);
    } else {
      OthersStay(s, e, id);
      if e.ByThread() {
        LeavesExpiry(s, e);
      } else if s.PcOf(id).Placing? {
        PlacedSurvivesExp(s, e, id);
      }
    }
  }

  lemma {:induction false} StartsPlace(h: History, id: ThreadId)
    requires Possible(h)
    ensures PlacedOk(h.now, id)
  {
    match h
    case Fresh(s) =>
    case After(p, e, s) =>
      StartsPlace(p, id);
      HistoryInv(p);
      PlacedSurvives(p.now, e, id);
  }

  /** The clock of `t`: it never changes, also while a thread has the timer parked. */
  ghost predicate OnClock(s: State, t: Timer, index: nat) {
    && t in s.home && (s.home[t].At? ==> s.home[t].base.index == index)
    && forall id :: s.PcOf(id).IsParked() && s.PcOf(id).op.timer == t ==> s.PcOf(id).base.index == index
  }

  lemma OnClockStep(s: State, e: Event, t: Timer, index: nat)
    requires Inv(s) && Enabled(s, e) && OnClock(s, t, index)
    ensures OnClock(Apply(s, e), t, index)
  {
    var s' := Apply(s, e);
    HomesStay(s, e, t);
    if e.ByThread() {
      assert ThreadOk(s, e.id);
      forall id | s'.PcOf(id).IsParked() && s'.PcOf(id).op.timer == t ensures s'.PcOf(id).base.index == index {
        if id == e.id { OwnClock(s, e, t, index); } else { OthersStay(s, e, id); }
      }
      if e.MovesHome() && s.PcOf(e.id).op.timer == t { MovedOnClock(s, e, t, index); }
    } else {
      hide ThreadApply, ThreadEnabled;
      forall id ensures s'.PcOf(id) == s.PcOf(id) { OthersStay(s, e, id); }
    }
  }

  lemma OwnClock(s: State, e: Event, t: Timer, index: nat)
    requires Inv(s) && Enabled(s, e) && e.ByThread() && OnClock(s, t, index)
    ensures var pc := Apply(s, e).PcOf(e.id); pc.IsParked() && pc.op.timer == t ==> pc.base.index == index
  {
    hide Apply, Enabled;
    if Apply(s, e).PcOf(e.id).IsParked() { ParkedFrom(s, e); }
    assert ThreadOk(s, e.id);
    hide Inv;
  }

  lemma ParkedFrom(s: State, e: Event)
    requires Enabled(s, e) && e.ByThread() && Apply(s, e).PcOf(e.id).IsParked()
    ensures var was, now := s.PcOf(e.id), Apply(s, e).PcOf(e.id);
      (was.Switching? || was.IsParked()) && now.op == was.op && now.base == was.base
  {
    hide ThreadQueues, HomeAfter, LockAfter, ExpApply, ExpEnabled;
  }

  lemma MovedOnClock(s: State, e: Event, t: Timer, index: nat)
    requires Inv(s) && Enabled(s, e) && e.MovesHome() && OnClock(s, t, index) && s.PcOf(e.id).op.timer == t
    ensures var s' := Apply(s, e); t in s'.home && s'.home[t].At? ==> s'.home[t].base.index == index
  {
    hide ThreadNext, ThreadQueues, LockAfter, ExpApply, ExpEnabled;
    assert ThreadOk(s, e.id);
    hide Inv;
  }

  /** The clock that `t` was initialised on. */
  function ClockOf(h: History, t: Timer): nat
    requires Possible(h) && t in h.now.home
  {
    match h
    case Fresh(s) => s.home[t].base.index
    case After(p, e, s) => KnownBefore(p, e, t); ClockOf(p, t)
  }

  lemma {:induction false} HistoryOnClock(h: History, t: Timer)
    requires Possible(h) && t in h.now.home
    ensures OnClock(h.now, t, ClockOf(h, t))
  {
    match h
    case Fresh(s) =>
    case After(p, e, s) =>
      KnownBefore(p, e, t);
      HistoryOnClock(p, t);
      HistoryInv(p);
      OnClockStep(p.now, e, t, ClockOf(p, t));
  }

  /** No step brings a timer into being. */
  lemma KnownBefore(p: History, e: Event, t: Timer)
    requires Possible(p) && Enabled(p.now, e) && t in Apply(p.now, e).home
    ensures t in p.now.home
  {
    HistoryInv(p);
    if e.MovesHome() {
      hide ExpApply, ExpEnabled;
      assert ThreadOk(p.now, e.id);
      hide Inv;
    } else {
      hide ThreadEnabled, ExpEnabled;
    }
  }

  /** A start leaves its timer marked and on one queue, once: that of the clock base that `timer->base` names,
      which is of the timer's own clock, and belongs to the CPU aimed at, to the caller's, or, with the callback
      running there, to the one the timer was on. Nothing else changes. */
  lemma StartPutsOn(h: History, id: ThreadId)
    requires Possible(h) && Enabled(h.now, Enqueue(id))
    ensures var s, s', pc := h.now, Apply(h.now, Enqueue(id)), h.now.PcOf(id);
      var b, t := pc.base, pc.op.timer;
      && pc.op.Start? && t in s.home && b.index == ClockOf(h, t)
      && s'.home[t] == At(b) && t in s'.enqueued && s'.queue[(b, t)] == 1
      && (forall d :: d != b ==> (d, t) !in s'.queue)
      && (b.cpu == pc.op.target || b.cpu == pc.op.cpu || s.ExpOf(b) == Callback(t))
      && OnlyConcerns(s, s', t)
  {
    hide Inv, Apply, ClockOf, Enabled;
    var s, pc := h.now, h.now.PcOf(id);
    PutReady(s, id);
    var t := pc.op.timer;
    assert Reachable(s);
    hide Reachable, Possible;
    Ownership(s, id, t);
    StartsPlace(h, id);
    HistoryOnClock(h, t);
    PutOn(s, id);
  }

  lemma PutReady(s: State, id: ThreadId)
    requires Enabled(s, Enqueue(id))
    ensures s.PcOf(id).Placing?
  {
    hide ExpEnabled;
  }

  lemma PutOn(s: State, id: ThreadId)
    requires Enabled(s, Enqueue(id)) && forall b :: (b, s.PcOf(id).op.timer) !in s.queue
    ensures var s', b, t := Apply(s, Enqueue(id)), s.PcOf(id).base, s.PcOf(id).op.timer;
      && t in s'.enqueued && s'.queue[(b, t)] == 1 && (forall d :: d != b ==> (d, t) !in s'.queue)
      && OnlyConcerns(s, s', t)
  {
    hide ThreadNext, ExpApply, ExpEnabled;
  }

  // ----- Nobody gets stuck

  /** A lock that is taken is held by somebody who is at a place where it is held. */
  ghost predicate LockHeld(s: State, c: Cpu) {
    c in s.lock ==>
      match s.lock[c]
      case Thread(id) => s.PcOf(id).Holds() == Some(c)
      case Expirer(b) => b.cpu == c && s.ExpOf(b).HoldsLock()
  }

  /** A timer on the migration base has been parked there by a thread that is still at it. */
  ghost predicate ParkedBy(s: State, t: Timer) {
    t in s.home && s.home[t] == Migration ==> exists id :: s.PcOf(id).IsParked() && s.PcOf(id).op.timer == t
  }

  /** Whoever is inside an operation works on a timer that was initialised. */
  predicate Known(s: State, id: ThreadId) {
    s.PcOf(id) != Idle ==> s.PcOf(id).op.timer in s.home
  }

  ghost predicate Live(s: State) {
    (forall c :: LockHeld(s, c)) && (forall t :: ParkedBy(s, t)) && forall id :: Known(s, id)
  }

  /** The thread takes a lock, drops the one it has, or keeps to what it has. */
  predicate Takes(e: Event) { e.Lock? || e.TakeNew? || e.RetakeOld? || e.ExpLock? || e.Return? }

  predicate Drops(e: Event) { e.Moved? || e.DropOld? || e.TooEarly? || e.Unlock? || e.ExpUnlock? || e.Fire? }

  lemma ThreadTakes(s: State, e: Event)
    requires Enabled(s, e) && e.ByThread() && Takes(e)
    ensures var c := Apply(s, e).PcOf(e.id).Holds();
      s.PcOf(e.id).Holds() == None && c.Some? && c.value !in s.lock
      && Apply(s, e).lock == s.lock[c.value := Thread(e.id)]
  {
    hide ExpApply, ExpEnabled;
  }

  lemma ThreadDrops(s: State, e: Event)
    requires Enabled(s, e) && e.ByThread() && Drops(e)
    ensures var c := s.PcOf(e.id).Holds(); c.Some? && Apply(s, e).lock == s.lock - {c.value}
  {
    hide ExpApply, ExpEnabled;
  }

  lemma ThreadKeeps(s: State, e: Event)
    requires Enabled(s, e) && e.ByThread() && !Takes(e) && !Drops(e)
    ensures Apply(s, e).lock == s.lock && Apply(s, e).PcOf(e.id).Holds() == s.PcOf(e.id).Holds()
  {
    hide ThreadQueues, HomeAfter, ExpApply, ExpEnabled;
    assert Apply(s, e).lock == s.lock;
    hide LockAfter;
  }

  lemma LockHeldThread(s: State, e: Event, c: Cpu)
    requires Enabled(s, e) && e.ByThread() && LockHeld(s, c)
    ensures LockHeld(Apply(s, e), c)
  {
    hide Apply, Enabled;
    LeavesExpiry(s, e);
    if Takes(e) { ThreadTakes(s, e); } else if Drops(e) { ThreadDrops(s, e); } else { ThreadKeeps(s, e); }
    if c in s.lock && s.lock[c].Thread? && s.lock[c].id != e.id { OthersStay(s, e, s.lock[c].id); }
  }

  lemma ExpirerTakes(s: State, e: Event)
    requires Enabled(s, e) && !e.ByThread() && Takes(e)
    ensures Apply(s, e).ExpOf(e.base).HoldsLock() && e.base.cpu !in s.lock
    ensures Apply(s, e).lock == s.lock[e.base.cpu := Expirer(e.base)]
  {
    hide ThreadApply, ThreadEnabled;
  }

  lemma ExpirerDrops(s: State, e: Event)
    requires Enabled(s, e) && !e.ByThread() && Drops(e)
    ensures Apply(s, e).lock == s.lock - {e.base.cpu}
  {
    hide ThreadApply, ThreadEnabled;
  }

  lemma ExpirerKeeps(s: State, e: Event)
    requires Enabled(s, e) && !e.ByThread() && !Takes(e) && !Drops(e)
    ensures Apply(s, e).lock == s.lock && Apply(s, e).ExpOf(e.base).HoldsLock()
  {
    hide ThreadApply, ThreadEnabled;
  }

  lemma LockHeldExp(s: State, e: Event, c: Cpu)
    requires Enabled(s, e) && !e.ByThread() && LockHeld(s, c)
    ensures LockHeld(Apply(s, e), c)
  {
    hide Apply, Enabled;
    if Takes(e) { ExpirerTakes(s, e); } else if Drops(e) { ExpirerDrops(s, e); } else { ExpirerKeeps(s, e); }
    if c in s.lock {
      match s.lock[c]
      case Thread(id) => OthersStay(s, e, id);
      case Expirer(b) => OnlyItsBase(s, e, b);
    }
  }

  lemma KnownStays(s: State, e: Event, id: ThreadId)
    requires Enabled(s, e) && Known(s, id)
    ensures Known(Apply(s, e), id)
  {
    if e.ByThread() && e.id == id {
      OwnKnown(s, e);
    } else {
      OthersStay(s, e, id);
      if s.PcOf(id) != Idle { HomesStay(s, e, s.PcOf(id).op.timer); }
    }
  }

  /** A thread works on one timer from its call to its return. */
  lemma SameOp(s: State, e: Event)
    requires Enabled(s, e) && e.ByThread() && e.Switches()
    ensures s.PcOf(e.id) != Idle && Apply(s, e).PcOf(e.id) != Idle && Apply(s, e).PcOf(e.id).op == s.PcOf(e.id).op
  {
    hide ThreadQueues, HomeAfter, LockAfter, ExpApply, ExpEnabled;
  }

  lemma OwnKnown(s: State, e: Event)
    requires Enabled(s, e) && e.ByThread() && Known(s, e.id)
    ensures Known(Apply(s, e), e.id)
  {
    if s.PcOf(e.id) != Idle { HomesStay(s, e, s.PcOf(e.id).op.timer); }
    if e.Switches() {
      SameOp(s, e);
    } else if e.Call? {
      hide ExpApply, ExpEnabled;
    } else {
      hide ThreadQueues, HomeAfter, LockAfter, ExpApply, ExpEnabled;
      assert s.PcOf(e.id) != Idle;
      assert Apply(s, e).PcOf(e.id) != Idle ==> Apply(s, e).PcOf(e.id).op == s.PcOf(e.id).op;
    }
  }

  /** Only the thread that parked a timer takes it from the migration base. */
  lemma ParkedStays(s: State, e: Event, t: Timer)
    requires Inv(s) && Enabled(s, e) && ParkedBy(s, t) && t in s.home
    ensures ParkedBy(Apply(s, e), t)
  {
    HomesStay(s, e, t);
    var s' := Apply(s, e);
    if s'.home[t] == Migration {
      if s.home[t] == Migration {
        var id :| s.PcOf(id).IsParked() && s.PcOf(id).op.timer == t;
        if e.ByThread() && e.id == id { StillParked(s, e); } else { OthersStay(s, e, id); }
      } else {
        NowParked(s, e, t);
      }
    }
  }

  lemma StillParked(s: State, e: Event)
    requires Enabled(s, e) && e.ByThread() && s.PcOf(e.id).IsParked()
    requires var t := s.PcOf(e.id).op.timer; t in Apply(s, e).home && Apply(s, e).home[t] == Migration
    ensures Apply(s, e).PcOf(e.id).IsParked() && Apply(s, e).PcOf(e.id).op == s.PcOf(e.id).op
  {
    if e.Settle? || e.Unpark? {
      hide ThreadQueues, LockAfter, ThreadNext, ExpApply, ExpEnabled;
    } else {
      ParkedOn(s, e);
      hide Apply, Enabled;
    }
  }

  lemma ParkedOn(s: State, e: Event)
    requires Enabled(s, e) && e.ByThread() && s.PcOf(e.id).IsParked() && !e.Settle? && !e.Unpark?
    ensures Apply(s, e).PcOf(e.id).IsParked() && Apply(s, e).PcOf(e.id).op == s.PcOf(e.id).op
  {
    hide ThreadQueues, HomeAfter, LockAfter, ExpApply, ExpEnabled;
  }

  lemma NowParked(s: State, e: Event, t: Timer)
    requires Enabled(s, e) && e.MovesHome() && s.PcOf(e.id).op.timer == t && t in s.home && s.home[t].At?
    requires t in Apply(s, e).home && Apply(s, e).home[t] == Migration
    ensures Apply(s, e).PcOf(e.id).IsParked() && Apply(s, e).PcOf(e.id).op.timer == t
  {
    hide ExpApply, ExpEnabled;
  }

  lemma {:induction false} HistoryLive(h: History)
    requires Possible(h)
    ensures Live(h.now)
  {
    match h
    case Fresh(s) =>
    case After(p, e, s) =>
      HistoryLive(p);
      HistoryInv(p);
      hide Apply, Enabled, Inv;
      forall c ensures LockHeld(s, c) {
        if e.ByThread() { LockHeldThread(p.now, e, c); } else { LockHeldExp(p.now, e, c); }
      }
      forall t ensures ParkedBy(s, t) {
        if t in s.home {
          KnownBefore(p, e, t);
          ParkedStays(p.now, e, t);
        }
      }
      forall id ensures Known(s, id) { KnownStays(p.now, e, id); }
  }

  /** The step belongs to an operation or an expiry that has begun, and is not the beginning of another. */
  predicate GoesOn(e: Event) { !e.Call? && !e.ExpLock? && !e.Mark? }

  /** Somebody who holds a lock can always go on. */
  lemma HolderGoesOn(s: State, c: Cpu) returns (e: Event)
    requires Inv(s) && LockHeld(s, c) && c in s.lock
    ensures Enabled(s, e) && GoesOn(e)
  {
    match s.lock[c]
    case Thread(id) => e := ThreadGoesOn(s, id);
    case Expirer(b) => e := ExpirerGoesOn(s, b);
  }

  lemma ThreadGoesOn(s: State, id: ThreadId) returns (e: Event)
    requires Inv(s) && s.PcOf(id).Holds().Some?
    ensures Enabled(s, e) && GoesOn(e)
  {
    var pc := s.PcOf(id);
    assert ThreadOk(s, id);
    hide ExpEnabled;
    match pc
    case Recheck(op, b) => e := if op.timer in s.home && s.home[op.timer] == At(b) then Confirm(id) else Moved(id);
    case Owned(op, b) =>
      e := if op.Start? then Dequeue(id) else if s.RunsAt(At(b), op.timer) then CancelBusy(id) else CancelRemove(id);
    case Switching(op, b, _, _, _) =>
      e := if b == NewBase(pc) then Stay(id) else if s.RunsAt(At(b), op.timer) then Keep(id) else Park(id);
    case Parked(_, _, _, _, _) => e := DropOld(id);
    case AtNew(_, _, _, _, _) => e := Settle(id);
    case Returned(_, _, _, _, _) => e := Unpark(id);
    case Placing(_, _, _) => e := Enqueue(id);
    case Done(_, _, _) => e := Unlock(id);
  }

  lemma ExpirerGoesOn(s: State, b: Base) returns (e: Event)
    requires s.ExpOf(b).HoldsLock()
    ensures Enabled(s, e) && GoesOn(e)
  {
    hide ThreadEnabled;
    match s.ExpOf(b)
    case Holding => e := ExpUnlock(b);
    case Marked(_) => e := BeginFence(b);
    case MarkBarrier(_) => e := EndFence(b);
    case Fenced(_) => e := Take(b);
    case Taken(_) => e := Fire(b);
    case Relocked(_) => e := Restart(b, false);
    case Requeued(_) => e := BeginPost(b);
    case PostBarrier(_) => e := EndPost(b);
    case Clearing(_) => e := Clear(b);
  }

  /** With all locks free every thread that waits for one can go on; and a timer on the migration base is about to
      be put somewhere by the thread that has it. */
  lemma WaiterGoesOn(s: State, id: ThreadId) returns (e: Event)
    requires Inv(s) && Live(s) && s.lock == map[] && s.PcOf(id) != Idle
    ensures Enabled(s, e) && GoesOn(e)
  {
    var pc := s.PcOf(id);
    assert ThreadOk(s, id) && Known(s, id);
    hide ExpEnabled;
    match pc
    case Locking(_, _) => e := Lock(id);
    case Unlocked(_, _, _, _, _) => e := TakeNew(id);
    case Returning(_, _, _, _, _) => e := RetakeOld(id);
    case ReadBase(op) =>
      if s.home[op.timer].At? {
        e := ReadHome(id);
      } else {
        assert ParkedBy(s, op.timer);
        var jd :| s.PcOf(jd).IsParked() && s.PcOf(jd).op.timer == op.timer;
        assert ThreadOk(s, jd);
        e := if s.PcOf(jd).Unlocked? then TakeNew(jd) else RetakeOld(jd);
      }
  }

  /** No deadlock: while anybody is inside a start, a cancel or an expiry, some step that is part of one is
      possible. */
  lemma NeverStuck(s: State) returns (e: Event)
    requires Reachable(s) && ((exists id :: s.PcOf(id) != Idle) || exists b :: s.ExpOf(b) != Resting)
    ensures Enabled(s, e) && GoesOn(e)
  {
    var h :| Possible(h) && h.now == s;
    HistoryInv(h);
    HistoryLive(h);
    hide Inv, Live, Enabled;
    if c :| c in s.lock {
      assert LockHeld(s, c) by { assert Live(s); }
      e := HolderGoesOn(s, c);
    } else if id :| s.PcOf(id) != Idle {
      assert s.lock == map[];
      e := WaiterGoesOn(s, id);
    } else {
      var b :| s.ExpOf(b) != Resting;
      e := CallbackReturns(s, b);
    }
  }

  lemma CallbackReturns(s: State, b: Base) returns (e: Event)
    requires Inv(s) && s.ExpOf(b) != Resting && forall c :: c !in s.lock
    ensures Enabled(s, e) && GoesOn(e)
  {
    assert BaseOk(s, b);
    e := Return(b);
  }

  // ----- The lock-free activity check comes to an answer

  /** `n` accesses of a reader, or as many as it can make, with nobody else moving. */
  function ReadOn(s: State, t: Timer, r: Reader, n: nat): Reader
    decreases n
  {
    if n == 0 || !ReaderEnabled(s, t, r) then r else ReadOn(s, t, ReaderNext(s, t, r), n - 1)
  }

  /** Left alone, outside a barrier of the expiry loop, `hrtimer_active` answers after six accesses at most, and
      says whether the timer is enqueued or running. */
  lemma AnswersWhenAlone(s: State, t: Timer)
    requires t in s.home && SeqAt(s, s.home[t]) % 2 == 0
    ensures ReadOn(s, t, GetBase, 6) == Answered(!Quiet(s, t))
  {
    var h, n := s.home[t], SeqAt(s, s.home[t]);
    assert ReadOn(s, t, GetBase, 6) == ReadOn(s, t, GetSeq(h), 5) == ReadOn(s, t, GetState(h, n), 4);
    if t in s.enqueued {
      assert ReadOn(s, t, GetState(h, n), 4) == ReadOn(s, t, Answered(true), 3);
    } else {
      assert ReadOn(s, t, GetState(h, n), 4) == ReadOn(s, t, GetRunning(h, n), 3);
      if s.RunsAt(h, t) {
        assert ReadOn(s, t, GetRunning(h, n), 3) == ReadOn(s, t, Answered(true), 2);
      } else {
        assert ReadOn(s, t, GetRunning(h, n), 3) == ReadOn(s, t, GetSeqAgain(h, n), 2);
        assert ReadOn(s, t, GetSeqAgain(h, n), 2) == ReadOn(s, t, GetBaseAgain(h), 1);
        assert ReadOn(s, t, GetBaseAgain(h), 1) == ReadOn(s, t, Answered(false), 0);
      }
    }
  }
}
