/**
 The sending side of the virtio rpmsg bus: the tx buffer allocator, the count of sleeping senders that gates
 the tx-complete interrupt, and senders that block for a buffer. Every method of `VirtProc` that takes a
 sender is one stretch of `rpmsg_send_offchannel_raw` that others cannot interleave with: a section under
 `tx_lock`, or a step of the wait queue. Any order of calls, by any number of senders, is an interleaving.
 */
module RpmsgTx {
  import opened Options

  /**
   Where a sender is.
   - Fetching: about to take a buffer for the first time
   - Entering: found none, about to count itself as a sleeper
   - Checking: counted; about to look once more before it joins the wait queue
   - Listed: on the wait queue, about to evaluate the condition; `last` when this is its last look, because
     its time ran out or a signal came
   - Asleep: found none while on the wait queue; it sleeps unless `woken`
   - Leaving: off the wait queue, about to take itself off the count
   - Filling: holds a buffer it will hand to the remote side
   */
  datatype Sender =
    | Fetching(wait: bool)
    | Entering
    | Checking
    | Listed(woken: bool, last: Last)
    | Asleep(woken: bool)
    | Leaving(buf: Option<nat>, gaveUp: bool)
    | Filling(mine: nat)
  {
    predicate Counted() { Checking? || Listed? || Asleep? || Leaving? }

    predicate Holds(b: nat) { (Filling? && mine == b) || (Leaving? && buf == Some(b)) }
  }

  datatype Last = No | TimedOut | Signalled

  /** The senders that `sleepers` counts. */
  ghost function CountedIds(senders: map<nat, Sender>): set<nat> {
    set id | id in senders && senders[id].Counted()
  }

  /** Every buffer below `last` is in exactly one place, and none above it is anywhere. */
  ghost predicate Partition(half: nat, last: nat, used: seq<nat>, inFlight: set<nat>, lost: set<nat>,
                            senders: map<nat, Sender>) {
    && last <= half
    && (forall b :: b in used || b in inFlight || b in lost ==> b < last)
    && NoRepeats(used)
    && (forall b :: b in used ==> b !in inFlight && b !in lost)
    && inFlight !! lost
    && HoldersApart(last, used, inFlight, lost, senders)
    && (forall b: nat :: b < last ==> b in used || b in inFlight || b in lost || IsHeld(senders, b))
  }

  ghost predicate NoRepeats(used: seq<nat>) {
    forall j, k :: 0 <= j < k < |used| ==> used[j] != used[k]
  }

  /** A buffer held by a sender is held by that sender alone, and is in no other place. */
  ghost predicate HoldersApart(last: nat, used: seq<nat>, inFlight: set<nat>, lost: set<nat>,
                               senders: map<nat, Sender>) {
    && (forall id, b: nat :: HeldBy(senders, id, b) ==> b < last && b !in used && b !in inFlight && b !in lost)
    && (forall id, jd, b: nat :: HeldBy(senders, id, b) && HeldBy(senders, jd, b) ==> id == jd)
  }

  predicate HeldBy(senders: map<nat, Sender>, id: nat, b: nat) {
    id in senders && senders[id].Holds(b)
  }

  ghost predicate IsHeld(senders: map<nat, Sender>, b: nat) {
    exists id :: HeldBy(senders, id, b)
  }

  class VirtProc {
    const half: nat
    var lastSbuf: nat
    var used: seq<nat>
    var inFlight: set<nat>
    var lost: set<nat>
    var sleepers: nat
    var enabled: bool
    var pending: bool
    var senders: map<nat, Sender>

    ghost predicate Valid() reads this {
      && Partition(half, lastSbuf, used, inFlight, lost, senders)
      && sleepers == |CountedIds(senders)|
      && (enabled <==> sleepers > 0)
      && WakeupsKept()
    }

    /** A sender that sleeps and has not been woken has nothing to wait for but buffers still to come back,
        or an interrupt that is on its way. */
    ghost predicate WakeupsKept() reads this {
      forall id :: id in senders && senders[id] == Asleep(false) ==> lastSbuf >= half && (used == [] || pending)
    }

    /** `rpmsg_probe`: nothing used yet, tx-complete interrupts suppressed. */
    constructor (half: nat)
      ensures Valid() && this.half == half && senders == map[] && lastSbuf == 0
    {
      this.half := half;
      lastSbuf, used, inFlight, lost := 0, [], {}, {};
      sleepers, enabled, pending, senders := 0, false, false, map[];
    }

    /** A buffer never used before, or the oldest one the remote side has returned. */
    function NextBuf(): Option<nat> reads this {
      if lastSbuf < half then Some(lastSbuf) else if used != [] then Some(used[0]) else None
    }

    /** What is left of the two supplies once a buffer is taken. */
    twostate predicate Taken() reads this {
      && lastSbuf == old(lastSbuf) + (if old(lastSbuf) < half then 1 else 0)
      && used == if old(lastSbuf) < half || old(used) == [] then old(used) else old(used)[1..]
    }

    /** `get_a_tx_buf`. */
    method GetATxBuf() returns (buf: Option<nat>)
      modifies this`lastSbuf, this`used
      ensures buf == old(NextBuf()) && Taken()
      ensures buf.Some? <==> old(lastSbuf) < half || old(used) != []
      ensures buf.Some? ==> buf.value == if old(lastSbuf) < half then old(lastSbuf) else old(used)[0]
    {
      if lastSbuf < half {
        buf := Some(lastSbuf);
        lastSbuf := lastSbuf + 1;
      } else if used != [] {
        buf := Some(used[0]);
        used := used[1..];
      } else {
        buf := None;
      }
    }

    /** A sender calls in; `wait` as in `rpmsg_send_offchannel_raw`. */
    method Arrive(id: nat, wait: bool)
      requires Valid() && id !in senders
      modifies this`senders
      ensures Valid() && senders == old(senders)[id := Fetching(wait)]
    {
      PartitionSame(half, lastSbuf, used, inFlight, lost, senders, id, Fetching(wait));
      CountSame(senders, id, Fetching(wait));
      senders := senders[id := Fetching(wait)];
    }

    /** The first try: without `wait` a sender that finds no buffer is sent away. */
    method FirstFetch(id: nat)
      requires Valid() && id in senders && senders[id].Fetching?
      modifies this`senders, this`lastSbuf, this`used
      ensures Valid()
      ensures Taken()
      ensures match old(NextBuf())
        case Some(b) => senders == old(senders)[id := Filling(b)]
        case None => senders == if old(senders[id].wait) then old(senders)[id := Entering] else old(senders) - {id}
    {
      var buf := GetATxBuf();
      match buf
      case Some(b) =>
        PartitionGrant(half, old(lastSbuf), old(used), inFlight, lost, senders, id, Filling(b), lastSbuf, used);
        CountSame(senders, id, Filling(b));
        senders := senders[id := Filling(b)];
      case None =>
        if senders[id].wait {
          PartitionSame(half, lastSbuf, used, inFlight, lost, senders, id, Entering);
          CountSame(senders, id, Entering);
          senders := senders[id := Entering];
        } else {
          PartitionDrop(half, lastSbuf, used, inFlight, lost, senders, id);
          CountDrop(senders, id);
          senders := senders - {id};
        }
    }

    /** `rpmsg_upref_sleepers`. */
    method UprefSleepers(id: nat)
      requires Valid() && id in senders && senders[id].Entering?
      modifies this`senders, this`sleepers, this`enabled
      ensures Valid() && senders == old(senders)[id := Checking] && sleepers == old(sleepers) + 1
    {
      PartitionSame(half, lastSbuf, used, inFlight, lost, senders, id, Checking);
      CountUp(senders, id, Checking);
      sleepers := sleepers + 1;
      if sleepers == 1 { enabled := true; }
      senders := senders[id := Checking];
    }

    /** A look at the condition of the wait: before joining the queue, or while on it. Who finds no buffer joins
        the queue, goes to sleep, or leaves, after its last look; and gives up only when its time has run out. */
    method Look(id: nat, last: Last)
      requires Valid() && id in senders && (senders[id].Checking? || senders[id].Listed?)
      modifies this`senders, this`lastSbuf, this`used
      ensures Valid()
      ensures Taken()
      ensures id in senders && senders == old(senders)[id := senders[id]]
      ensures old(NextBuf()).Some? ==> senders[id] == Leaving(old(NextBuf()), false)
      ensures old(NextBuf()) == None ==>
        match old(senders[id])
        case Checking => senders[id] == Listed(false, if last == Signalled then Signalled else No)
        case Listed(woken, TimedOut) => senders[id] == Leaving(None, true)
        case Listed(woken, Signalled) => senders[id] == Leaving(None, false)
        case Listed(woken, No) => senders[id] == Asleep(woken)
    {
      var buf := GetATxBuf();
      var s := if buf.Some? then Leaving(buf, false) else AfterMiss(senders[id], last);
      if buf.Some? {
        PartitionGrant(half, old(lastSbuf), old(used), inFlight, lost, senders, id, s, lastSbuf, used);
      } else {
        PartitionSame(half, lastSbuf, used, inFlight, lost, senders, id, s);
      }
      CountSame(senders, id, s);
      senders := senders[id := s];
    }

    /** A sender whose time has run out, and who does not find a buffer at its last look, is gone. */
    method OutOfTime(id: nat)
      requires Valid() && id in senders && senders[id].Listed? && senders[id].last.TimedOut?
      requires lastSbuf == half && used == []
      modifies this`senders, this`sleepers, this`enabled, this`lastSbuf, this`used
      ensures Valid() && senders == old(senders) - {id} && sleepers == old(sleepers) - 1
    {
      Look(id, No);
      DownrefSleepers(id);
    }

    /** A sender who has got a signal instead starts over. */
    method Interrupted(id: nat)
      requires Valid() && id in senders && senders[id].Listed? && senders[id].last.Signalled?
      requires lastSbuf == half && used == []
      modifies this`senders, this`sleepers, this`enabled, this`lastSbuf, this`used
      ensures Valid() && senders == old(senders)[id := Entering] && sleepers == old(sleepers) - 1
    {
      Look(id, No);
      DownrefSleepers(id);
    }

    /** A sender on the wait queue runs again: woken, out of time, or because of a signal. */
    method Resume(id: nat, last: Last)
      requires Valid() && id in senders && senders[id].Asleep? && (senders[id].woken || !last.No?)
      modifies this`senders
      ensures Valid() && senders == old(senders)[id := Listed(false, last)]
    {
      PartitionSame(half, lastSbuf, used, inFlight, lost, senders, id, Listed(false, last));
      CountSame(senders, id, Listed(false, last));
      senders := senders[id := Listed(false, last)];
    }

    /** `rpmsg_downref_sleepers`, and what the loop does next: go on with the buffer, give up after a
        timeout, or start over after a signal. */
    method DownrefSleepers(id: nat)
      requires Valid() && id in senders && senders[id].Leaving?
      modifies this`senders, this`sleepers, this`enabled
      ensures Valid() && sleepers == old(sleepers) - 1
      ensures var s := old(senders[id]);
        senders == if s.buf.Some? then old(senders)[id := Filling(s.buf.value)]
                   else if s.gaveUp then old(senders) - {id} else old(senders)[id := Entering]
    {
      var s := senders[id];
      assert id in CountedIds(senders);
      sleepers := sleepers - 1;
      if sleepers == 0 { enabled := false; }
      if s.buf.Some? || !s.gaveUp {
        var t := if s.buf.Some? then Filling(s.buf.value) else Entering;
        PartitionSame(half, lastSbuf, used, inFlight, lost, senders, id, t);
        CountDown(senders, id, t);
        senders := senders[id := t];
      } else {
        PartitionDrop(half, lastSbuf, used, inFlight, lost, senders, id);
        CountDrop(senders, id);
        senders := senders - {id};
      }
    }

    /** The message goes to the virtqueue; when that fails the buffer is lost. */
    method AddOutbuf(id: nat, fails: bool)
      requires Valid() && id in senders && senders[id].Filling?
      modifies this`senders, this`inFlight, this`lost
      ensures Valid() && senders == old(senders) - {id}
      ensures inFlight == if fails then old(inFlight) else old(inFlight) + {old(senders[id].mine)}
      ensures lost == if fails then old(lost) + {old(senders[id].mine)} else old(lost)
    {
      var b := senders[id].mine;
      CountDrop(senders, id);
      if fails {
        PartitionHandOver(half, lastSbuf, used, inFlight, lost, senders, id, true);
        lost := lost + {b};
      } else {
        PartitionHandOver(half, lastSbuf, used, inFlight, lost, senders, id, false);
        inFlight := inFlight + {b};
      }
      senders := senders - {id};
    }

    /** The remote side is done with a buffer; an enabled virtqueue signals it. */
    method RemoteReturns(b: nat)
      requires Valid() && b in inFlight
      modifies this`used, this`inFlight, this`pending
      ensures Valid() && inFlight == old(inFlight) - {b} && used == old(used) + [b]
      ensures pending == (old(pending) || enabled)
    {
      PartitionReturn(half, lastSbuf, used, inFlight, lost, senders, b);
      SleeperIsCounted(senders);
      inFlight := inFlight - {b};
      used := used + [b];
      if enabled { pending := true; }
    }

    /** `rpmsg_xmit_done`: every sender on the wait queue is woken. */
    method XmitDone()
      requires Valid() && pending
      modifies this`pending, this`senders
      ensures Valid() && !pending && senders.Keys == old(senders).Keys
      ensures forall id :: id in senders ==>
        match old(senders)[id]
        case Listed(_, last) => senders[id] == Listed(true, last)
        case Asleep(_) => senders[id] == Asleep(true)
        case s => senders[id] == s
    {
      PartitionWoken(half, lastSbuf, used, inFlight, lost, senders);
      assert CountedIds(AllWoken(senders)) == CountedIds(senders);
      pending := false;
      senders := AllWoken(senders);
    }

    /** The tx-complete interrupt is enabled exactly while some sender waits, and no sender sleeps on
        unwoken while a returned buffer is there for it, unless the interrupt is still on its way. */
    lemma NoLostWakeup(id: nat)
      requires Valid() && id in senders && senders[id] == Asleep(false)
      ensures enabled && (used != [] ==> pending) && lastSbuf == half
    {
      assert id in CountedIds(senders);
    }

    /** Buffers in flight never outnumber the tx half, hence the ring when the rings are symmetric. */
    lemma InFlightBound()
      requires Valid()
      ensures |inFlight| <= half && |inFlight| + |used| + |lost| <= half
    {
      var back := AsSet(used);
      SubsetSize(inFlight + back + lost, Below(half));
      assert inFlight !! back && (inFlight + back) !! lost;
    }
  }

  /** Where a look that finds nothing leaves the sender. */
  function AfterMiss(s: Sender, last: Last): Sender
    requires s.Checking? || s.Listed?
  {
    match s
    case Checking => Listed(false, if last == Signalled then Signalled else No)
    case Listed(woken, TimedOut) => Leaving(None, true)
    case Listed(woken, Signalled) => Leaving(None, false)
    case Listed(woken, No) => Asleep(woken)
  }

  function Wake(s: Sender): Sender {
    match s
    case Listed(_, last) => Listed(true, last)
    case Asleep(_) => Asleep(true)
    case _ => s
  }

  function AllWoken(senders: map<nat, Sender>): map<nat, Sender> {
    map id | id in senders :: Wake(senders[id])
  }

  // ----- Counting

  lemma CountSame(senders: map<nat, Sender>, id: nat, s: Sender)
    requires s.Counted() == (id in senders && senders[id].Counted())
    ensures CountedIds(senders[id := s]) == CountedIds(senders)
  {
  }

  lemma CountUp(senders: map<nat, Sender>, id: nat, s: Sender)
    requires s.Counted() && !(id in senders && senders[id].Counted())
    ensures |CountedIds(senders[id := s])| == |CountedIds(senders)| + 1
  {
    assert CountedIds(senders[id := s]) == CountedIds(senders) + {id};
  }

  lemma CountDown(senders: map<nat, Sender>, id: nat, s: Sender)
    requires !s.Counted() && id in senders && senders[id].Counted()
    ensures |CountedIds(senders[id := s])| == |CountedIds(senders)| - 1
  {
    assert CountedIds(senders[id := s]) == CountedIds(senders) - {id};
  }

  lemma CountDrop(senders: map<nat, Sender>, id: nat)
    requires id in senders
    ensures |CountedIds(senders - {id})| == |CountedIds(senders)| - if senders[id].Counted() then 1 else 0
  {
    assert CountedIds(senders - {id}) == CountedIds(senders) - {id};
  }

  lemma SleeperIsCounted(senders: map<nat, Sender>)
    ensures forall id :: id in senders && senders[id].Asleep? ==> |CountedIds(senders)| > 0
  {
    forall id | id in senders && senders[id].Asleep? ensures |CountedIds(senders)| > 0 {
      assert id in CountedIds(senders);
    }
  }

  ghost function Below(n: nat): (r: set<nat>)
    ensures |r| == n && forall b: nat :: b in r <==> b < n
  {
    if n == 0 then {} else Below(n - 1) + {n - 1}
  }

  lemma SubsetSize(a: set<nat>, b: set<nat>)
    requires a <= b
    ensures |a| <= |b|
  {
    if a != {} {
      var x :| x in a;
      SubsetSize(a - {x}, b - {x});
    }
  }

  ghost function AsSet(used: seq<nat>): (r: set<nat>)
    requires NoRepeats(used)
    ensures |r| == |used| && forall b: nat :: b in r <==> b in used
  {
    if used == [] then {} else AsSet(used[1..]) + {used[0]}
  }

  // ----- Keeping the partition

  /** The allocator hands out a buffer that was in no other place. */
  lemma PartitionGrant(half: nat, last: nat, used: seq<nat>, inFlight: set<nat>, lost: set<nat>,
                       senders: map<nat, Sender>, id: nat, s: Sender, last': nat, used': seq<nat>)
    requires Partition(half, last, used, inFlight, lost, senders) && id in senders
    requires forall b: nat :: !senders[id].Holds(b)
    requires s.Filling? || (s.Leaving? && s.buf.Some?)
    requires var b := if s.Filling? then s.mine else s.buf.value;
      if last < half then b == last && last' == last + 1 && used' == used
      else last' == last && used == [b] + used'
    ensures Partition(half, last', used', inFlight, lost, senders[id := s])
  {
    var b := if s.Filling? then s.mine else s.buf.value;
    var senders' := senders[id := s];
    if last >= half {
      assert b == used[0] && used' == used[1..];
      assert forall c :: c in used' <==> c in used && c != b;
    }
    assert !IsHeld(senders, b) && b !in used' && b !in inFlight && b !in lost;
    assert HeldBy(senders', id, b);
    assert forall jd, c: nat :: HeldBy(senders', jd, c) <==> HeldBy(senders, jd, c) || (jd == id && c == b);
    forall c: nat | c < last' && !(c in used' || c in inFlight || c in lost) ensures IsHeld(senders', c) {
      if c != b {
        assert c !in used;
        var jd :| HeldBy(senders, jd, c);
        assert HeldBy(senders', jd, c);
      }
    }
  }

  /** A sender moves on with the buffer it has, or with none. */
  lemma PartitionSame(half: nat, last: nat, used: seq<nat>, inFlight: set<nat>, lost: set<nat>,
                      senders: map<nat, Sender>, id: nat, s: Sender)
    requires Partition(half, last, used, inFlight, lost, senders)
    requires forall b: nat :: s.Holds(b) <==> (id in senders && senders[id].Holds(b))
    ensures Partition(half, last, used, inFlight, lost, senders[id := s])
  {
    var senders' := senders[id := s];
    assert forall jd, b: nat :: HeldBy(senders', jd, b) <==> HeldBy(senders, jd, b);
    assert forall b: nat :: IsHeld(senders', b) <==> IsHeld(senders, b);
  }

  /** A sender without a buffer leaves. */
  lemma PartitionDrop(half: nat, last: nat, used: seq<nat>, inFlight: set<nat>, lost: set<nat>,
                      senders: map<nat, Sender>, id: nat)
    requires Partition(half, last, used, inFlight, lost, senders) && id in senders
    requires forall b: nat :: !senders[id].Holds(b)
    ensures Partition(half, last, used, inFlight, lost, senders - {id})
  {
    var senders' := senders - {id};
    assert forall jd, b: nat :: HeldBy(senders', jd, b) <==> HeldBy(senders, jd, b);
    assert forall b: nat :: IsHeld(senders', b) <==> IsHeld(senders, b);
  }

  lemma PartitionHandOver(half: nat, last: nat, used: seq<nat>, inFlight: set<nat>, lost: set<nat>,
                          senders: map<nat, Sender>, id: nat, fails: bool)
    requires Partition(half, last, used, inFlight, lost, senders) && id in senders && senders[id].Filling?
    ensures var b := senders[id].mine;
      Partition(half, last, used, if fails then inFlight else inFlight + {b}, if fails then lost + {b} else lost,
                senders - {id})
  {
    var b := senders[id].mine;
    var senders' := senders - {id};
    assert HeldBy(senders, id, b);
    assert forall jd, c: nat :: HeldBy(senders', jd, c) ==> HeldBy(senders, jd, c) && jd != id;
    forall c: nat | IsHeld(senders, c) && c != b ensures IsHeld(senders', c) {
      var jd :| HeldBy(senders, jd, c);
      assert HeldBy(senders', jd, c);
    }
  }

  lemma PartitionReturn(half: nat, last: nat, used: seq<nat>, inFlight: set<nat>, lost: set<nat>,
                        senders: map<nat, Sender>, b: nat)
    requires Partition(half, last, used, inFlight, lost, senders) && b in inFlight
    ensures Partition(half, last, used + [b], inFlight - {b}, lost, senders)
  {
    assert forall c :: c in used + [b] <==> c in used || c == b;
  }

  lemma PartitionWoken(half: nat, last: nat, used: seq<nat>, inFlight: set<nat>, lost: set<nat>,
                       senders: map<nat, Sender>)
    requires Partition(half, last, used, inFlight, lost, senders)
    ensures Partition(half, last, used, inFlight, lost, AllWoken(senders))
  {
    var senders' := AllWoken(senders);
    assert forall id, b: nat :: HeldBy(senders', id, b) <==> HeldBy(senders, id, b);
    assert forall b: nat :: IsHeld(senders', b) <==> IsHeld(senders, b);
  }

  // ----- Where the buffers lie

  const MAX_BUFS: nat := 512
  const BUF_SIZE: nat := 2048

  /** The number of buffers `rpmsg_probe` allocates for an rx ring of `ring` entries. */
  function NumBufs(ring: nat): nat { if ring < MAX_BUFS / 2 then ring * 2 else MAX_BUFS }

  function TotalSpace(ring: nat): nat { NumBufs(ring) * BUF_SIZE }

  /** Offsets of the i-th rx and tx buffer in the region. */
  function RxOffset(i: nat): nat { i * BUF_SIZE }

  function TxOffset(ring: nat, i: nat): nat { TotalSpace(ring) / 2 + BUF_SIZE * i }

  /** Tx buffers lie in the upper half of the region without overlap, rx buffers in the lower half; and a
      tx ring as large as the rx ring has room for all tx buffers at once. */
  lemma Layout(ring: nat, i: nat, j: nat)
    requires i < NumBufs(ring) / 2 && j < NumBufs(ring) / 2
    ensures TotalSpace(ring) / 2 <= TxOffset(ring, i) && TxOffset(ring, i) + BUF_SIZE <= TotalSpace(ring)
    ensures RxOffset(i) + BUF_SIZE <= TotalSpace(ring) / 2
    ensures i < j ==> TxOffset(ring, i) + BUF_SIZE <= TxOffset(ring, j) && RxOffset(i) + BUF_SIZE <= RxOffset(j)
    ensures NumBufs(ring) / 2 == if ring <= 256 then ring else 256
  {
  }

  // ----- Runs

  datatype Request =
    | Arriving(id: nat, wait: bool)
    | Fetch(id: nat)
    | Upref(id: nat)
    | LookAgain(id: nat, last: Last)
    | Resuming(id: nat, last: Last)
    | Downref(id: nat)
    | Add(id: nat, fails: bool)
    | Returning(buf: nat)
    | Interrupt

  predicate Possible(vrp: VirtProc, r: Request) reads vrp {
    match r
    case Arriving(id, _) => id !in vrp.senders
    case Fetch(id) => id in vrp.senders && vrp.senders[id].Fetching?
    case Upref(id) => id in vrp.senders && vrp.senders[id].Entering?
    case LookAgain(id, _) => id in vrp.senders && (vrp.senders[id].Checking? || vrp.senders[id].Listed?)
    case Resuming(id, last) =>
      id in vrp.senders && vrp.senders[id].Asleep? && (vrp.senders[id].woken || !last.No?)
    case Downref(id) => id in vrp.senders && vrp.senders[id].Leaving?
    case Add(id, _) => id in vrp.senders && vrp.senders[id].Filling?
    case Returning(b) => b in vrp.inFlight
    case Interrupt => vrp.pending
  }

  /** Nobody leaves but with its message handed over, without a buffer it may not wait for, or out of time; and
      nobody's time is up but by a last look that found nothing. */
  method Serve(vrp: VirtProc, r: Request)
    requires vrp.Valid() && Possible(vrp, r)
    modifies vrp
    ensures vrp.Valid()
    ensures forall id :: id in old(vrp.senders) && id !in vrp.senders ==>
      var s := old(vrp.senders)[id]; s.Filling? || s == Fetching(false) || s == Leaving(None, true)
    ensures forall id :: id in vrp.senders && vrp.senders[id].Leaving? && vrp.senders[id].gaveUp ==>
      id in old(vrp.senders)
      && (old(vrp.senders)[id] == vrp.senders[id]
          || (old(vrp.senders)[id].Listed? && old(vrp.senders)[id].last.TimedOut? && old(vrp.NextBuf()) == None))
  {
    match r
    case Arriving(id, wait) => vrp.Arrive(id, wait);
    case Fetch(id) => vrp.FirstFetch(id);
    case Upref(id) => vrp.UprefSleepers(id);
    case LookAgain(id, last) => vrp.Look(id, last);
    case Resuming(id, last) => vrp.Resume(id, last);
    case Downref(id) => vrp.DownrefSleepers(id);
    case Add(id, fails) => vrp.AddOutbuf(id, fails);
    case Returning(b) => vrp.RemoteReturns(b);
    case Interrupt => vrp.XmitDone();
  }

  /**
   After any interleaving of senders, the remote side and the interrupt: the interrupt is enabled exactly
   while senders are counted; nobody sleeps unwoken beside a returned buffer unless the interrupt is on its
   way; every buffer is in exactly one place; and what is in flight fits the ring.
   */
  method AnyRun(ring: nat, requests: seq<Request>) returns (vrp: VirtProc)
    ensures fresh(vrp) && vrp.half == NumBufs(ring) / 2
    ensures Partition(vrp.half, vrp.lastSbuf, vrp.used, vrp.inFlight, vrp.lost, vrp.senders)
    ensures vrp.sleepers == |CountedIds(vrp.senders)| && (vrp.enabled <==> vrp.sleepers > 0)
    ensures forall id :: id in vrp.senders && vrp.senders[id] == Asleep(false) ==> vrp.used == [] || vrp.pending
    ensures |vrp.inFlight| <= ring
  {
    vrp := new VirtProc(NumBufs(ring) / 2);
    for n := 0 to |requests|
      invariant vrp.Valid() && fresh(vrp)
    {
      if Possible(vrp, requests[n]) { Serve(vrp, requests[n]); }
    }
    vrp.InFlightBound();
  }
}
