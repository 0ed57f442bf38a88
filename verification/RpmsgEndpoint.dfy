/**
 The life of an rpmsg endpoint: creation, inbound messages that look it up, and one destroy. Every method of
 `Endpoints` is one stretch of the C code that others cannot interleave with: a section under
 `endpoints_lock`, or a single step on `cb_lock`, the callback pointer or the reference count. Any order of
 calls, by any number of receivers and destroyers, is an interleaving.
 */
module RpmsgEndpoint {
  import opened Options

  datatype Holder = Nobody | Receiver(id: nat) | Destroyer

  /** The memory of one `struct rpmsg_endpoint`; `frees` counts how often it was given back. */
  datatype Ept = Ept(addr: nat, refs: int, hasCb: bool, lock: Holder, frees: nat)

  /** Where a receiver of a message for the endpoint is, once it has looked the endpoint up. */
  datatype Step = Found | Locked | Calling | Unlocked

  datatype Visit = Visit(ept: nat, step: Step)
  {
    predicate InLock() { step.Locked? || step.Calling? }
  }

  /** How far `__rpmsg_destroy_ept` has come. `Unbound` is an endpoint that creation gave up on. */
  datatype Destroy = Removed | Clearing | Cleared | Returned | Unbound

  const RESERVED_ADDRESSES: nat := 1024

  predicate VisitedBy(visits: map<nat, Visit>, r: nat, e: nat) { r in visits && visits[r].ept == e }

  predicate LockedBy(visits: map<nat, Visit>, r: nat, e: nat) { VisitedBy(visits, r, e) && visits[r].InLock() }

  ghost function Visitors(visits: map<nat, Visit>, e: nat): set<nat> { set r | r in visits && VisitedBy(visits, r, e) }

  /** The reference that creation gives out is still held. */
  predicate OwnerHolds(destroys: map<nat, Destroy>, e: nat) {
    e in destroys ==> !destroys[e].Returned? && !destroys[e].Unbound?
  }

  ghost predicate EptOk(e: nat, ept: Ept, visits: map<nat, Visit>, destroys: map<nat, Destroy>) {
    && ept.refs == |Visitors(visits, e)| + (if OwnerHolds(destroys, e) then 1 else 0)
    && ept.frees == (if ept.refs == 0 then 1 else 0)
    && (ept.hasCb <==> e !in destroys || destroys[e].Removed? || destroys[e].Clearing? || destroys[e].Unbound?)
    && (ept.lock == Destroyer <==> e in destroys && destroys[e].Clearing?)
    && (forall r: nat :: ept.lock == Receiver(r) <==> LockedBy(visits, r, e))
    && (forall r: nat :: VisitedBy(visits, r, e) && visits[r].step.Calling? ==> ept.hasCb)
    && (e in destroys && destroys[e].Unbound? ==> forall r: nat :: !VisitedBy(visits, r, e))
  }

  ghost predicate AllOk(epts: map<nat, Ept>, visits: map<nat, Visit>, destroys: map<nat, Destroy>) {
    forall e: nat :: e in epts ==> EptOk(e, epts[e], visits, destroys)
  }

  /** The table leads to exactly the endpoints that are bound and not yet being destroyed. */
  ghost predicate Linked(table: map<nat, nat>, epts: map<nat, Ept>, destroys: map<nat, Destroy>) {
    && (forall a :: a in table ==> table[a] in epts && epts[table[a]].addr == a && table[a] !in destroys)
    && (forall e :: e in epts && e !in destroys ==> epts[e].addr in table && table[epts[e].addr] == e)
  }

  ghost predicate Known(epts: map<nat, Ept>, visits: map<nat, Visit>, destroys: map<nat, Destroy>) {
    && (forall r: nat :: r in visits ==> visits[r].ept in epts)
    && (forall e :: e in destroys ==> e in epts)
  }

  ghost predicate Ok(table: map<nat, nat>, epts: map<nat, Ept>, visits: map<nat, Visit>,
                     destroys: map<nat, Destroy>) {
    AllOk(epts, visits, destroys) && Linked(table, epts, destroys) && Known(epts, visits, destroys)
  }

  class Endpoints {
    var table: map<nat, nat>
    var epts: map<nat, Ept>
    var visits: map<nat, Visit>
    var destroys: map<nat, Destroy>

    ghost predicate Valid() reads this { Ok(table, epts, visits, destroys) }

    constructor ()
      ensures Valid() && table == map[] && epts == map[] && visits == map[] && destroys == map[]
    {
      table, epts, visits, destroys := map[], map[], map[], map[];
    }

    /** The lowest address from `min` on that no endpoint has, as `idr_alloc` picks it. */
    method LowestFree(min: nat) returns (id: nat)
      ensures min <= id && id !in table && forall a: nat :: min <= a < id ==> a in table
    {
      id := min;
      ghost var left := table.Keys;
      while id in table
        invariant min <= id && forall a: nat :: min <= a < id ==> a in table
        invariant left == set a | a in table && !(min <= a < id)
        decreases |left|
      {
        ghost var rest := left - {id};
        assert id in left;
        assert |rest| < |left|;
        left := rest;
        id := id + 1;
      }
    }

    /** `__rpmsg_create_ept` on the fresh memory `e`: bound to `addr`, or for no address given to the lowest
        free one that is not reserved. */
    method CreateEpt(e: nat, addr: Option<nat>) returns (bound: Option<nat>)
      requires Valid() && e !in epts
      modifies this`table, this`epts, this`destroys
      ensures Valid()
      ensures bound.None? <==> addr.Some? && addr.value in old(table)
      ensures bound.None? ==> table == old(table) && destroys == old(destroys)[e := Unbound]
      ensures bound.None? ==> epts == old(epts)[e := Ept(addr.value, 0, true, Nobody, 1)]
      ensures bound.Some? ==> destroys == old(destroys) && bound.value !in old(table)
      ensures bound.Some? ==> table == old(table)[bound.value := e]
      ensures bound.Some? ==> epts == old(epts)[e := Ept(bound.value, 1, true, Nobody, 0)]
      ensures bound.Some? && addr.Some? ==> bound == addr
      ensures addr.None? ==> RESERVED_ADDRESSES <= bound.value
      ensures addr.None? ==> forall a: nat :: RESERVED_ADDRESSES <= a < bound.value ==> a in old(table)
    {
      if addr.Some? && addr.value in table {
        UnboundKeepsAll(table, epts, visits, destroys, e, addr.value);
        epts := epts[e := Ept(addr.value, 0, true, Nobody, 1)];
        destroys := destroys[e := Unbound];
        bound := None;
      } else {
        var id := if addr.Some? then addr.value else 0;
        if addr.None? { id := LowestFree(RESERVED_ADDRESSES); }
        NewKeepsAll(table, epts, visits, destroys, e, id);
        epts := epts[e := Ept(id, 1, true, Nobody, 0)];
        table := table[id := e];
        bound := Some(id);
      }
    }

    /** `rpmsg_recv_single` under `endpoints_lock`: find the endpoint and take a reference. */
    method Lookup(r: nat, addr: nat) returns (found: bool)
      requires Valid() && r !in visits
      modifies this`epts, this`visits
      ensures Valid() && found == (addr in table)
      ensures found ==> visits == old(visits)[r := Visit(table[addr], Found)]
      ensures found ==> epts == old(epts)[table[addr] := TakeRef(old(epts[table[addr]]))]
      ensures !found ==> epts == old(epts) && visits == old(visits)
    {
      found := addr in table;
      if found {
        var e := table[addr];
        LookupKeepsAll(table, epts, visits, destroys, r, e);
        epts := epts[e := TakeRef(epts[e])];
        visits := visits[r := Visit(e, Found)];
      }
    }

    /** A receiver takes `cb_lock`. */
    method ReceiverLocks(r: nat)
      requires Valid() && r in visits && visits[r].step.Found? && epts[visits[r].ept].lock.Nobody?
      modifies this`epts, this`visits
      ensures Valid()
      ensures visits == old(visits)[r := Visit(old(visits[r].ept), Locked)]
      ensures var e := old(visits[r].ept); epts == old(epts)[e := old(epts[e]).(lock := Receiver(r))]
    {
      hide EptOk;
      var e := visits[r].ept;
      MoveKeepsAll(table, epts, visits, destroys, r, e, Locked);
      epts := epts[e := epts[e].(lock := Receiver(r))];
      visits := visits[r := Visit(e, Locked)];
    }

    /** A receiver that holds `cb_lock` calls the callback if there is one. */
    method Invoke(r: nat)
      requires Valid() && r in visits && visits[r].step.Locked?
      modifies this`epts, this`visits
      ensures Valid()
      ensures var e := old(visits[r].ept);
        if old(epts[e].hasCb)
        then epts == old(epts) && visits == old(visits)[r := Visit(e, Calling)]
        else epts == old(epts)[e := old(epts[e]).(lock := Nobody)] && visits == old(visits)[r := Visit(e, Unlocked)]
    {
      hide EptOk;
      var e := visits[r].ept;
      if epts[e].hasCb {
        MoveKeepsAll(table, epts, visits, destroys, r, e, Calling);
        HoldsLock(table, epts, visits, destroys, r);
        visits := visits[r := Visit(e, Calling)];
      } else {
        MoveKeepsAll(table, epts, visits, destroys, r, e, Unlocked);
        epts := epts[e := epts[e].(lock := Nobody)];
        visits := visits[r := Visit(e, Unlocked)];
      }
    }

    /** The callback returns and the receiver gives `cb_lock` up. */
    method CallbackReturns(r: nat)
      requires Valid() && r in visits && visits[r].step.Calling?
      modifies this`epts, this`visits
      ensures Valid()
      ensures var e := old(visits[r].ept);
        epts == old(epts)[e := old(epts[e]).(lock := Nobody)] && visits == old(visits)[r := Visit(e, Unlocked)]
    {
      hide EptOk;
      var e := visits[r].ept;
      MoveKeepsAll(table, epts, visits, destroys, r, e, Unlocked);
      epts := epts[e := epts[e].(lock := Nobody)];
      visits := visits[r := Visit(e, Unlocked)];
    }

    /** A receiver drops its reference; whoever drops the last one frees the endpoint. */
    method ReceiverPuts(r: nat)
      requires Valid() && r in visits && visits[r].step.Unlocked?
      modifies this`epts, this`visits
      ensures Valid() && visits == old(visits) - {r}
      ensures var e := old(visits[r].ept); epts == old(epts)[e := Put(old(epts[e]))]
    {
      hide EptOk;
      var e := visits[r].ept;
      PutKeepsAll(table, epts, visits, destroys, r, e);
      epts := epts[e := Put(epts[e])];
      visits := visits - {r};
    }

    /** `__rpmsg_destroy_ept` begins: later messages do not find the endpoint. */
    method DestroyEpt(e: nat)
      requires Valid() && e in epts && e !in destroys
      modifies this`table, this`destroys
      ensures Valid() && table == old(table) - {epts[e].addr} && destroys == old(destroys)[e := Removed]
    {
      DestroyKeepsAll(table, epts, visits, destroys, e, epts[e], Removed);
      assert epts[e := epts[e]] == epts;
      table := table - {epts[e].addr};
      destroys := destroys[e := Removed];
    }

    /** The destroyer takes `cb_lock`. */
    method DestroyerLocks(e: nat)
      requires Valid() && e in destroys && destroys[e].Removed? && epts[e].lock.Nobody?
      modifies this`epts, this`destroys
      ensures Valid() && destroys == old(destroys)[e := Clearing]
      ensures epts == old(epts)[e := old(epts[e]).(lock := Destroyer)]
    {
      DestroyKeepsAll(table, epts, visits, destroys, e, epts[e].(lock := Destroyer), Clearing);
      epts := epts[e := epts[e].(lock := Destroyer)];
      destroys := destroys[e := Clearing];
    }

    /** It clears the callback and gives `cb_lock` up. */
    method ClearCallback(e: nat)
      requires Valid() && e in destroys && destroys[e].Clearing?
      modifies this`epts, this`destroys
      ensures Valid() && destroys == old(destroys)[e := Cleared]
      ensures epts == old(epts)[e := old(epts[e]).(hasCb := false, lock := Nobody)]
    {
      forall r | VisitedBy(visits, r, e) ensures !visits[r].step.Calling? {
        assert !LockedBy(visits, r, e);
      }
      DestroyKeepsAll(table, epts, visits, destroys, e, epts[e].(hasCb := false, lock := Nobody), Cleared);
      epts := epts[e := epts[e].(hasCb := false, lock := Nobody)];
      destroys := destroys[e := Cleared];
    }

    /** It drops the reference from creation and returns. */
    method DestroyerPuts(e: nat)
      requires Valid() && e in destroys && destroys[e].Cleared?
      modifies this`epts, this`destroys
      ensures Valid() && destroys == old(destroys)[e := Returned]
      ensures epts == old(epts)[e := Put(old(epts[e]))]
    {
      DestroyKeepsAll(table, epts, visits, destroys, e, Put(epts[e]), Returned);
      epts := epts[e := Put(epts[e])];
      destroys := destroys[e := Returned];
    }

    /**
     The references are the creator's, until destroy drops it, and one for each message being delivered. The
     memory is given back exactly once, when nobody uses it; whoever still uses it finds it there.
     */
    lemma Lifetime(e: nat)
      requires Valid() && e in epts
      ensures epts[e].refs == |Visitors(visits, e)| + (if OwnerHolds(destroys, e) then 1 else 0)
      ensures epts[e].frees <= 1
      ensures epts[e].frees == 1 <==> !OwnerHolds(destroys, e) && forall r: nat :: !VisitedBy(visits, r, e)
      ensures forall a :: a in table && table[a] == e ==> epts[e].frees == 0
    {
      if forall r: nat :: !VisitedBy(visits, r, e) {
        assert Visitors(visits, e) == {};
      } else {
        var r: nat :| VisitedBy(visits, r, e);
        assert r in Visitors(visits, e);
      }
    }

    /** Once destroy has returned, indeed once it has cleared the callback, no receiver is in the callback
        and none will enter it; and never are two receivers in the callback of one endpoint. */
    lemma CallbackStopped(e: nat, r: nat, q: nat)
      requires Valid() && e in epts && VisitedBy(visits, r, e) && visits[r].step.Calling?
      ensures e !in destroys || destroys[e].Removed?
      ensures VisitedBy(visits, q, e) && visits[q].step.Calling? ==> q == r
      ensures epts[e].frees == 0
    {
      assert LockedBy(visits, r, e);
      assert VisitedBy(visits, q, e) && visits[q].step.Calling? ==> LockedBy(visits, q, e);
      assert r in Visitors(visits, e);
    }
  }

  /** The endpoint while receiver `r` is at `step`. */
  function Holding(ept: Ept, r: nat, step: Step): Ept {
    ept.(lock := if step.Locked? || step.Calling? then Receiver(r) else Nobody)
  }

  /** `kref_get`. */
  function TakeRef(ept: Ept): Ept { ept.(refs := ept.refs + 1) }

  /** `kref_put`. */
  function Put(ept: Ept): Ept {
    ept.(refs := ept.refs - 1, frees := if ept.refs == 1 then ept.frees + 1 else ept.frees)
  }

  // ----- Keeping the endpoints in order

  function Visits(visits: map<nat, Visit>, r: nat, v: Option<Visit>): map<nat, Visit> {
    match v case Some(w) => visits[r := w] case None => visits - {r}
  }

  /** What one receiver does to one endpoint leaves the others as they were. */
  lemma VisitKeepsOthers(visits: map<nat, Visit>, r: nat, v: Option<Visit>, e: nat, d: nat, ept: Ept,
                         destroys: map<nat, Destroy>)
    requires (r in visits ==> visits[r].ept == e) && (v.Some? ==> v.value.ept == e) && d != e
    requires EptOk(d, ept, visits, destroys)
    ensures EptOk(d, ept, Visits(visits, r, v), destroys)
  {
    var visits' := Visits(visits, r, v);
    assert Visitors(visits', d) == Visitors(visits, d);
    assert forall q: nat :: VisitedBy(visits', q, d) <==> VisitedBy(visits, q, d);
    assert forall q: nat :: LockedBy(visits', q, d) <==> LockedBy(visits, q, d);
  }

  lemma VisitKeepsAll(table: map<nat, nat>, epts: map<nat, Ept>, visits: map<nat, Visit>,
                      destroys: map<nat, Destroy>, e: nat, ept: Ept, r: nat, v: Option<Visit>)
    requires Ok(table, epts, visits, destroys) && e in epts && ept.addr == epts[e].addr
    requires (r in visits ==> visits[r].ept == e) && (v.Some? ==> v.value.ept == e)
    requires EptOk(e, ept, Visits(visits, r, v), destroys)
    ensures Ok(table, epts[e := ept], Visits(visits, r, v), destroys)
  {
    hide EptOk;
    var epts' := epts[e := ept];
    var visits' := Visits(visits, r, v);
    forall d: nat | d in epts' ensures EptOk(d, epts'[d], visits', destroys) {
      if d != e {
        VisitKeepsOthers(visits, r, v, e, d, epts[d], destroys);
      }
    }
  }

  lemma DestroyKeepsOthers(visits: map<nat, Visit>, destroys: map<nat, Destroy>, e: nat, step: Destroy, d: nat,
                           ept: Ept)
    requires EptOk(d, ept, visits, destroys) && d != e
    ensures EptOk(d, ept, visits, destroys[e := step])
  {
  }

  lemma DestroyKeepsAll(table: map<nat, nat>, epts: map<nat, Ept>, visits: map<nat, Visit>,
                        destroys: map<nat, Destroy>, e: nat, ept: Ept, step: Destroy)
    requires Ok(table, epts, visits, destroys) && e in epts && ept.addr == epts[e].addr && !step.Unbound?
    requires EptOk(e, ept, visits, destroys[e := step])
    ensures Ok(if e in destroys then table else table - {ept.addr}, epts[e := ept], visits, destroys[e := step])
  {
    hide EptOk;
    var epts' := epts[e := ept];
    var destroys' := destroys[e := step];
    forall d: nat | d in epts' ensures EptOk(d, epts'[d], visits, destroys') {
      if d != e {
        DestroyKeepsOthers(visits, destroys, e, step, d, epts[d]);
      }
    }
  }

  lemma NewIsOk(e: nat, a: nat, visits: map<nat, Visit>, destroys: map<nat, Destroy>)
    requires e !in destroys && forall r: nat :: !VisitedBy(visits, r, e)
    ensures EptOk(e, Ept(a, 1, true, Nobody, 0), visits, destroys)
  {
    assert Visitors(visits, e) == {};
  }

  lemma NewKeepsAll(table: map<nat, nat>, epts: map<nat, Ept>, visits: map<nat, Visit>,
                    destroys: map<nat, Destroy>, e: nat, a: nat)
    requires Ok(table, epts, visits, destroys) && e !in epts && a !in table
    ensures Ok(table[a := e], epts[e := Ept(a, 1, true, Nobody, 0)], visits, destroys)
  {
    hide EptOk;
    NewIsOk(e, a, visits, destroys);
    var epts' := epts[e := Ept(a, 1, true, Nobody, 0)];
    forall d: nat | d in epts' ensures EptOk(d, epts'[d], visits, destroys) {
      assert d != e ==> EptOk(d, epts[d], visits, destroys);
    }
  }

  lemma UnboundKeepsAll(table: map<nat, nat>, epts: map<nat, Ept>, visits: map<nat, Visit>,
                        destroys: map<nat, Destroy>, e: nat, a: nat)
    requires Ok(table, epts, visits, destroys) && e !in epts
    ensures Ok(table, epts[e := Ept(a, 0, true, Nobody, 1)], visits, destroys[e := Unbound])
  {
    assert Visitors(visits, e) == {};
    var epts' := epts[e := Ept(a, 0, true, Nobody, 1)];
    forall d: nat | d in epts' ensures EptOk(d, epts'[d], visits, destroys[e := Unbound]) {
      assert d != e ==> EptOk(d, epts[d], visits, destroys);
    }
  }

  lemma LookupKeeps(e: nat, ept: Ept, visits: map<nat, Visit>, destroys: map<nat, Destroy>, r: nat)
    requires EptOk(e, ept, visits, destroys) && r !in visits && e !in destroys
    ensures EptOk(e, TakeRef(ept), visits[r := Visit(e, Found)], destroys)
  {
    var visits' := visits[r := Visit(e, Found)];
    assert Visitors(visits', e) == Visitors(visits, e) + {r};
    assert forall q: nat :: LockedBy(visits', q, e) <==> LockedBy(visits, q, e);
  }

  lemma LookupKeepsAll(table: map<nat, nat>, epts: map<nat, Ept>, visits: map<nat, Visit>,
                       destroys: map<nat, Destroy>, r: nat, e: nat)
    requires Ok(table, epts, visits, destroys) && r !in visits && e in epts && e !in destroys
    ensures Ok(table, epts[e := TakeRef(epts[e])], visits[r := Visit(e, Found)], destroys)
  {
    hide EptOk;
    LookupKeeps(e, epts[e], visits, destroys, r);
    VisitKeepsAll(table, epts, visits, destroys, e, TakeRef(epts[e]), r, Some(Visit(e, Found)));
  }

  /** A receiver moves on, with `cb_lock` in its hands exactly while it is locked or calling. */
  lemma MoveKeeps(e: nat, ept: Ept, visits: map<nat, Visit>, destroys: map<nat, Destroy>, r: nat, step: Step)
    requires EptOk(e, ept, visits, destroys) && VisitedBy(visits, r, e)
    requires visits[r].step.Found? ==> ept.lock.Nobody?
    requires visits[r].InLock() || (visits[r].step.Found? && step.Locked?)
    requires step.Calling? ==> ept.hasCb
    ensures EptOk(e, Holding(ept, r, step), visits[r := Visit(e, step)], destroys)
  {
    var visits' := visits[r := Visit(e, step)];
    assert Visitors(visits', e) == Visitors(visits, e);
    assert visits[r].InLock() ==> LockedBy(visits, r, e);
    assert forall q: nat :: q != r ==> (LockedBy(visits', q, e) <==> LockedBy(visits, q, e));
    assert forall q: nat :: VisitedBy(visits', q, e) <==> VisitedBy(visits, q, e);
  }

  lemma MoveKeepsAll(table: map<nat, nat>, epts: map<nat, Ept>, visits: map<nat, Visit>,
                     destroys: map<nat, Destroy>, r: nat, e: nat, step: Step)
    requires Ok(table, epts, visits, destroys) && e in epts && r in visits && visits[r].ept == e
    requires visits[r].step.Found? ==> epts[e].lock.Nobody?
    requires visits[r].InLock() || (visits[r].step.Found? && step.Locked?)
    requires step.Calling? ==> epts[e].hasCb
    ensures Ok(table, epts[e := Holding(epts[e], r, step)], visits[r := Visit(e, step)], destroys)
  {
    assert EptOk(e, epts[e], visits, destroys);
    MoveKeeps(e, epts[e], visits, destroys, r, step);
    VisitKeepsAll(table, epts, visits, destroys, e, Holding(epts[e], r, step), r, Some(Visit(e, step)));
  }

  lemma HoldsLock(table: map<nat, nat>, epts: map<nat, Ept>, visits: map<nat, Visit>,
                  destroys: map<nat, Destroy>, r: nat)
    requires Ok(table, epts, visits, destroys) && r in visits && visits[r].InLock()
    ensures var e := visits[r].ept; e in epts && epts[e := Holding(epts[e], r, Calling)] == epts
  {
    var e := visits[r].ept;
    assert EptOk(e, epts[e], visits, destroys);
    assert LockedBy(visits, r, e);
  }

  lemma PutKeeps(e: nat, ept: Ept, visits: map<nat, Visit>, destroys: map<nat, Destroy>, r: nat)
    requires EptOk(e, ept, visits, destroys) && VisitedBy(visits, r, e) && visits[r].step.Unlocked?
    ensures EptOk(e, Put(ept), visits - {r}, destroys)
  {
    var visits' := visits - {r};
    assert Visitors(visits', e) == Visitors(visits, e) - {r};
    assert r in Visitors(visits, e);
    assert forall q: nat :: LockedBy(visits', q, e) <==> LockedBy(visits, q, e);
  }

  lemma PutKeepsAll(table: map<nat, nat>, epts: map<nat, Ept>, visits: map<nat, Visit>,
                    destroys: map<nat, Destroy>, r: nat, e: nat)
    requires Ok(table, epts, visits, destroys) && e in epts && r in visits && visits[r].ept == e
    requires visits[r].step.Unlocked?
    ensures Ok(table, epts[e := Put(epts[e])], visits - {r}, destroys)
  {
    hide EptOk;
    PutKeeps(e, epts[e], visits, destroys, r);
    VisitKeepsAll(table, epts, visits, destroys, e, Put(epts[e]), r, None);
  }

  // ----- Runs

  datatype Request =
    | Create(ept: nat, addr: Option<nat>)
    | Message(receiver: nat, dst: nat)
    | Lock(receiver: nat)
    | Call(receiver: nat)
    | Return(receiver: nat)
    | Drop(receiver: nat)
    | StartDestroy(ept: nat)
    | LockForDestroy(ept: nat)
    | Clear(ept: nat)
    | FinishDestroy(ept: nat)

  predicate Possible(s: Endpoints, q: Request) reads s {
    match q
    case Create(e, _) => e !in s.epts
    case Message(r, _) => r !in s.visits
    case Lock(r) => r in s.visits && s.visits[r].step.Found?
      && s.visits[r].ept in s.epts && s.epts[s.visits[r].ept].lock.Nobody?
    case Call(r) => r in s.visits && s.visits[r].step.Locked?
    case Return(r) => r in s.visits && s.visits[r].step.Calling?
    case Drop(r) => r in s.visits && s.visits[r].step.Unlocked?
    case StartDestroy(e) => e in s.epts && e !in s.destroys
    case LockForDestroy(e) => e in s.destroys && s.destroys[e].Removed? && e in s.epts && s.epts[e].lock.Nobody?
    case Clear(e) => e in s.destroys && s.destroys[e].Clearing?
    case FinishDestroy(e) => e in s.destroys && s.destroys[e].Cleared?
  }

  predicate Over(destroys: map<nat, Destroy>, e: nat) { e in destroys && destroys[e].Returned? }

  method Serve(s: Endpoints, q: Request)
    requires s.Valid() && Possible(s, q)
    modifies s
    ensures s.Valid()
    ensures forall e: nat :: Over(old(s.destroys), e) ==> Over(s.destroys, e)
  {
    hide EptOk;
    match q
    case Create(e, addr) => var _ := s.CreateEpt(e, addr);
    case Message(r, dst) => var _ := s.Lookup(r, dst);
    case Lock(r) => s.ReceiverLocks(r);
    case Call(r) => s.Invoke(r);
    case Return(r) => s.CallbackReturns(r);
    case Drop(r) => s.ReceiverPuts(r);
    case StartDestroy(e) => s.DestroyEpt(e);
    case LockForDestroy(e) => s.DestroyerLocks(e);
    case Clear(e) => s.ClearCallback(e);
    case FinishDestroy(e) => s.DestroyerPuts(e);
  }

  /**
   After any interleaving of creations, inbound messages and one destroy per endpoint: the reference counts
   are exact, an endpoint has been freed once if its owner and all receivers are done with it and not at all
   otherwise, and no callback runs whose destroy has returned. Since a prefix of a run is a run, nothing of
   this is ever violated on the way.
   */
  method AnyRun(requests: seq<Request>) returns (s: Endpoints)
    ensures fresh(s)
    ensures forall e :: e in s.epts ==>
      s.epts[e].refs == |Visitors(s.visits, e)| + (if OwnerHolds(s.destroys, e) then 1 else 0)
    ensures forall e :: e in s.epts ==>
      s.epts[e].frees == if !OwnerHolds(s.destroys, e) && Visitors(s.visits, e) == {} then 1 else 0
    ensures forall r :: r in s.visits && s.visits[r].step.Calling? ==>
      s.visits[r].ept !in s.destroys || s.destroys[s.visits[r].ept].Removed?
  {
    s := new Endpoints();
    for n := 0 to |requests|
      invariant s.Valid() && fresh(s)
    {
      if Possible(s, requests[n]) { Serve(s, requests[n]); }
    }
    forall r | r in s.visits && s.visits[r].step.Calling?
      ensures s.visits[r].ept !in s.destroys || s.destroys[s.visits[r].ept].Removed?
    {
      s.CallbackStopped(s.visits[r].ept, r, r);
    }
  }

  /** Once destroy has returned, whatever happens next, the callback is not running and is not started. */
  method RunAfterDestroy(s: Endpoints, e: nat, requests: seq<Request>)
    requires s.Valid() && Over(s.destroys, e)
    modifies s
    ensures s.Valid() && Over(s.destroys, e)
    ensures forall r: nat :: VisitedBy(s.visits, r, e) ==> !s.visits[r].step.Calling?
  {
    for n := 0 to |requests|
      invariant s.Valid() && Over(s.destroys, e)
    {
      if Possible(s, requests[n]) { Serve(s, requests[n]); }
    }
    forall r: nat | VisitedBy(s.visits, r, e) ensures !s.visits[r].step.Calling? {
      if s.visits[r].step.Calling? { s.CallbackStopped(e, r, r); }
    }
  }
}
