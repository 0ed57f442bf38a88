/**
 The queues of one clock base and the reference definition of "the next event": sequences ordered by
 expiry stand for the timer trees, and the next event is what a search over every queued timer finds.
 */
module HrtimerQueues {
  import opened Options

  const KTIME_MAX: int := 0x7FFF_FFFF_FFFF_FFFF

  /** Clock bases 0 to 3 expire in the timer interrupt, 4 to 7 in the softirq. */
  const SOFT_BASES: nat := 4
  const MAX_BASES: nat := 8

  /** A queued timer: its clock, its hard and soft expiry, and whether the softirq runs it. The expiry of a
      queued timer does not change. */
  datatype Timer = Timer(id: nat, index: nat, expires: int, softExpires: int, soft: bool)

  type Queue = seq<Timer>

  function Max0(x: int): int { if x < 0 then 0 else x }

  ghost predicate Sorted(q: Queue) {
    forall j, k :: 0 <= j < k < |q| ==> q[j].expires <= q[k].expires
  }

  ghost predicate Distinct(q: Queue) {
    forall j, k :: 0 <= j < k < |q| ==> q[j].id != q[k].id
  }

  /** Where a new timer goes: behind every timer that does not expire later. */
  function Position(q: Queue, t: Timer): (p: nat)
    requires Sorted(q)
    ensures p <= |q|
    ensures forall k :: 0 <= k < p ==> q[k].expires <= t.expires
    ensures forall k :: p <= k < |q| ==> t.expires < q[k].expires
  {
    if q == [] || t.expires < q[0].expires then 0 else 1 + Position(q[1..], t)
  }

  /** `timerqueue_add`. */
  function Insert(q: Queue, t: Timer): (r: Queue)
    requires Sorted(q)
    ensures Sorted(r) && |r| == |q| + 1
  {
    var p := Position(q, t);
    q[..p] + [t] + q[p..]
  }

  lemma InsertAdds(q: Queue, t: Timer)
    requires Sorted(q)
    ensures multiset(Insert(q, t)) == multiset(q) + multiset{t}
    ensures forall u :: u in Insert(q, t) <==> u == t || u in q
  {
    var p := Position(q, t);
    assert q == q[..p] + q[p..];
    assert forall u :: u in q <==> u in q[..p] || u in q[p..];
  }

  /** The new timer goes behind every timer that does not expire later and before all others, which stay in order. */
  lemma InsertPlaces(q: Queue, t: Timer) returns (p: nat)
    requires Sorted(q)
    ensures p <= |q| && Insert(q, t) == q[..p] + [t] + q[p..]
    ensures (forall u :: u in q[..p] ==> u.expires <= t.expires) && forall u :: u in q[p..] ==> t.expires < u.expires
  {
    p := Position(q, t);
  }

  /** `timerqueue_del`. */
  function Remove(q: Queue, t: Timer): Queue {
    if q == [] then [] else if q[0] == t then q[1..] else [q[0]] + Remove(q[1..], t)
  }

  lemma RemoveTakes(q: Queue, t: Timer)
    ensures t in q ==> multiset(q) == multiset(Remove(q, t)) + multiset{t}
    ensures t !in q ==> Remove(q, t) == q
    ensures forall u :: u in Remove(q, t) ==> u in q
  {
    if q != [] {
      assert q == [q[0]] + q[1..];
      RemoveTakes(q[1..], t);
    }
  }

  lemma RemoveSorted(q: Queue, t: Timer)
    requires Sorted(q)
    ensures Sorted(Remove(q, t))
  {
    if q != [] && q[0] != t {
      RemoveSorted(q[1..], t);
      RemoveTakes(q[1..], t);
      var r := Remove(q[1..], t);
      forall k | 0 <= k < |r| ensures q[0].expires <= r[k].expires { assert r[k] in q[1..]; }
    }
  }

  lemma InsertDistinct(q: Queue, t: Timer)
    requires Sorted(q) && Distinct(q) && forall u :: u in q ==> u.id != t.id
    ensures Distinct(Insert(q, t))
  {
  }

  lemma RemoveDistinct(q: Queue, t: Timer)
    requires Distinct(q)
    ensures Distinct(Remove(q, t)) && t !in Remove(q, t)
  {
    if q != [] && q[0] != t {
      RemoveDistinct(q[1..], t);
      RemoveTakes(q[1..], t);
      var r := Remove(q[1..], t);
      forall k | 0 <= k < |r| ensures q[0].id != r[k].id { assert r[k] in q[1..]; }
    }
  }

  // ----- The next event, by looking at every timer

  /** The timer at position `k` of base `i` is one of those searched. */
  ghost predicate Searched(qs: seq<Queue>, lo: nat, hi: nat, exclude: Option<nat>, i: nat, k: nat) {
    lo <= i < hi <= |qs| && k < |qs[i]| && Some(qs[i][k].id) != exclude
  }

  /** When that timer expires on the monotonic clock, as the event device is told. */
  function EventTime(qs: seq<Queue>, offset: seq<int>, i: nat, k: nat): int
    requires i < |qs| && i < |offset| && k < |qs[i]|
  {
    Max0(qs[i][k].expires - offset[i])
  }

  /** `r` is the earliest event among those of bases `lo..hi` and the event `best` known already. */
  ghost predicate IsEarliest(qs: seq<Queue>, offset: seq<int>, lo: nat, hi: nat, exclude: Option<nat>,
                             best: int, r: int)
    requires |qs| == |offset|
  {
    && r <= Max0(best)
    && (forall i: nat, k: nat :: Searched(qs, lo, hi, exclude, i, k) ==> r <= EventTime(qs, offset, i, k))
    && (r == Max0(best)
        || exists i: nat, k: nat :: Searched(qs, lo, hi, exclude, i, k) && r == EventTime(qs, offset, i, k))
  }

  /** `t` is queued on one of the bases and its event is at `r`. */
  ghost predicate Attains(qs: seq<Queue>, offset: seq<int>, lo: nat, hi: nat, t: Timer, r: int)
    requires |qs| == |offset|
  {
    exists i: nat, k: nat :: Searched(qs, lo, hi, None, i, k) && qs[i][k] == t && r == EventTime(qs, offset, i, k)
  }

  lemma EarliestIsUnique(qs: seq<Queue>, offset: seq<int>, lo: nat, hi: nat, exclude: Option<nat>,
                         best: int, r: int, s: int)
    requires |qs| == |offset|
    requires IsEarliest(qs, offset, lo, hi, exclude, best, r) && IsEarliest(qs, offset, lo, hi, exclude, best, s)
    ensures r == s
  {
  }

  /** Searching the soft bases first and the hard bases from there on is searching all of them. */
  lemma EarliestOfBoth(qs: seq<Queue>, offset: seq<int>, mid: nat, hi: nat, exclude: Option<nat>,
                       best: int, s: int, r: int)
    requires |qs| == |offset| && mid <= hi <= |qs|
    requires IsEarliest(qs, offset, mid, hi, exclude, best, s)
    requires IsEarliest(qs, offset, 0, mid, exclude, s, r)
    ensures IsEarliest(qs, offset, 0, hi, exclude, best, r)
  {
    forall i: nat, k: nat | Searched(qs, 0, hi, exclude, i, k) ensures r <= EventTime(qs, offset, i, k) {
      if i < mid {
        assert Searched(qs, 0, mid, exclude, i, k);
      } else {
        assert Searched(qs, mid, hi, exclude, i, k);
      }
    }
    if r != Max0(best) {
      if r == Max0(s) {
        var i: nat, k: nat :| Searched(qs, mid, hi, exclude, i, k) && s == EventTime(qs, offset, i, k);
        assert Searched(qs, 0, hi, exclude, i, k);
      } else {
        var i: nat, k: nat :| Searched(qs, 0, mid, exclude, i, k) && r == EventTime(qs, offset, i, k);
        assert Searched(qs, 0, hi, exclude, i, k);
      }
    }
  }

  // ----- Why the leftmost timer is enough

  function RawTime(qs: seq<Queue>, offset: seq<int>, i: nat, k: nat): int
    requires i < |qs| && i < |offset| && k < |qs[i]|
  {
    qs[i][k].expires - offset[i]
  }

  /** `IsEarliest` before the final clamp to zero. */
  ghost predicate IsLeast(qs: seq<Queue>, offset: seq<int>, lo: nat, hi: nat, exclude: Option<nat>,
                          best: int, r: int)
    requires |qs| == |offset|
  {
    && r <= best
    && (forall i: nat, k: nat :: Searched(qs, lo, hi, exclude, i, k) ==> r <= RawTime(qs, offset, i, k))
    && (r == best
        || exists i: nat, k: nat :: Searched(qs, lo, hi, exclude, i, k) && r == RawTime(qs, offset, i, k))
  }

  /** `t` is queued and expires at `r`, before the clamp. */
  ghost predicate AttainsRaw(qs: seq<Queue>, offset: seq<int>, lo: nat, hi: nat, t: Timer, r: int)
    requires |qs| == |offset|
  {
    exists i: nat, k: nat :: Searched(qs, lo, hi, None, i, k) && qs[i][k] == t && r == RawTime(qs, offset, i, k)
  }

  /** The leftmost timer of base `i`, or the one behind it when the leftmost is excluded. */
  function FirstOf(q: Queue, exclude: Option<nat>): Option<Timer> {
    if q == [] then None
    else if Some(q[0].id) != exclude then Some(q[0])
    else if |q| == 1 then None
    else Some(q[1])
  }

  lemma LeastOfNone(qs: seq<Queue>, offset: seq<int>, lo: nat, exclude: Option<nat>, best: int)
    requires |qs| == |offset|
    ensures IsLeast(qs, offset, lo, lo, exclude, best, best)
  {
  }

  lemma LeftmostAttains(qs: seq<Queue>, offset: seq<int>, lo: nat, i: nat)
    requires |qs| == |offset| && lo <= i < |qs| && qs[i] != []
    ensures AttainsRaw(qs, offset, lo, i + 1, qs[i][0], qs[i][0].expires - offset[i])
  {
    assert Searched(qs, lo, i + 1, None, i, 0);
  }

  /** The first timer of a sorted queue stands for all of them: one step of the search over the bases. */
  lemma LeastGrows(qs: seq<Queue>, offset: seq<int>, lo: nat, i: nat, exclude: Option<nat>, best: int, r: int)
    requires |qs| == |offset| && lo <= i < |qs| && Sorted(qs[i]) && Distinct(qs[i])
    requires IsLeast(qs, offset, lo, i, exclude, best, r)
    ensures var f := FirstOf(qs[i], exclude);
      IsLeast(qs, offset, lo, i + 1, exclude, best,
              if f.Some? && f.value.expires - offset[i] < r then f.value.expires - offset[i] else r)
  {
    var f := FirstOf(qs[i], exclude);
    var s := if f.Some? && f.value.expires - offset[i] < r then f.value.expires - offset[i] else r;
    forall j: nat, k: nat | Searched(qs, lo, i + 1, exclude, j, k) ensures s <= RawTime(qs, offset, j, k) {
      if j < i { assert Searched(qs, lo, i, exclude, j, k); }
    }
    if s == r {
      if r != best {
        var j: nat, k: nat :| Searched(qs, lo, i, exclude, j, k) && r == RawTime(qs, offset, j, k);
        assert Searched(qs, lo, i + 1, exclude, j, k);
      }
    } else {
      var k := if Some(qs[i][0].id) != exclude then 0 else 1;
      assert Searched(qs, lo, i + 1, exclude, i, k) && s == RawTime(qs, offset, i, k);
    }
  }

  lemma LeastClamped(qs: seq<Queue>, offset: seq<int>, lo: nat, hi: nat, exclude: Option<nat>, best: int, r: int)
    requires |qs| == |offset| && IsLeast(qs, offset, lo, hi, exclude, best, r)
    ensures IsEarliest(qs, offset, lo, hi, exclude, best, Max0(r))
  {
    forall i: nat, k: nat | Searched(qs, lo, hi, exclude, i, k) ensures Max0(r) <= EventTime(qs, offset, i, k) {
      assert r <= RawTime(qs, offset, i, k);
    }
    if r != best {
      var i: nat, k: nat :| Searched(qs, lo, hi, exclude, i, k) && r == RawTime(qs, offset, i, k);
      assert Max0(r) == EventTime(qs, offset, i, k);
    }
  }

  lemma AttainsGrows(qs: seq<Queue>, offset: seq<int>, lo: nat, hi: nat, t: Timer, r: int)
    requires |qs| == |offset| && AttainsRaw(qs, offset, lo, hi, t, r)
    ensures hi < |qs| ==> AttainsRaw(qs, offset, lo, hi + 1, t, r)
    ensures Attains(qs, offset, lo, hi, t, Max0(r))
  {
    var i: nat, k: nat :| Searched(qs, lo, hi, None, i, k) && qs[i][k] == t && r == RawTime(qs, offset, i, k);
    assert hi < |qs| ==> Searched(qs, lo, hi + 1, None, i, k);
    assert Max0(r) == EventTime(qs, offset, i, k);
  }

  // ----- A bound on every timer of some bases

  /** No timer on one of these bases has its event before `r`. */
  ghost predicate Bounded(qs: seq<Queue>, offset: seq<int>, lo: nat, hi: nat, r: int)
    requires |qs| == |offset| >= hi
  {
    forall i, t :: lo <= i < hi && t in qs[i] ==> r <= Max0(t.expires - offset[i])
  }

  /** After an insertion it is enough to look at the new timer, and only when it is the leftmost. */
  lemma BoundedAfterInsert(qs: seq<Queue>, offset: seq<int>, lo: nat, hi: nat, i: nat, t: Timer, r: int, s: int)
    requires |qs| == |offset| >= hi && i < |qs| && Sorted(qs[i])
    requires Bounded(qs, offset, lo, hi, r) && s <= r
    ensures Bounded(qs[i := Insert(qs[i], t)], offset, lo, hi, s)
       <==> (lo <= i < hi && Insert(qs[i], t)[0] == t ==> s <= Max0(t.expires - offset[i]))
  {
    InsertAdds(qs[i], t);
    if lo <= i < hi && Insert(qs[i], t)[0] != t {
      assert Position(qs[i], t) > 0;
      assert qs[i][0] in qs[i] && qs[i][0].expires <= t.expires;
    }
  }

  lemma EarliestBounds(qs: seq<Queue>, offset: seq<int>, lo: nat, hi: nat, best: int, r: int)
    requires |qs| == |offset| >= hi && IsEarliest(qs, offset, lo, hi, None, best, r)
    ensures Bounded(qs, offset, lo, hi, r) && 0 <= r <= Max0(best)
  {
    forall i, t | lo <= i < hi && t in qs[i] ensures r <= Max0(t.expires - offset[i]) {
      var k :| 0 <= k < |qs[i]| && qs[i][k] == t;
      assert Searched(qs, lo, hi, None, i, k);
    }
  }
}
