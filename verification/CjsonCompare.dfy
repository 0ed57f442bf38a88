/**
 `get_object_item` and `cJSON_Compare`, and what the comparison decides: whether two trees have the same
 canonical form, in which an object is a map.
 */
module CjsonCompare {
  import opened Options
  import opened CjsonTree

  // ----- Keys

  function ToLower(c: char): char { if 'A' <= c <= 'Z' then c - 'A' + 'a' else c }

  function Lower(s: string): (r: string)
    ensures |r| == |s| && forall k :: 0 <= k < |s| ==> r[k] == ToLower(s[k])
  {
    if s == [] then [] else [ToLower(s[0])] + Lower(s[1..])
  }

  lemma LowerIsNul()
    ensures forall c :: ToLower(c) == '\0' <==> c == '\0'
  {
  }

  const UPPER := "ABCDEFGHIJKLMNOPQRSTUVWXYZ"
  const LOWER := "abcdefghijklmnopqrstuvwxyz"

  /** The same character, or the capital and the small form of one letter. */
  predicate SameLetter(a: char, b: char) {
    a == b || exists i :: 0 <= i < 26 && ((a == UPPER[i] && b == LOWER[i]) || (a == LOWER[i] && b == UPPER[i]))
  }

  /** Texts that differ in nothing but the case of letters. */
  predicate SameButCase(s: string, t: string) {
    |s| == |t| && forall k :: 0 <= k < |s| ==> SameLetter(s[k], t[k])
  }

  lemma Alphabet(i: int)
    requires 0 <= i < 26
    ensures UPPER[i] == 'A' + i as char && LOWER[i] == 'a' + i as char
  {
    if i < 7 {
    } else if i < 14 {
    } else if i < 20 {
    } else {
    }
  }

  lemma LowerAgrees(a: char, b: char)
    ensures ToLower(a) == ToLower(b) <==> SameLetter(a, b)
  {
    assert |UPPER| == |LOWER| == 26;
    hide UPPER, LOWER;
    forall i | 0 <= i < 26 ensures UPPER[i] == 'A' + i as char && LOWER[i] == 'a' + i as char { Alphabet(i); }
    if ToLower(a) == ToLower(b) && a != b {
      var i := if 'A' <= a <= 'Z' then a as int - 'A' as int else b as int - 'A' as int;
      assert UPPER[i] == 'A' + i as char && LOWER[i] == 'a' + i as char;
    }
  }

  /** Folding the case makes exactly those texts equal that differ in nothing else. */
  lemma LowerEqual(s: string, t: string)
    ensures Lower(s) == Lower(t) <==> SameButCase(s, t)
  {
    hide ToLower, SameLetter;
    forall k | 0 <= k < |s| && k < |t| ensures Lower(s)[k] == Lower(t)[k] <==> SameLetter(s[k], t[k]) {
      LowerAgrees(s[k], t[k]);
    }
  }

  /** The key as the chosen case rule sees it. */
  function Fold(key: string, caseSensitive: bool): string { if caseSensitive then key else Lower(key) }

  /** `case_insensitive_strcmp` on two texts and the NULs behind them. */
  method CaseInsensitiveStrcmp(s: string, t: string) returns (difference: int)
    requires '\0' !in s && '\0' !in t
    ensures difference == 0 <==> SameButCase(s, t)
  {
    hide ToLower, Lower, SameButCase;
    LowerEqual(s, t);
    LowerIsNul();
    var a, b, k := s + ['\0'], t + ['\0'], 0;
    while ToLower(a[k]) == ToLower(b[k])
      invariant k <= |s| && k <= |t|
      invariant forall i :: 0 <= i < k ==> Lower(s)[i] == Lower(t)[i]
      decreases |a| - k
    {
      if a[k] == '\0' {
        assert Lower(s) == Lower(t);
        return 0;
      }
      k := k + 1;
    }
    difference := ToLower(a[k]) as int - ToLower(b[k]) as int;
    assert k < |s| && k < |t| ==> Lower(s)[k] != Lower(t)[k];
  }

  /** `get_object_item`: the first member whose key matches. */
  function Find(members: seq<Member>, name: string, caseSensitive: bool): (r: Option<Json>)
    ensures r.Some? ==> Nesting(r.value) <= MembersNesting(members)
    ensures r.Some? ==> exists k :: 0 <= k < |members| && members[k].value == r.value
  {
    if members == [] then None
    else if Fold(members[0].key, caseSensitive) == Fold(name, caseSensitive) then
      assert members[0].value == members[0].value;
      Some(members[0].value)
    else
      var r := Find(members[1..], name, caseSensitive);
      assert forall k :: 0 <= k < |members| - 1 ==> members[1..][k] == members[k + 1];
      r
  }

  /** What `get_object_item` takes for the same name. */
  predicate Matches(key: string, name: string, caseSensitive: bool) {
    if caseSensitive then key == name else SameButCase(name, key)
  }

  method GetObjectItem(members: seq<Member>, name: string, caseSensitive: bool) returns (r: Option<Json>)
    requires '\0' !in name && forall k :: 0 <= k < |members| ==> '\0' !in members[k].key
    ensures r == Find(members, name, caseSensitive)
    ensures r == None <==> forall k :: 0 <= k < |members| ==> !Matches(members[k].key, name, caseSensitive)
    ensures r.Some? ==> exists k :: 0 <= k < |members| && r == Some(members[k].value)
                                    && Matches(members[k].key, name, caseSensitive)
                                    && forall j :: 0 <= j < k ==> !Matches(members[j].key, name, caseSensitive)
  {
    hide SameButCase, Lower;
    var current := 0;
    while current < |members|
      invariant current <= |members|
      invariant forall j :: 0 <= j < current ==> !Matches(members[j].key, name, caseSensitive)
      invariant Find(members, name, caseSensitive) == Find(members[current..], name, caseSensitive)
    {
      var differs;
      if caseSensitive {
        differs := name != members[current].key;
      } else {
        var difference := CaseInsensitiveStrcmp(name, members[current].key);
        LowerEqual(name, members[current].key);
        differs := difference != 0;
      }
      assert members[current..][1..] == members[current + 1..];
      if !differs { return Some(members[current].value); }
      current := current + 1;
    }
    r := None;
  }

  // ----- Comparing

  const DOUBLE_PRECISION: real := 0.000_000_000_000_000_1

  /** `compare_double`. */
  predicate CompareDouble(a: real, b: real) { -DOUBLE_PRECISION <= a - b <= DOUBLE_PRECISION }

  /** `cJSON_Compare` on two different nodes. */
  predicate Compare(a: Json, b: Json, caseSensitive: bool)
    decreases Nesting(a) + Nesting(b), 0
  {
    match (a, b)
    case (Null, Null) => true
    case (False, False) => true
    case (True, True) => true
    case (Number(x), Number(y)) => CompareDouble(x, y)
    case (Text(s), Text(t)) => s == t
    case (Array(xs), Array(ys)) => CompareItems(xs, ys, caseSensitive)
    case (Object(ms), Object(ns)) => Covers(ms, ns, caseSensitive) && Covers(ns, ms, caseSensitive)
    case _ => false
  }

  predicate CompareItems(xs: seq<Json>, ys: seq<Json>, caseSensitive: bool)
    decreases ItemsNesting(xs) + ItemsNesting(ys), 1, |xs|
  {
    if xs == [] || ys == [] then xs == ys
    else Compare(xs[0], ys[0], caseSensitive) && CompareItems(xs[1..], ys[1..], caseSensitive)
  }

  /** Every member of `ms` finds an equal one in `ns`. */
  predicate Covers(ms: seq<Member>, ns: seq<Member>, caseSensitive: bool)
    decreases MembersNesting(ms) + MembersNesting(ns), 1, |ms|
  {
    ms == []
    || (var found := Find(ns, ms[0].key, caseSensitive);
        found.Some? && Compare(ms[0].value, found.value, caseSensitive) && Covers(ms[1..], ns, caseSensitive))
  }

  // ----- What is decided

  datatype Canon =
    | CNull
    | CFalse
    | CTrue
    | CNumber(value: real)
    | CText(text: string)
    | CArray(items: seq<Canon>)
    | CObject(members: map<string, Canon>)

  /** A tree with each object turned into a map from folded keys; the first of several equal keys counts. */
  function Canonical(j: Json, caseSensitive: bool): Canon {
    match j
    case Null => CNull
    case False => CFalse
    case True => CTrue
    case Number(v) => CNumber(v)
    case Text(t) => CText(t)
    case Array(items) => CArray(CanonicalItems(items, caseSensitive))
    case Object(members) => CObject(CanonicalMembers(members, caseSensitive))
  }

  function CanonicalItems(items: seq<Json>, caseSensitive: bool): seq<Canon> {
    if items == [] then [] else [Canonical(items[0], caseSensitive)] + CanonicalItems(items[1..], caseSensitive)
  }

  function CanonicalMembers(members: seq<Member>, caseSensitive: bool): map<string, Canon> {
    if members == [] then map[]
    else
      CanonicalMembers(members[1..], caseSensitive)
        [Fold(members[0].key, caseSensitive) := Canonical(members[0].value, caseSensitive)]
  }

  predicate WholeNumbers(j: Json) {
    match j
    case Number(v) => v == v.Floor as real
    case Array(items) => forall k :: 0 <= k < |items| ==> WholeNumbers(items[k])
    case Object(members) => forall k :: 0 <= k < |members| ==> WholeNumbers(members[k].value)
    case _ => true
  }

  /** Wherever an object has a key several times, the values are alike. */
  predicate Consistent(j: Json, caseSensitive: bool) {
    match j
    case Array(items) => forall k :: 0 <= k < |items| ==> Consistent(items[k], caseSensitive)
    case Object(members) =>
      var all := CanonicalMembers(members, caseSensitive);
      forall k :: 0 <= k < |members| ==>
        && Consistent(members[k].value, caseSensitive)
        && Fold(members[k].key, caseSensitive) in all
        && all[Fold(members[k].key, caseSensitive)] == Canonical(members[k].value, caseSensitive)
    case _ => true
  }

  predicate DistinctKeys(j: Json, caseSensitive: bool) {
    match j
    case Array(items) => forall k :: 0 <= k < |items| ==> DistinctKeys(items[k], caseSensitive)
    case Object(members) =>
      && (forall k :: 0 <= k < |members| ==> DistinctKeys(members[k].value, caseSensitive))
      && (forall i, k :: 0 <= i < k < |members| ==>
            Fold(members[i].key, caseSensitive) != Fold(members[k].key, caseSensitive))
    case _ => true
  }

  lemma {:induction false} FindIsCanonical(members: seq<Member>, name: string, cs: bool)
    ensures Find(members, name, cs).Some? <==> Fold(name, cs) in CanonicalMembers(members, cs)
    ensures Find(members, name, cs).Some? ==>
      Canonical(Find(members, name, cs).value, cs) == CanonicalMembers(members, cs)[Fold(name, cs)]
  {
    if members != [] {
      FindIsCanonical(members[1..], name, cs);
    }
  }

  /** The keys of the canonical form are those of the members. */
  lemma {:induction false} CanonicalKeys(members: seq<Member>, cs: bool)
    ensures forall k :: 0 <= k < |members| ==> Fold(members[k].key, cs) in CanonicalMembers(members, cs)
    ensures forall f :: f in CanonicalMembers(members, cs) ==>
      exists k :: 0 <= k < |members| && Fold(members[k].key, cs) == f
        && CanonicalMembers(members, cs)[f] == Canonical(members[k].value, cs)
  {
    if members != [] {
      CanonicalKeys(members[1..], cs);
      var all, rest := CanonicalMembers(members, cs), CanonicalMembers(members[1..], cs);
      forall f | f in all
        ensures exists k ::
                  0 <= k < |members| && Fold(members[k].key, cs) == f && all[f] == Canonical(members[k].value, cs)
      {
        if f == Fold(members[0].key, cs) {
          assert all[f] == Canonical(members[0].value, cs);
        } else {
          var k :| 0 <= k < |members| - 1 && Fold(members[1..][k].key, cs) == f
            && rest[f] == Canonical(members[1..][k].value, cs);
          assert members[k + 1] == members[1..][k];
        }
      }
      forall k | 0 <= k < |members| ensures Fold(members[k].key, cs) in all {
        assert k > 0 ==> members[k] == members[1..][k - 1];
      }
    }
  }

  lemma {:induction false} ItemNesting(items: seq<Json>, k: nat)
    requires k < |items|
    ensures Nesting(items[k]) <= ItemsNesting(items)
  {
    if k > 0 {
      ItemNesting(items[1..], k - 1);
    }
  }

  lemma {:induction false} MemberNesting(members: seq<Member>, k: nat)
    requires k < |members|
    ensures Nesting(members[k].value) <= MembersNesting(members)
  {
    if k > 0 {
      MemberNesting(members[1..], k - 1);
    }
  }

  /**
   Two trees whose numbers are integers compare equal exactly when their canonical forms are equal and neither
   has an object that gives one key two different values.
   */
  lemma {:induction false} CompareDecides(a: Json, b: Json, cs: bool)
    requires WholeNumbers(a) && WholeNumbers(b)
    ensures Compare(a, b, cs) <==> Consistent(a, cs) && Consistent(b, cs) && Canonical(a, cs) == Canonical(b, cs)
    decreases Nesting(a) + Nesting(b), 0
  {
    hide Consistent, CanonicalItems, CanonicalMembers;
    if a.Array? && b.Array? {
      ItemsDecides(a.items, b.items, cs);
    } else if a.Object? && b.Object? {
      ObjectDecides(a.members, b.members, cs);
    } else {
      SimpleDecides(a, b, cs);
    }
  }

  lemma SimpleDecides(a: Json, b: Json, cs: bool)
    requires WholeNumbers(a) && WholeNumbers(b) && !(a.Array? && b.Array?) && !(a.Object? && b.Object?)
    ensures Compare(a, b, cs) <==> Consistent(a, cs) && Consistent(b, cs) && Canonical(a, cs) == Canonical(b, cs)
  {
    hide CanonicalItems, CanonicalMembers;
    if a.Number? && b.Number? {
      assert a.value.Floor != b.value.Floor ==> a.value - b.value >= 1.0 || b.value - a.value >= 1.0;
    }
  }

  lemma {:induction false} ItemsDecides(xs: seq<Json>, ys: seq<Json>, cs: bool)
    requires WholeNumbers(Array(xs)) && WholeNumbers(Array(ys))
    ensures CompareItems(xs, ys, cs)
       <==> Consistent(Array(xs), cs) && Consistent(Array(ys), cs) && CanonicalItems(xs, cs) == CanonicalItems(ys, cs)
    decreases ItemsNesting(xs) + ItemsNesting(ys), 1, |xs|
  {
    if xs != [] && ys != [] {
      CompareDecides(xs[0], ys[0], cs);
      ItemsDecides(xs[1..], ys[1..], cs);
      ConsistentTail(xs, cs);
      ConsistentTail(ys, cs);
      var cx, cy := CanonicalItems(xs, cs), CanonicalItems(ys, cs);
      assert cx[1..] == CanonicalItems(xs[1..], cs) && cy[1..] == CanonicalItems(ys[1..], cs);
    }
  }

  lemma ConsistentTail(xs: seq<Json>, cs: bool)
    requires xs != []
    ensures Consistent(Array(xs), cs) <==> Consistent(xs[0], cs) && Consistent(Array(xs[1..]), cs)
  {
    assert forall k :: 0 < k < |xs| ==> xs[k] == xs[1..][k - 1];
  }

  /** Whether `ms` is covered, member by member. */
  lemma {:induction false} CoversDecides(ms: seq<Member>, ns: seq<Member>, cs: bool)
    requires WholeNumbers(Object(ms)) && WholeNumbers(Object(ns))
    ensures Covers(ms, ns, cs) <==> forall k :: 0 <= k < |ms| ==> Covered(ms[k], ns, cs)
    decreases MembersNesting(ms) + MembersNesting(ns), 1, |ms|
  {
    if ms != [] {
      var found := Find(ns, ms[0].key, cs);
      FindIsCanonical(ns, ms[0].key, cs);
      if found.Some? {
        CompareDecides(ms[0].value, found.value, cs);
      }
      CoversDecides(ms[1..], ns, cs);
      assert forall k :: 0 < k < |ms| ==> ms[k] == ms[1..][k - 1];
    }
  }

  /** The member has an equal in `ns`: the first one with its key. */
  predicate Covered(m: Member, ns: seq<Member>, cs: bool) {
    var found := Find(ns, m.key, cs);
    && found.Some? && Consistent(m.value, cs) && Consistent(found.value, cs)
    && Canonical(m.value, cs) == Canonical(found.value, cs)
  }

  lemma {:induction false} ObjectDecides(ms: seq<Member>, ns: seq<Member>, cs: bool)
    requires WholeNumbers(Object(ms)) && WholeNumbers(Object(ns))
    ensures Covers(ms, ns, cs) && Covers(ns, ms, cs)
       <==> Consistent(Object(ms), cs) && Consistent(Object(ns), cs)
            && CanonicalMembers(ms, cs) == CanonicalMembers(ns, cs)
    decreases MembersNesting(ms) + MembersNesting(ns), 2, |ms|
  {
    hide Covers, Covered, Consistent, CanonicalMembers, WholeNumbers;
    CoversDecides(ms, ns, cs);
    CoversDecides(ns, ms, cs);
    if Covers(ms, ns, cs) && Covers(ns, ms, cs) {
      CoveredKeys(ms, ns, cs);
      CoveredKeys(ns, ms, cs);
      assert CanonicalMembers(ms, cs) == CanonicalMembers(ns, cs);
    }
    if Consistent(Object(ms), cs) && Consistent(Object(ns), cs)
       && CanonicalMembers(ms, cs) == CanonicalMembers(ns, cs) {
      AllCovered(ms, ns, cs);
      AllCovered(ns, ms, cs);
    }
  }

  lemma CoveredKeys(ms: seq<Member>, ns: seq<Member>, cs: bool)
    requires forall k :: 0 <= k < |ms| ==> Covered(ms[k], ns, cs)
    ensures var cm, cn := CanonicalMembers(ms, cs), CanonicalMembers(ns, cs);
      && (forall f :: f in cm ==> f in cn && cm[f] == cn[f])
      && Consistent(Object(ms), cs)
  {
    var cm, cn := CanonicalMembers(ms, cs), CanonicalMembers(ns, cs);
    CanonicalKeys(ms, cs);
    forall k | 0 <= k < |ms|
      ensures Fold(ms[k].key, cs) in cn && cn[Fold(ms[k].key, cs)] == Canonical(ms[k].value, cs)
    {
      assert Covered(ms[k], ns, cs);
      FindIsCanonical(ns, ms[k].key, cs);
    }
  }

  lemma AllCovered(ms: seq<Member>, ns: seq<Member>, cs: bool)
    requires Consistent(Object(ms), cs) && Consistent(Object(ns), cs)
    requires CanonicalMembers(ms, cs) == CanonicalMembers(ns, cs)
    ensures forall k :: 0 <= k < |ms| ==> Covered(ms[k], ns, cs)
  {
    forall k | 0 <= k < |ms| ensures Covered(ms[k], ns, cs) {
      FindIsCanonical(ns, ms[k].key, cs);
    }
  }

  // ----- What follows

  lemma {:induction false} DistinctIsConsistent(j: Json, cs: bool)
    requires DistinctKeys(j, cs)
    ensures Consistent(j, cs)
    decreases j
  {
    match j
    case Array(items) =>
      forall k | 0 <= k < |items| ensures Consistent(items[k], cs) {
        DistinctIsConsistent(items[k], cs);
      }
    case Object(members) =>
      CanonicalKeys(members, cs);
      forall k | 0 <= k < |members| ensures Consistent(members[k].value, cs) {
        DistinctIsConsistent(members[k].value, cs);
      }
    case _ =>
  }

  /** With distinct keys the comparison is equality of the trees as arrays and maps. */
  lemma DistinctCompare(a: Json, b: Json, cs: bool)
    requires WholeNumbers(a) && WholeNumbers(b) && DistinctKeys(a, cs) && DistinctKeys(b, cs)
    ensures Compare(a, b, cs) <==> Canonical(a, cs) == Canonical(b, cs)
  {
    DistinctIsConsistent(a, cs);
    DistinctIsConsistent(b, cs);
    CompareDecides(a, b, cs);
  }

  /** The comparison is symmetric and transitive, whatever keys occur; and reflexive exactly on the
      consistent trees. */
  lemma CompareEquivalence(a: Json, b: Json, c: Json, cs: bool)
    requires WholeNumbers(a) && WholeNumbers(b) && WholeNumbers(c)
    ensures Compare(a, b, cs) == Compare(b, a, cs)
    ensures Compare(a, b, cs) && Compare(b, c, cs) ==> Compare(a, c, cs)
    ensures Compare(a, a, cs) <==> Consistent(a, cs)
  {
    hide Compare, Consistent, Canonical, WholeNumbers;
    CompareDecides(a, b, cs);
    CompareDecides(b, a, cs);
    CompareDecides(b, c, cs);
    CompareDecides(a, c, cs);
    CompareDecides(a, a, cs);
  }

  // ----- What it says of each kind of value

  predicate NoObjects(j: Json) {
    match j
    case Array(items) => forall k :: 0 <= k < |items| ==> NoObjects(items[k])
    case Object(_) => false
    case _ => true
  }

  /** Without objects, trees compare equal exactly when they are the same. */
  lemma {:induction false} PlainCompare(a: Json, b: Json, cs: bool)
    requires WholeNumbers(a) && WholeNumbers(b) && NoObjects(a)
    ensures Compare(a, b, cs) <==> a == b
    decreases a, 1
  {
    if a.Array? && b.Array? {
      ItemsCompare(a.items, b.items, cs);
    } else if a.Number? && b.Number? {
      assert a.value.Floor != b.value.Floor ==> a.value - b.value >= 1.0 || b.value - a.value >= 1.0;
    }
  }

  lemma {:induction false} ItemsCompare(xs: seq<Json>, ys: seq<Json>, cs: bool)
    requires WholeNumbers(Array(xs)) && WholeNumbers(Array(ys)) && NoObjects(Array(xs))
    ensures CompareItems(xs, ys, cs) <==> xs == ys
    decreases xs, 0
  {
    if xs != [] && ys != [] {
      PlainCompare(xs[0], ys[0], cs);
      ItemsCompare(xs[1..], ys[1..], cs);
      assert xs == [xs[0]] + xs[1..] && ys == [ys[0]] + ys[1..];
    }
  }

  /** The member at `k` is the first of that name. */
  predicate FirstMatch(members: seq<Member>, k: int, name: string, cs: bool) {
    && 0 <= k < |members| && Matches(members[k].key, name, cs)
    && forall j :: 0 <= j < k ==> !Matches(members[j].key, name, cs)
  }

  lemma {:induction false} FindIsFirst(members: seq<Member>, name: string, cs: bool) returns (k: int)
    ensures if Find(members, name, cs).Some? then
              FirstMatch(members, k, name, cs) && Find(members, name, cs) == Some(members[k].value)
            else forall j :: 0 <= j < |members| ==> !Matches(members[j].key, name, cs)
  {
    hide SameButCase, Lower;
    k := -1;
    if members != [] {
      if !cs { LowerEqual(name, members[0].key); }
      if Matches(members[0].key, name, cs) {
        k := 0;
      } else {
        k := FindIsFirst(members[1..], name, cs);
        k := k + 1;
        assert forall j :: 0 < j < |members| ==> members[j] == members[1..][j - 1];
      }
    }
  }

  /** The first member of `ns` with the name of `m` has an equal value. */
  ghost predicate HasEqual(m: Member, ns: seq<Member>, cs: bool) {
    exists k :: FirstMatch(ns, k, m.key, cs) && Compare(m.value, ns[k].value, cs)
  }

  lemma EqualIsFound(m: Member, ns: seq<Member>, cs: bool)
    ensures var found := Find(ns, m.key, cs);
      HasEqual(m, ns, cs) <==> found.Some? && Compare(m.value, found.value, cs)
  {
    hide Compare, Matches;
    var k := FindIsFirst(ns, m.key, cs);
    assert forall i, j :: FirstMatch(ns, i, m.key, cs) && FirstMatch(ns, j, m.key, cs) ==> i == j;
  }

  lemma {:induction false} CoversMeans(ms: seq<Member>, ns: seq<Member>, cs: bool)
    ensures Covers(ms, ns, cs) <==> forall i :: 0 <= i < |ms| ==> HasEqual(ms[i], ns, cs)
    decreases |ms|
  {
    hide Compare, HasEqual;
    if ms != [] {
      EqualIsFound(ms[0], ns, cs);
      CoversMeans(ms[1..], ns, cs);
      assert forall i :: 0 < i < |ms| ==> ms[i] == ms[1..][i - 1];
    }
  }

  /** Objects compare equal exactly when each member of either finds its name in the other, with an equal value. */
  lemma ObjectCompares(ms: seq<Member>, ns: seq<Member>, cs: bool)
    ensures Compare(Object(ms), Object(ns), cs)
       <==> (forall i :: 0 <= i < |ms| ==> HasEqual(ms[i], ns, cs))
            && forall i :: 0 <= i < |ns| ==> HasEqual(ns[i], ms, cs)
  {
    hide HasEqual;
    CoversMeans(ms, ns, cs);
    CoversMeans(ns, ms, cs);
  }

  /** Numbers compare equal exactly when they are at most 10^-16 apart. */
  lemma NumbersCompare(x: real, y: real, cs: bool)
    ensures Compare(Number(x), Number(y), cs) <==> -1.0 <= (x - y) * 10_000_000_000_000_000.0 <= 1.0
  {
  }
}
