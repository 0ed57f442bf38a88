/** What is printed, parses: back to the same tree, unless it is nested too deeply for the parser. */
module CjsonRoundTrip {
  import opened CjsonString
  import opened CjsonTree
  import opened CjsonParse
  import Num = CjsonNumbers

  // ----- Numbers

  function Power(n: nat): nat { if n == 0 then 1 else 10 * Power(n - 1) }

  lemma {:induction false} DecimalLength(n: nat, k: nat)
    requires k >= 1 && n < Power(k)
    ensures |Decimal(n)| <= k
  {
    if n >= 10 {
      DecimalLength(n / 10, k - 1);
    }
  }

  lemma {:induction false} DecimalReads(n: nat)
    ensures Natural(Decimal(n)) == n
  {
    if n >= 10 {
      DecimalReads(n / 10);
      var d := Decimal(n);
      assert d[..|d| - 1] == Decimal(n / 10);
    } else {
      var d := Decimal(n);
      assert d[..0] == [];
    }
  }

  lemma {:induction false} DigitsAll(s: string)
    requires forall k :: 0 <= k < |s| ==> IsDigit(s[k])
    ensures Digits(s) == |s|
  {
    if s != [] {
      DigitsAll(s[1..]);
    }
  }

  lemma StrtodNumeral(n: int)
    ensures Strtod(Numeral(n)) == Numeric(n as real, |Numeral(n)|)
  {
    hide Strtod, Natural, Decimal;
    var m: nat := if n < 0 then -n else n;
    DecimalReads(m);
    Num.WholeReads(if n < 0 then "-" else "", Decimal(m));
    assert "" + Decimal(m) == Decimal(m);
  }

  lemma NumberReadsBack(n: int, rest: string)
    requires -FIFTEEN_DIGITS < n < FIFTEEN_DIGITS && Follows(rest)
    ensures ReadNumber(Numeral(n) + rest) == Numeric(n as real, |Numeral(n)|)
  {
    var m := if n < 0 then -n else n;
    assert Power(15) == FIFTEEN_DIGITS by { Powers(); }
    DecimalLength(m, 15);
    RunStops(Numeral(n), rest, 63);
    assert (Numeral(n) + rest)[..|Numeral(n)|] == Numeral(n);
    StrtodNumeral(n);
  }

  lemma Powers()
    ensures Power(15) == FIFTEEN_DIGITS
  {
    assert Power(5) == 100_000;
    assert Power(10) == 10_000_000_000;
  }

  // ----- White space

  predicate Blank(w: string) { forall k :: 0 <= k < |w| ==> w[k] as nat <= 32 }

  lemma {:induction false} SkipBlank(w: string, s: string)
    requires Blank(w)
    ensures Skip(w + s) == Skip(s)
  {
    if w == [] {
      assert w + s == s;
    } else {
      assert (w + s)[1..] == w[1..] + s;
      SkipBlank(w[1..], s);
    }
  }

  lemma SkipNothing(s: string)
    requires s == [] || s[0] as nat > 32
    ensures Skip(s) == s
  {
  }

  // ----- Values

  lemma PrintHead(j: Json, depth: nat, fmt: bool)
    requires Printable(j)
    ensures var s := Print(j, depth, fmt); s != [] && s[0] as nat > 32 && s[0] != ']' && s[0] as nat < 0xEF
  {
  }

  /** Which branch of `parse_value` a text takes. */
  lemma Dispatch(s: string, depth: nat)
    requires s != []
    ensures s[0] == '[' ==> ParseValue(s, depth) == ParseArray(s, depth)
    ensures s[0] == '{' ==> ParseValue(s, depth) == ParseObject(s, depth)
    ensures s[0] == '"' ==> ParseValue(s, depth) == TextOf(ReadString(s))
    ensures s[0] == '-' || IsDigit(s[0]) ==> ParseValue(s, depth) == NumberOf(ReadNumber(s), s)
  {
    hide ParseArray, ParseObject, ReadString, ReadNumber;
    assert |s| >= 4 ==> s[..4][0] == s[0];
    assert |s| >= 5 ==> s[..5][0] == s[0];
  }

  function TextOf(r: Read): Parsed {
    match r case Unreadable => Fail case Quoted(t, rest) => Done(Json.Text(t), rest)
  }

  function NumberOf(n: Numeric, s: string): Parsed
    requires n.Numeric? ==> n.used <= |s|
  {
    match n case NotANumber => Fail case Numeric(v, used) => Done(Number(v), s[used..])
  }

  /** A printed value parses to itself, whatever follows it, exactly when it is not nested too deeply. */
  lemma {:induction false} ValueRoundTrip(j: Json, d: nat, fmt: bool, rest: string, depth: nat)
    requires Printable(j) && Follows(rest) && depth <= NESTING_LIMIT
    ensures ParseValue(Print(j, d, fmt) + rest, depth)
         == if depth + Nesting(j) <= NESTING_LIMIT then Done(j, rest) else Fail
    decreases j
  {
    match j
    case Null => assert ("null" + rest)[4..] == rest;
    case False => assert ("false" + rest)[5..] == rest && ("false" + rest)[..4][0] == 'f';
    case True => assert ("true" + rest)[4..] == rest && ("true" + rest)[..4][0] == 't';
    case Number(v) => NumberRoundTrip(v, d, fmt, rest, depth);
    case Text(t) => TextRoundTrip(t, d, fmt, rest, depth);
    case Array(items) => ArrayRoundTrip(items, d, fmt, rest, depth);
    case Object(members) => ObjectRoundTrip(members, d, fmt, rest, depth);
  }

  lemma NumberRoundTrip(v: real, d: nat, fmt: bool, rest: string, depth: nat)
    requires Printable(Number(v)) && Follows(rest)
    ensures ParseValue(Print(Number(v), d, fmt) + rest, depth) == Done(Number(v), rest)
  {
    hide ReadNumber, ParseValue;
    var s := Numeral(v.Floor);
    NumberReadsBack(v.Floor, rest);
    Dispatch(s + rest, depth);
    assert (s + rest)[|s|..] == rest;
  }

  lemma TextRoundTrip(t: string, d: nat, fmt: bool, rest: string, depth: nat)
    requires Printable(Json.Text(t))
    ensures ParseValue(Print(Json.Text(t), d, fmt) + rest, depth) == Done(Json.Text(t), rest)
  {
    hide ReadString, ParseValue;
    QuoteReadsBack(t, rest);
    Dispatch(Quote(t) + rest, depth);
  }

  lemma {:induction false} ArrayRoundTrip(items: seq<Json>, d: nat, fmt: bool, rest: string, depth: nat)
    requires Printable(Array(items)) && depth <= NESTING_LIMIT
    ensures ParseValue(Print(Array(items), d, fmt) + rest, depth)
         == if depth + 1 + ItemsNesting(items) <= NESTING_LIMIT then Done(Array(items), rest) else Fail
    decreases items, 1
  {
    hide ParseValue, ParseItems, Print, Skip, ItemsNesting;
    var s := ['['] + PrintItems(items, d + 1, fmt) + [']'] + rest;
    assert Print(Array(items), d, fmt) + rest == s by { PrintArray(items, d, fmt); }
    Dispatch(s, depth);
    var inner := PrintItems(items, d + 1, fmt) + ([']'] + rest);
    assert s[1..] == inner;
    if items == [] {
      assert inner == [']'] + rest;
      SkipNothing(inner);
      assert ItemsNesting(items) == 0 by { NestingOfNone(); }
    } else if depth < NESTING_LIMIT {
      PrintItemsHead(items, d + 1, fmt);
      SkipNothing(inner);
      ItemsRoundTrip(items, d + 1, fmt, [], rest, depth + 1);
      assert [] + inner == inner;
    }
  }

  lemma PrintArray(items: seq<Json>, d: nat, fmt: bool)
    requires Printable(Array(items))
    ensures Print(Array(items), d, fmt) == ['['] + PrintItems(items, d + 1, fmt) + [']']
  {
  }

  lemma NestingOfNone()
    ensures ItemsNesting([]) == 0 && MembersNesting([]) == 0
  {
  }

  lemma PrintItemsHead(items: seq<Json>, d: nat, fmt: bool)
    requires items != [] && Printable(Array(items))
    ensures var s := PrintItems(items, d, fmt); s != [] && s[0] as nat > 32 && s[0] != ']'
  {
    PrintHead(items[0], d, fmt);
  }

  lemma PrintItemsText(items: seq<Json>, d: nat, fmt: bool, end: string)
    requires items != [] && Printable(Array(items))
    ensures PrintItems(items, d, fmt) + end
         == Print(items[0], d, fmt)
            + (Comma(|items| > 1, if fmt then ", " else ",") + (PrintItems(items[1..], d, fmt) + end))
  {
    hide Print;
  }

  lemma {:induction false} ItemsRoundTrip(items: seq<Json>, d: nat, fmt: bool, w: string, rest: string, depth: nat)
    requires items != [] && Printable(Array(items)) && depth <= NESTING_LIMIT && Blank(w)
    ensures ParseItems(w + (PrintItems(items, d, fmt) + ([']'] + rest)), depth)
         == if depth + ItemsNesting(items) <= NESTING_LIMIT then Items(items, rest) else NoItems
    decreases items, 0
  {
    hide ParseValue, Print, PrintItems, Skip, Nesting;
    var end := [']'] + rest;
    var text := PrintItems(items, d, fmt) + end;
    var more := PrintItems(items[1..], d, fmt) + end;
    var tail := Comma(|items| > 1, if fmt then ", " else ",") + more;
    PrintItemsText(items, d, fmt, end);
    PrintItemsHead(items, d, fmt);
    SkipBlank(w, text);
    SkipNothing(text);
    if |items| > 1 {
      var sp := if fmt then " " else "";
      assert tail[1..] == sp + more;
      ItemsRoundTrip(items[1..], d, fmt, sp, rest, depth);
    } else {
      PrintNothing(d, fmt);
      assert tail == end;
      assert ItemsNesting(items[1..]) == 0;
    }
    ValueRoundTrip(items[0], d, fmt, tail, depth);
    SkipNothing(tail);
    assert [items[0]] + items[1..] == items;
  }

  lemma {:induction false} ObjectRoundTrip(members: seq<Member>, d: nat, fmt: bool, rest: string, depth: nat)
    requires Printable(Object(members)) && depth <= NESTING_LIMIT
    ensures ParseValue(Print(Object(members), d, fmt) + rest, depth)
         == if depth + 1 + MembersNesting(members) <= NESTING_LIMIT then Done(Object(members), rest) else Fail
    decreases members, 2
  {
    hide ParseValue, ParseMembers, Print, PrintMembers, Skip, MembersNesting, Quote;
    var w := if fmt then "\n" else "";
    var z := if fmt then Tabs(d) else [];
    var end := ['}'] + rest;
    var inner := PrintMembers(members, d + 1, fmt) + (z + end);
    var s := ['{'] + (w + inner);
    assert Print(Object(members), d, fmt) + rest == s by { PrintObject(members, d, fmt, rest); }
    Dispatch(s, depth);
    assert s[1..] == w + inner;
    if members == [] {
      PrintNothing(d + 1, fmt);
      assert w + inner == (w + z) + end;
      SkipBlank(w + z, end);
      SkipNothing(end);
      NestingOfNone();
    } else if depth < NESTING_LIMIT {
      MembersHead(members, d + 1, fmt, w, z + end, depth + 1);
      MembersRoundTrip(members, d + 1, fmt, w, z, rest, depth + 1);
    }
  }

  lemma PrintObject(members: seq<Member>, d: nat, fmt: bool, rest: string)
    requires Printable(Object(members))
    ensures Print(Object(members), d, fmt) + rest
         == ['{'] + ((if fmt then "\n" else "")
                     + (PrintMembers(members, d + 1, fmt) + ((if fmt then Tabs(d) else []) + (['}'] + rest))))
  {
  }

  /** Behind the white space, the printed members start with the first key. */
  lemma MembersHead(members: seq<Member>, d: nat, fmt: bool, w: string, end: string, depth: nat)
    requires members != [] && Printable(Object(members)) && Blank(w)
    ensures var s := w + (PrintMembers(members, d, fmt) + end);
      Starts(Skip(s), '"') && ParseMembers(s, depth) == ParseMembers(Skip(s), depth)
  {
    hide ParseValue, Print, Skip, ReadString;
    var tabs := if fmt then Tabs(d) else [];
    var s := w + (PrintMembers(members, d, fmt) + end);
    var quoted := s[|w| + |tabs|..];
    assert s == (w + tabs) + quoted;
    SkipBlank(w + tabs, quoted);
    SkipNothing(quoted);
    assert quoted[0] == PrintMembers(members, d, fmt)[|tabs|];
  }

  /** What stands behind a printed member, with `more` being the printed rest and the closing brace. */
  lemma MemberTail(more: string, nl: string, rest: string, last: bool, z: string)
    requires Blank(nl) && Blank(z) && (last ==> more == z + (['}'] + rest))
    ensures var tail := Comma(!last, ",") + (nl + more);
      && (!last ==> Skip(tail) == tail && Starts(tail, ',') && tail[1..] == nl + more)
      && (last ==> Skip(tail) == ['}'] + rest)
      && Follows(tail)
  {
    hide Skip;
    var tail := Comma(!last, ",") + (nl + more);
    if last {
      assert tail == (nl + z) + (['}'] + rest);
      SkipBlank(nl + z, ['}'] + rest);
      SkipNothing(['}'] + rest);
    } else {
      SkipNothing(tail);
    }
  }

  /** From the first key to its value. */
  lemma KeyRead(m: Member, d: nat, fmt: bool, w: string, tail: string)
    requires '\0' !in m.key && Printable(m.value) && Blank(w)
    ensures var value := Print(m.value, d, fmt) + tail;
      var colon := (if fmt then ":\t" else ":") + value;
      && ReadString(Skip(w + (Quote(m.key) + colon))) == Quoted(m.key, colon)
      && Skip(colon) == colon && Starts(colon, ':') && Skip(colon[1..]) == value
  {
    hide Print, Skip, ReadString;
    var value := Print(m.value, d, fmt) + tail;
    var tab := if fmt then "\t" else "";
    var colon := (if fmt then ":\t" else ":") + value;
    SkipBlank(w, Quote(m.key) + colon);
    SkipNothing(Quote(m.key) + colon);
    QuoteReadsBack(m.key, colon);
    SkipNothing(colon);
    assert colon[1..] == tab + value;
    PrintHead(m.value, d, fmt);
    SkipBlank(tab, value);
    SkipNothing(value);
  }

  lemma PrintMembersText(members: seq<Member>, d: nat, fmt: bool, w: string, end: string)
    requires members != [] && Printable(Object(members)) && Blank(w)
    ensures var m := members[0];
      var nl := if fmt then "\n" else [];
      var tail := Comma(|members| > 1, ",") + (nl + (PrintMembers(members[1..], d, fmt) + end));
      w + (PrintMembers(members, d, fmt) + end)
        == (w + if fmt then Tabs(d) else [])
           + (Quote(m.key) + ((if fmt then ":\t" else ":") + (Print(m.value, d, fmt) + tail)))
  {
    hide Print, Quote, Tabs;
    var m := members[0];
    Regroup(w, if fmt then Tabs(d) else [], Quote(m.key), if fmt then ":\t" else ":", Print(m.value, d, fmt),
            Comma(|members| > 1, ","), if fmt then "\n" else [], PrintMembers(members[1..], d, fmt), end);
  }

  lemma Regroup(w: string, a: string, b: string, c: string, d: string, e: string, f: string, g: string, end: string)
    ensures w + ((a + (b + (c + (d + (e + (f + g)))))) + end) == (w + a) + (b + (c + (d + (e + (f + (g + end))))))
  {
    assert (e + (f + g)) + end == e + (f + (g + end));
    assert (c + (d + (e + (f + g)))) + end == c + (d + ((e + (f + g)) + end));
  }

  lemma {:induction false} MembersRoundTrip(members: seq<Member>, d: nat, fmt: bool, w: string, z: string, rest: string,
                                            depth: nat)
    requires members != [] && Printable(Object(members)) && depth <= NESTING_LIMIT && Blank(w) && Blank(z)
    ensures ParseMembers(w + (PrintMembers(members, d, fmt) + (z + (['}'] + rest))), depth)
         == if depth + MembersNesting(members) <= NESTING_LIMIT then Members(members, rest) else NoMembers
    decreases members, 1
  {
    hide ParseValue, Print, PrintMembers, Quote, Skip, Nesting, ReadString, Follows;
    var end := z + (['}'] + rest);
    var m := members[0];
    var nl := if fmt then "\n" else [];
    var more := PrintMembers(members[1..], d, fmt) + end;
    var tail := Comma(|members| > 1, ",") + (nl + more);
    PrintMembersText(members, d, fmt, w, end);
    KeyRead(m, d, fmt, w + if fmt then Tabs(d) else [], tail);
    if |members| > 1 {
      MembersRoundTrip(members[1..], d, fmt, nl, z, rest, depth);
    } else {
      PrintNothing(d, fmt);
      assert more == end;
      assert MembersNesting(members[1..]) == 0;
    }
    MemberTail(more, nl, rest, |members| == 1, z);
    ValueRoundTrip(m.value, d, fmt, tail, depth);
    assert [m] + members[1..] == members;
  }

  lemma PrintNothing(d: nat, fmt: bool)
    ensures PrintItems([], d, fmt) == [] && PrintMembers([], d, fmt) == []
  {
  }

  /** The whole text of `cJSON_Print` or `cJSON_PrintUnformatted`, with nothing left over. */
  lemma RoundTrip(j: Json, fmt: bool, strict: bool)
    requires Printable(j)
    ensures Parse(Print(j, 0, fmt), strict) == if Nesting(j) <= NESTING_LIMIT then Done(j, []) else Fail
  {
    var s := Print(j, 0, fmt);
    PrintHead(j, 0, fmt);
    assert |s| >= 4 ==> s[..3] != BOM by { assert |s| >= 4 ==> s[..3][0] == s[0] && BOM[0] == 0xEF as char; }
    SkipNothing(s);
    ValueRoundTrip(j, 0, fmt, [], 0);
    assert s + [] == s;
  }

  /** Two different trees never print alike: what a text says can be told from the text. */
  lemma PrintInjective(j: Json, k: Json, fmt: bool, layout: bool)
    requires Printable(j) && Printable(k) && Nesting(j) <= NESTING_LIMIT && Nesting(k) <= NESTING_LIMIT
    requires Print(j, 0, fmt) == Print(k, 0, layout)
    ensures j == k
  {
    RoundTrip(j, fmt, true);
    RoundTrip(k, layout, true);
  }
}
