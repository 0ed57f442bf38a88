/**
 The language that the parser accepts, written down as syntax trees: what is accepted is what one of them spells,
 and it means what the tree means.
 */
module CjsonGrammar {
  import opened CjsonString
  import opened CjsonLiterals
  import opened CjsonTree
  import opened CjsonParse
  import opened CjsonRoundTrip
  import N = CjsonNumbers

  // ----- Syntax

  /** A value as it is written. `inside` is the white space of an empty array or object. */
  datatype Syntax =
    | Word(word: string)
    | Figure(numeral: N.Numeral)
    | InQuotes(body: string)
    | ListOf(inside: string, items: seq<Item>)
    | ObjectOf(inside: string, entries: seq<Entry>)

  /** An element or a member with the white space around its parts. */
  datatype Item = Item(before: string, value: Syntax, after: string)

  datatype Entry = Entry(before: string, key: string, mid: string, gap: string, value: Syntax, after: string)

  predicate Correct(x: Syntax) {
    match x
    case Word(w) => w == "null" || w == "false" || w == "true"
    case Figure(n) => N.WellFormed(n) && |N.Spelling(n)| <= 63 && (n.sign == "-" || (n.sign == "" && n.whole != ""))
    case InQuotes(body) => IsBody(body) && Unescape(body).Some?
    case ListOf(w, items) =>
      Blank(w) && (items != [] ==> w == "") && forall k :: 0 <= k < |items| ==> ItemCorrect(items[k])
    case ObjectOf(w, entries) =>
      Blank(w) && (entries != [] ==> w == "") && forall k :: 0 <= k < |entries| ==> EntryCorrect(entries[k])
  }

  predicate ItemCorrect(i: Item) { Blank(i.before) && Correct(i.value) && Blank(i.after) }

  predicate EntryCorrect(e: Entry) {
    && Blank(e.before) && IsBody(e.key) && Unescape(e.key).Some? && Blank(e.mid) && Blank(e.gap)
    && Correct(e.value) && Blank(e.after)
  }

  /** The text, with `rest` behind it. */
  function Spelled(x: Syntax, rest: string): string
    decreases x, 1
  {
    match x
    case Word(w) => w + rest
    case Figure(n) => N.Spelling(n) + rest
    case InQuotes(body) => Literally(body, rest)
    case ListOf(w, items) => ['['] + (w + SpelledItems(items, [']'] + rest))
    case ObjectOf(w, entries) => ['{'] + (w + SpelledEntries(entries, ['}'] + rest))
  }

  function SpelledItems(items: seq<Item>, rest: string): string
    decreases items, 0
  {
    if items == [] then rest
    else
      items[0].before
      + Spelled(items[0].value, items[0].after + (Comma(|items| > 1, ",") + SpelledItems(items[1..], rest)))
  }

  function SpelledEntries(entries: seq<Entry>, rest: string): string
    decreases entries, 0
  {
    if entries == [] then rest
    else
      var e := entries[0];
      e.before
      + Literally(e.key,
                  e.mid + ([':'] + (e.gap + Spelled(e.value, e.after + (Comma(|entries| > 1, ",")
                                                                       + SpelledEntries(entries[1..], rest))))))
  }

  /** What it means. */
  function Meaning(x: Syntax): Json
    requires Correct(x)
  {
    match x
    case Word(w) => if w == "null" then Null else if w == "false" then False else True
    case Figure(n) => Number(N.Value(n))
    case InQuotes(body) => Json.Text(CString(Unescape(body).value))
    case ListOf(_, items) => Array(MeaningOfItems(items))
    case ObjectOf(_, entries) => Object(MeaningOfEntries(entries))
  }

  function MeaningOfItems(items: seq<Item>): (r: seq<Json>)
    requires forall k :: 0 <= k < |items| ==> ItemCorrect(items[k])
    ensures |r| == |items|
  {
    if items == [] then []
    else
      assert ItemCorrect(items[0]);
      [Meaning(items[0].value)] + MeaningOfItems(items[1..])
  }

  function MeaningOfEntries(entries: seq<Entry>): (r: seq<Member>)
    requires forall k :: 0 <= k < |entries| ==> EntryCorrect(entries[k])
    ensures |r| == |entries|
  {
    if entries == [] then []
    else
      assert EntryCorrect(entries[0]);
      [Member(CString(Unescape(entries[0].key).value), Meaning(entries[0].value))] + MeaningOfEntries(entries[1..])
  }

  // ----- Everything that is spelled is accepted

  lemma Head(x: Syntax, rest: string)
    requires Correct(x)
    ensures var s := Spelled(x, rest); s != [] && s[0] as nat > 32 && s[0] != ']' && s[0] as nat < 0xEF
  {
    match x
    case Word(_) =>
    case Figure(n) => FigureHead(n, rest);
    case InQuotes(_) =>
    case ListOf(_, _) =>
    case ObjectOf(_, _) =>
  }

  lemma FigureHead(n: N.Numeral, rest: string)
    requires N.WellFormed(n) && (n.sign == "-" || (n.sign == "" && n.whole != ""))
    ensures var s := N.Spelling(n) + rest; s != [] && (s[0] == '-' || IsDigit(s[0]))
  {
    if n.sign == "" {
      assert IsDigit(n.whole[0]);
      assert N.Spelling(n)[0] == n.whole[0];
    }
  }

  lemma WordParses(w: string, rest: string, depth: nat)
    requires w == "null" || w == "false" || w == "true"
    ensures ParseValue(w + rest, depth)
         == Done(if w == "null" then Null else if w == "false" then False else True, rest)
  {
    var s := w + rest;
    assert s[..4][0] == w[0] && s[|w|..] == rest && s[..|w|] == w;
  }

  lemma FigureParses(n: N.Numeral, rest: string, depth: nat)
    requires Correct(Figure(n)) && Follows(rest)
    ensures ParseValue(Spelled(Figure(n), rest), depth) == Done(Number(N.Value(n)), rest)
  {
    hide ReadNumber, ParseValue, N.Value, N.Spelling;
    FigureHead(n, rest);
    N.ReadsNumerals(n, rest);
    Dispatch(N.Spelling(n) + rest, depth);
    assert (N.Spelling(n) + rest)[|N.Spelling(n)|..] == rest;
  }

  lemma LiteralParses(body: string, rest: string, depth: nat)
    requires Correct(InQuotes(body))
    ensures ParseValue(Literally(body, rest), depth) == Done(Meaning(InQuotes(body)), rest)
  {
    hide ReadString, ParseValue, IsBody, Unescape, CString;
    LiteralReads(body, rest);
    Dispatch(Literally(body, rest), depth);
  }

  /** Every correct text parses to what it means, exactly when it is not nested too deeply. */
  lemma {:induction false} Accepted(x: Syntax, rest: string, depth: nat)
    requires Correct(x) && depth <= NESTING_LIMIT && (x.Figure? ==> Follows(rest))
    ensures ParseValue(Spelled(x, rest), depth)
         == if depth + Nesting(Meaning(x)) <= NESTING_LIMIT then Done(Meaning(x), rest) else Fail
    decreases x, 1
  {
    match x
    case Word(w) => WordParses(w, rest, depth);
    case Figure(n) => FigureParses(n, rest, depth);
    case InQuotes(body) => LiteralParses(body, rest, depth);
    case ListOf(w, items) => ListAccepted(w, items, rest, depth);
    case ObjectOf(w, entries) => ObjectAccepted(w, entries, rest, depth);
  }

  /** An array behind its bracket and white space. */
  function ListFrom(t: string, depth: nat): Parsed {
    if Starts(t, ']') then Done(Array([]), t[1..])
    else match ParseItems(t, depth + 1) case NoItems => Fail case Items(items, after) => Done(Array(items), after)
  }

  lemma ListBegins(w: string, inner: string, depth: nat)
    requires Blank(w)
    ensures ParseValue(['['] + (w + inner), depth)
         == if depth >= NESTING_LIMIT then Fail else ListFrom(Skip(inner), depth)
  {
    hide ParseValue, ParseItems, Skip;
    var s := ['['] + (w + inner);
    Dispatch(s, depth);
    assert s[1..] == w + inner;
    SkipBlank(w, inner);
  }

  lemma ListParts(w: string, items: seq<Item>, rest: string)
    requires Correct(ListOf(w, items))
    ensures Blank(w) && (items != [] ==> w == "") && forall k :: 0 <= k < |items| ==> ItemCorrect(items[k])
    ensures Spelled(ListOf(w, items), rest) == ['['] + (w + SpelledItems(items, [']'] + rest))
  {
    hide Blank, ItemCorrect, SpelledItems;
  }

  lemma {:induction false} ListAccepted(w: string, items: seq<Item>, rest: string, depth: nat)
    requires Correct(ListOf(w, items)) && depth <= NESTING_LIMIT
    ensures ParseValue(Spelled(ListOf(w, items), rest), depth)
         == if depth + 1 + ItemsNesting(MeaningOfItems(items)) <= NESTING_LIMIT
            then Done(Array(MeaningOfItems(items)), rest) else Fail
    decreases items, 1
  {
    hide ParseValue, ParseItems, Skip, ItemsNesting, MeaningOfItems, Correct, ItemCorrect, Spelled, SpelledItems, Blank;
    ListParts(w, items, rest);
    ListBegins(w, SpelledItems(items, [']'] + rest), depth);
    if items == [] {
      NoItemsLeft(items, [']'] + rest);
      SkipNothing([']'] + rest);
      NestingOfNone();
      NoItemsMean();
    } else if depth < NESTING_LIMIT {
      ItemsAccepted(items, rest, depth + 1);
      ItemsSkip(items, [']'] + rest, depth + 1);
    }
  }

  lemma NoItemsMean()
    ensures MeaningOfItems([]) == [] && MeaningOfEntries([]) == []
  {
  }

  /** The white space in front of the first element makes no difference. */
  lemma ItemsSkip(items: seq<Item>, rest: string, depth: nat)
    requires items != [] && ItemCorrect(items[0])
    ensures var s := SpelledItems(items, rest);
      !Starts(Skip(s), ']') && ParseItems(Skip(s), depth) == ParseItems(s, depth)
  {
    hide ParseValue, Correct, Skip, Spelled, SpelledItems;
    var after := items[0].after + (Comma(|items| > 1, ",") + SpelledItems(items[1..], rest));
    var v := Spelled(items[0].value, after);
    assert SpelledItems(items, rest) == items[0].before + v by { FirstItem(items, rest); }
    SkipBlank(items[0].before, v);
    Head(items[0].value, after);
    SkipNothing(v);
  }

  lemma FirstItem(items: seq<Item>, rest: string)
    requires items != []
    ensures SpelledItems(items, rest)
         == items[0].before
            + Spelled(items[0].value, items[0].after + (Comma(|items| > 1, ",") + SpelledItems(items[1..], rest)))
  {
    hide Spelled;
  }

  /** What stands behind a value is no part of a number. */
  lemma AfterFollows(after: string, more: string)
    requires Blank(after) && more != [] && !NumberChar(more[0])
    ensures Follows(after + more)
  {
    assert after != "" ==> (after + more)[0] == after[0];
  }

  lemma {:induction false} ItemsAccepted(items: seq<Item>, rest: string, depth: nat)
    requires items != [] && (forall k :: 0 <= k < |items| ==> ItemCorrect(items[k])) && depth <= NESTING_LIMIT
    ensures ParseItems(SpelledItems(items, [']'] + rest), depth)
         == if depth + ItemsNesting(MeaningOfItems(items)) <= NESTING_LIMIT
            then Items(MeaningOfItems(items), rest) else NoItems
    decreases items, 0
  {
    hide ParseValue, Correct, Skip, Spelled, SpelledItems, Nesting, Meaning;
    var end := [']'] + rest;
    var i := items[0];
    var more := Comma(|items| > 1, ",") + SpelledItems(items[1..], end);
    var v := Spelled(i.value, i.after + more);
    FirstItem(items, end);
    Head(i.value, i.after + more);
    SkipBlank(i.before, v);
    SkipNothing(v);
    if |items| > 1 {
      ItemsAccepted(items[1..], rest, depth);
      assert more[1..] == SpelledItems(items[1..], end);
    } else {
      assert more == end by { NoItemsLeft(items[1..], end); }
      assert ItemsNesting(MeaningOfItems(items[1..])) == 0;
    }
    AfterFollows(i.after, more);
    Accepted(i.value, i.after + more, depth);
    SkipBlank(i.after, more);
    SkipNothing(more);
  }

  lemma NoItemsLeft(items: seq<Item>, rest: string)
    requires items == []
    ensures SpelledItems(items, rest) == rest
  {
  }

  function ObjectFrom(t: string, depth: nat): Parsed {
    if Starts(t, '}') then Done(Object([]), t[1..])
    else
      match ParseMembers(t, depth + 1)
      case NoMembers => Fail
      case Members(members, after) => Done(Object(members), after)
  }

  lemma ObjectBegins(w: string, inner: string, depth: nat)
    requires Blank(w)
    ensures ParseValue(['{'] + (w + inner), depth)
         == if depth >= NESTING_LIMIT then Fail else ObjectFrom(Skip(inner), depth)
  {
    hide ParseValue, ParseMembers, Skip;
    var s := ['{'] + (w + inner);
    Dispatch(s, depth);
    assert s[1..] == w + inner;
    SkipBlank(w, inner);
  }

  lemma ObjectParts(w: string, entries: seq<Entry>, rest: string)
    requires Correct(ObjectOf(w, entries))
    ensures Blank(w) && (entries != [] ==> w == "") && forall k :: 0 <= k < |entries| ==> EntryCorrect(entries[k])
    ensures Spelled(ObjectOf(w, entries), rest) == ['{'] + (w + SpelledEntries(entries, ['}'] + rest))
  {
    hide Blank, EntryCorrect, SpelledEntries;
  }

  lemma {:induction false} ObjectAccepted(w: string, entries: seq<Entry>, rest: string, depth: nat)
    requires Correct(ObjectOf(w, entries)) && depth <= NESTING_LIMIT
    ensures ParseValue(Spelled(ObjectOf(w, entries), rest), depth)
         == if depth + 1 + MembersNesting(MeaningOfEntries(entries)) <= NESTING_LIMIT
            then Done(Object(MeaningOfEntries(entries)), rest) else Fail
    decreases entries, 1
  {
    hide ParseValue, ParseMembers, Skip, MembersNesting, MeaningOfEntries, Correct, EntryCorrect, Blank;
    hide Spelled, SpelledEntries;
    ObjectParts(w, entries, rest);
    ObjectBegins(w, SpelledEntries(entries, ['}'] + rest), depth);
    if entries == [] {
      NoEntriesLeft(entries, ['}'] + rest);
      SkipNothing(['}'] + rest);
      NestingOfNone();
      NoItemsMean();
    } else if depth < NESTING_LIMIT {
      EntriesAccepted(entries, rest, depth + 1);
      EntriesSkip(entries, ['}'] + rest, depth + 1);
    }
  }

  /** What stands behind the key of the first member. */
  function AfterKey(entries: seq<Entry>, rest: string): string
    requires entries != []
  {
    var e := entries[0];
    e.mid + ([':'] + (e.gap + Spelled(e.value, AfterEntry(entries, rest))))
  }

  function AfterEntry(entries: seq<Entry>, rest: string): string
    requires entries != []
  {
    entries[0].after + (Comma(|entries| > 1, ",") + SpelledEntries(entries[1..], rest))
  }

  lemma FirstEntry(entries: seq<Entry>, rest: string)
    requires entries != []
    ensures SpelledEntries(entries, rest) == entries[0].before + Literally(entries[0].key, AfterKey(entries, rest))
  {
    hide Spelled;
  }

  lemma EntriesSkip(entries: seq<Entry>, rest: string, depth: nat)
    requires entries != [] && EntryCorrect(entries[0])
    ensures var s := SpelledEntries(entries, rest);
      !Starts(Skip(s), '}') && ParseMembers(Skip(s), depth) == ParseMembers(s, depth)
  {
    hide ParseValue, ReadString, Skip, Spelled, SpelledEntries, AfterKey;
    var v := Literally(entries[0].key, AfterKey(entries, rest));
    FirstEntry(entries, rest);
    SkipBlank(entries[0].before, v);
    SkipNothing(v);
  }

  /** From the first key to its value. */
  lemma EntryRead(entries: seq<Entry>, rest: string)
    requires entries != [] && EntryCorrect(entries[0])
    ensures var e := entries[0];
      var s, after := SpelledEntries(entries, rest), AfterKey(entries, rest);
      var value := Spelled(e.value, AfterEntry(entries, rest));
      && ReadString(Skip(s)) == Quoted(CString(Unescape(e.key).value), after)
      && Starts(Skip(after), ':') && Skip(Skip(after)[1..]) == value
  {
    hide ReadString, Skip, Spelled, SpelledEntries, Unescape, CString, IsBody, Correct, AfterEntry;
    var e := entries[0];
    var after, value := AfterKey(entries, rest), Spelled(e.value, AfterEntry(entries, rest));
    FirstEntry(entries, rest);
    SkipBlank(e.before, Literally(e.key, after));
    SkipNothing(Literally(e.key, after));
    LiteralReads(e.key, after);
    var colon := [':'] + (e.gap + value);
    SkipBlank(e.mid, colon);
    SkipNothing(colon);
    assert colon[1..] == e.gap + value;
    SkipBlank(e.gap, value);
    Head(e.value, AfterEntry(entries, rest));
    SkipNothing(value);
  }

  lemma {:induction false} EntriesAccepted(entries: seq<Entry>, rest: string, depth: nat)
    requires entries != [] && (forall k :: 0 <= k < |entries| ==> EntryCorrect(entries[k])) && depth <= NESTING_LIMIT
    ensures ParseMembers(SpelledEntries(entries, ['}'] + rest), depth)
         == if depth + MembersNesting(MeaningOfEntries(entries)) <= NESTING_LIMIT
            then Members(MeaningOfEntries(entries), rest) else NoMembers
    decreases entries, 0
  {
    hide ParseValue, ReadString, Correct, Skip, Spelled, SpelledEntries, Nesting, Meaning, Unescape, CString, AfterKey;
    var end := ['}'] + rest;
    var e := entries[0];
    var more := Comma(|entries| > 1, ",") + SpelledEntries(entries[1..], end);
    EntryRead(entries, end);
    if |entries| > 1 {
      EntriesAccepted(entries[1..], rest, depth);
      assert more[1..] == SpelledEntries(entries[1..], end);
    } else {
      assert more == end by { NoEntriesLeft(entries[1..], end); }
      assert MembersNesting(MeaningOfEntries(entries[1..])) == 0;
    }
    AfterFollows(e.after, more);
    Accepted(e.value, e.after + more, depth);
    SkipBlank(e.after, more);
    SkipNothing(more);
  }

  lemma NoEntriesLeft(entries: seq<Entry>, rest: string)
    requires entries == []
    ensures SpelledEntries(entries, rest) == rest
  {
  }

  // ----- Nothing else is accepted

  lemma {:induction false} SkipTaken(s: string) returns (w: string)
    ensures Blank(w) && s == w + Skip(s)
  {
    w := "";
    if s != [] && s[0] as nat <= 32 {
      var more := SkipTaken(s[1..]);
      w := [s[0]] + more;
    }
  }

  lemma WordTaken(s: string, w: string, depth: nat)
    requires (w == "null" || w == "false" || w == "true") && StartsWith(s, w)
    ensures s == Spelled(Word(w), s[|w|..]) && ParseValue(s, depth) == Done(Meaning(Word(w)), s[|w|..])
  {
    assert s == w + s[|w|..];
    WordParses(w, s[|w|..], depth);
  }

  lemma FigureTaken(s: string, depth: nat) returns (x: Syntax)
    requires s != [] && (s[0] == '-' || IsDigit(s[0])) && ParseValue(s, depth).Done?
    ensures Correct(x) && s == Spelled(x, ParseValue(s, depth).rest) && Meaning(x) == ParseValue(s, depth).value
  {
    hide ParseValue, ReadNumber, N.Value;
    Dispatch(s, depth);
    var n := N.ReadIsNumeral(s);
    x := Figure(n);
    assert s == N.Spelling(n) + s[|N.Spelling(n)|..];
    FirstOfNumeral(n, s);
  }

  lemma FirstOfNumeral(n: N.Numeral, s: string)
    requires N.WellFormed(n) && s != [] && |N.Spelling(n)| <= |s| && s[..|N.Spelling(n)|] == N.Spelling(n)
    requires s[0] == '-' || IsDigit(s[0])
    ensures n.sign == "-" || (n.sign == "" && n.whole != "")
  {
    assert N.Spelling(n) != "" && N.Spelling(n)[0] == s[0];
  }

  lemma LiteralTaken(s: string) returns (body: string)
    requires ReadString(s).Quoted?
    ensures IsBody(body) && Unescape(body).Some? && s == Literally(body, ReadString(s).rest)
    ensures ReadString(s).text == CString(Unescape(body).value)
  {
    hide Close, Unescape, CString;
    var e := Close(s[1..]).value;
    body := s[1..1 + e];
    CloseStays(s[1..], []);
    assert s[1..][..e + 1] + [] == body + ['"'];
    assert s == ['"'] + (body + (['"'] + s[e + 2..]));
  }

  /** Every accepted text is that of a syntax tree, with the same meaning. */
  lemma {:induction false} Understood(s: string, depth: nat) returns (x: Syntax)
    requires ParseValue(s, depth).Done?
    ensures Correct(x) && s == Spelled(x, ParseValue(s, depth).rest) && Meaning(x) == ParseValue(s, depth).value
    decreases |s|, 2
  {
    if StartsWith(s, "null") {
      WordTaken(s, "null", depth);
      x := Word("null");
    } else if StartsWith(s, "false") {
      WordTaken(s, "false", depth);
      x := Word("false");
    } else if StartsWith(s, "true") {
      WordTaken(s, "true", depth);
      x := Word("true");
    } else {
      x := OtherTaken(s, depth);
    }
  }

  lemma {:induction false} OtherTaken(s: string, depth: nat) returns (x: Syntax)
    requires ParseValue(s, depth).Done? && !StartsWith(s, "null") && !StartsWith(s, "false") && !StartsWith(s, "true")
    ensures Correct(x) && s == Spelled(x, ParseValue(s, depth).rest) && Meaning(x) == ParseValue(s, depth).value
    decreases |s|, 1
  {
    hide ReadString, ReadNumber, ParseArray, ParseObject;
    assert s != [] && (s[0] == '"' || s[0] == '-' || IsDigit(s[0]) || s[0] == '[' || s[0] == '{');
    hide ParseValue;
    Dispatch(s, depth);
    if s[0] == '"' {
      var body := LiteralTaken(s);
      x := InQuotes(body);
    } else if s[0] == '[' {
      x := ListTaken(s, depth);
    } else if s[0] == '{' {
      x := ObjectTaken(s, depth);
    } else {
      x := FigureTaken(s, depth);
    }
  }

  lemma {:induction false} ListTaken(s: string, depth: nat) returns (x: Syntax)
    requires Starts(s, '[') && ParseArray(s, depth).Done?
    ensures Correct(x) && s == Spelled(x, ParseArray(s, depth).rest) && Meaning(x) == ParseArray(s, depth).value
    decreases |s|, 0
  {
    hide ParseItems, Skip;
    var p := ParseArray(s, depth);
    var w := SkipTaken(s[1..]);
    var t := Skip(s[1..]);
    assert s == ['['] + (w + t);
    if Starts(t, ']') {
      assert t == [']'] + t[1..];
      x := ListOf(w, []);
      EmptyList(w, p.rest);
    } else {
      var items := ItemsTaken(t, depth + 1);
      hide ParseArray;
      items := ItemsBehind(w, items, [']'] + p.rest);
      x := ListOf("", items);
      WholeList(items, p.rest);
    }
  }

  lemma EmptyList(w: string, rest: string)
    requires Blank(w)
    ensures var x := ListOf(w, []);
      Correct(x) && Spelled(x, rest) == ['['] + (w + ([']'] + rest)) && Meaning(x) == Array([])
    ensures var x := ObjectOf(w, []);
      Correct(x) && Spelled(x, rest) == ['{'] + (w + (['}'] + rest)) && Meaning(x) == Object([])
  {
  }

  lemma WholeList(items: seq<Item>, rest: string)
    requires items != [] && forall k :: 0 <= k < |items| ==> ItemCorrect(items[k])
    ensures var x := ListOf("", items);
      && Correct(x) && Spelled(x, rest) == ['['] + SpelledItems(items, [']'] + rest)
      && Meaning(x) == Array(MeaningOfItems(items))
  {
    hide ItemCorrect, SpelledItems, MeaningOfItems;
    assert "" + SpelledItems(items, [']'] + rest) == SpelledItems(items, [']'] + rest);
  }

  /** White space in front belongs to the first element. */
  lemma ItemsBehind(w: string, items: seq<Item>, rest: string) returns (all: seq<Item>)
    requires Blank(w) && items != [] && forall k :: 0 <= k < |items| ==> ItemCorrect(items[k])
    ensures all != [] && forall k :: 0 <= k < |all| ==> ItemCorrect(all[k])
    ensures SpelledItems(all, rest) == w + SpelledItems(items, rest) && MeaningOfItems(all) == MeaningOfItems(items)
  {
    hide Correct, Spelled;
    var i := items[0];
    all := [Item(w + i.before, i.value, i.after)] + items[1..];
    assert all[1..] == items[1..];
    FirstItem(items, rest);
    FirstItem(all, rest);
  }

  lemma {:induction false} ItemsTaken(s: string, depth: nat) returns (items: seq<Item>)
    requires ParseItems(s, depth).Items?
    ensures items != [] && forall k :: 0 <= k < |items| ==> ItemCorrect(items[k])
    ensures s == SpelledItems(items, [']'] + ParseItems(s, depth).after)
    ensures MeaningOfItems(items) == ParseItems(s, depth).items
    decreases |s|, 3
  {
    hide ParseValue, Skip, Correct, Spelled, Meaning;
    var p := ParseItems(s, depth);
    var x := Skip(s);
    var before := SkipTaken(s);
    var v := Understood(x, depth);
    var rest := ParseValue(x, depth).rest;
    var t := Skip(rest);
    var after := SkipTaken(rest);
    var more: seq<Item> := [];
    assert t == [t[0]] + t[1..];
    if Starts(t, ',') { more := ItemsTaken(t[1..], depth); }
    hide ParseItems;
    items := [Item(before, v, after)] + more;
    assert items[1..] == more;
    OneMoreItem(items, [']'] + p.after);
  }

  lemma OneMoreItem(items: seq<Item>, end: string)
    requires items != []
    ensures |items| > 1 ==>
      SpelledItems(items, end)
        == items[0].before + Spelled(items[0].value, items[0].after + ([','] + SpelledItems(items[1..], end)))
    ensures |items| == 1 ==> SpelledItems(items, end) == items[0].before + Spelled(items[0].value, items[0].after + end)
  {
    hide Spelled;
    FirstItem(items, end);
    if |items| == 1 {
      NoItemsLeft(items[1..], end);
      assert [] + end == end;
    }
  }

  lemma {:induction false} ObjectTaken(s: string, depth: nat) returns (x: Syntax)
    requires Starts(s, '{') && ParseObject(s, depth).Done?
    ensures Correct(x) && s == Spelled(x, ParseObject(s, depth).rest) && Meaning(x) == ParseObject(s, depth).value
    decreases |s|, 0
  {
    hide ParseMembers, Skip;
    var p := ParseObject(s, depth);
    var w := SkipTaken(s[1..]);
    var t := Skip(s[1..]);
    assert s == ['{'] + (w + t);
    if Starts(t, '}') {
      assert t == ['}'] + t[1..];
      x := ObjectOf(w, []);
      EmptyList(w, p.rest);
    } else {
      var entries := EntriesTaken(t, depth + 1);
      hide ParseObject;
      entries := EntriesBehind(w, entries, ['}'] + p.rest);
      x := ObjectOf("", entries);
      WholeObject(entries, p.rest);
    }
  }

  lemma WholeObject(entries: seq<Entry>, rest: string)
    requires entries != [] && forall k :: 0 <= k < |entries| ==> EntryCorrect(entries[k])
    ensures var x := ObjectOf("", entries);
      && Correct(x) && Spelled(x, rest) == ['{'] + SpelledEntries(entries, ['}'] + rest)
      && Meaning(x) == Object(MeaningOfEntries(entries))
  {
    hide EntryCorrect, SpelledEntries, MeaningOfEntries;
    assert "" + SpelledEntries(entries, ['}'] + rest) == SpelledEntries(entries, ['}'] + rest);
  }

  lemma EntriesBehind(w: string, entries: seq<Entry>, rest: string) returns (all: seq<Entry>)
    requires Blank(w) && entries != [] && forall k :: 0 <= k < |entries| ==> EntryCorrect(entries[k])
    ensures all != [] && forall k :: 0 <= k < |all| ==> EntryCorrect(all[k])
    ensures SpelledEntries(all, rest) == w + SpelledEntries(entries, rest)
    ensures MeaningOfEntries(all) == MeaningOfEntries(entries)
  {
    hide Correct, Spelled, IsBody, Unescape, CString;
    var e := entries[0];
    all := [e.(before := w + e.before)] + entries[1..];
    assert all[1..] == entries[1..];
    FirstEntry(entries, rest);
    FirstEntry(all, rest);
  }

  lemma {:induction false} EntriesTaken(s: string, depth: nat) returns (entries: seq<Entry>)
    requires ParseMembers(s, depth).Members?
    ensures entries != [] && forall k :: 0 <= k < |entries| ==> EntryCorrect(entries[k])
    ensures s == SpelledEntries(entries, ['}'] + ParseMembers(s, depth).after)
    ensures MeaningOfEntries(entries) == ParseMembers(s, depth).members
    decreases |s|, 3
  {
    hide ParseValue, ReadString, Skip, Correct, Spelled, Meaning, IsBody, Unescape, CString;
    var p := ParseMembers(s, depth);
    var x := Skip(s);
    var before := SkipTaken(s);
    var key := LiteralTaken(x);
    var afterKey := ReadString(x).rest;
    var mid := SkipTaken(afterKey);
    var colon := Skip(afterKey);
    assert colon == [':'] + colon[1..];
    var gap := SkipTaken(colon[1..]);
    var y := Skip(colon[1..]);
    var v := Understood(y, depth);
    var rest := ParseValue(y, depth).rest;
    var t := Skip(rest);
    var after := SkipTaken(rest);
    var more: seq<Entry> := [];
    assert t == [t[0]] + t[1..];
    if Starts(t, ',') { more := EntriesTaken(t[1..], depth); }
    hide ParseMembers;
    entries := [Entry(before, key, mid, gap, v, after)] + more;
    assert entries[1..] == more;
    OneMoreEntry(entries, ['}'] + p.after);
  }

  lemma OneMoreEntry(entries: seq<Entry>, end: string)
    requires entries != []
    ensures var e := entries[0];
      && (|entries| > 1 ==> AfterEntry(entries, end) == e.after + ([','] + SpelledEntries(entries[1..], end)))
      && (|entries| == 1 ==> AfterEntry(entries, end) == e.after + end)
      && SpelledEntries(entries, end)
         == e.before + Literally(e.key, e.mid + ([':'] + (e.gap + Spelled(e.value, AfterEntry(entries, end)))))
  {
    hide Spelled;
    FirstEntry(entries, end);
    if |entries| == 1 { NoEntriesLeft(entries[1..], end); }
  }

  // ----- The whole text

  /** The text is a byte order mark, or none, white space, a value that means `v`, and white space. */
  ghost predicate Says(text: string, v: Json) {
    exists mark, before, x, after :: Reading(text, mark, before, x, after) && Meaning(x) == v
  }

  predicate Reading(text: string, mark: string, before: string, x: Syntax, after: string) {
    && (mark == "" || (mark == BOM && |text| >= 4)) && Blank(before) && Correct(x) && Blank(after)
    && text == mark + (before + Spelled(x, after))
  }

  /** Exactly the texts that say something not nested too deeply are accepted, for what they say. */
  lemma ParsesExactly(text: string, v: Json)
    ensures Parse(text, true) == Done(v, []) <==> Says(text, v) && Nesting(v) <= NESTING_LIMIT
  {
    hide Parse, Correct, Nesting, Meaning;
    if Parse(text, true) == Done(v, []) {
      SaysIt(text, v);
    }
    if Says(text, v) && Nesting(v) <= NESTING_LIMIT {
      var mark, before, x, after :| Reading(text, mark, before, x, after) && Meaning(x) == v;
      IsAccepted(text, mark, before, x, after);
    }
  }

  lemma SaysIt(text: string, v: Json)
    requires Parse(text, true) == Done(v, [])
    ensures Says(text, v) && Nesting(v) <= NESTING_LIMIT
  {
    hide ParseValue, Correct, Nesting, Spelled, Skip;
    var s := SkipBom(text);
    var mark := if s == text then "" else BOM;
    var before := SkipTaken(s);
    var x := Understood(Skip(s), 0);
    var after := ParseValue(Skip(s), 0).rest;
    var w := SkipTaken(after);
    assert w + [] == w;
    assert text == mark + s by { Marked(text); }
    assert Reading(text, mark, before, x, after);
    NotTooDeep(x, after);
  }

  lemma Marked(text: string)
    ensures var s := SkipBom(text); text == (if s == text then "" else BOM) + s && (s != text ==> |text| >= 4)
  {
    assert "" + text == text;
    if |text| >= 4 && text[..3] == BOM { assert text == BOM + text[3..] && |text[3..]| < |text|; }
  }

  lemma NotTooDeep(x: Syntax, rest: string)
    requires Correct(x) && ParseValue(Spelled(x, rest), 0).Done?
    ensures Nesting(Meaning(x)) <= NESTING_LIMIT
  {
    hide ParseValue, Correct, Spelled;
    if !x.Figure? { Accepted(x, rest, 0); }
  }

  lemma IsAccepted(text: string, mark: string, before: string, x: Syntax, after: string)
    requires Reading(text, mark, before, x, after) && Nesting(Meaning(x)) <= NESTING_LIMIT
    ensures Parse(text, true) == Done(Meaning(x), [])
  {
    hide ParseValue, Correct, Nesting, Spelled, Skip, Meaning;
    var v := Spelled(x, after);
    var s := before + v;
    Head(x, after);
    assert SkipBom(text) == s by { Unmarked(text, mark, s); }
    SkipBlank(before, v);
    SkipNothing(v);
    Accepted(x, after, 0);
    SkipBlank(after, []);
    assert after + [] == after;
    SkipNothing([]);
  }

  lemma Unmarked(text: string, mark: string, s: string)
    requires (mark == "" || (mark == BOM && |text| >= 4)) && text == mark + s && s != [] && s[0] as nat < 0xEF
    ensures SkipBom(text) == s
  {
    if mark == "" {
      assert text == s;
      assert |text| >= 4 ==> text[..3][0] == s[0];
    } else {
      assert text[..3] == BOM && text[3..] == s;
    }
  }
}
