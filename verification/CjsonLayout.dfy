/**
 The layout of `cJSON_Print`, told without looking at trees: what it puts between the characters of the text that
 `cJSON_PrintUnformatted` gives.
 */
module CjsonLayout {
  import opened CjsonString
  import opened CjsonTree
  import R = CjsonRoundTrip

  /**
   Lays out a compact text. `open` holds the brackets that are open, and `first` says that the last one is a brace
   with nothing behind it yet. A brace starts a new line, and so does a comma in an object, and the closing brace of
   an object that is not empty; a comma in an array is followed by a blank, and a colon by a tab; and a line starts
   with a tab for each bracket open around what stands first on it.
   */
  function Pretty(s: string, open: string, first: bool): string
    decreases |s|
  {
    if s == "" then ""
    else if s[0] == '}' then
      (if first then "" else "\n") + (Indent(Pred(|open|)) + (['}'] + Pretty(s[1..], Shut(open), false)))
    else
      (if first then Indent(|open|) else "")
      + if s[0] == '"' then
          var n := match Close(s[1..]) case Some(e) => e + 2 case None => |s|;
          s[..n] + Pretty(s[n..], open, false)
        else if s[0] == '{' then "{\n" + Pretty(s[1..], open + "{", true)
        else if s[0] == '[' then "[" + Pretty(s[1..], open + "[", false)
        else if s[0] == ']' then "]" + Pretty(s[1..], Shut(open), false)
        else if s[0] == ':' then ":\t" + Pretty(s[1..], open, false)
        else if s[0] == ',' then
          (if InObject(open) then ",\n" + Indent(|open|) else ", ") + Pretty(s[1..], open, false)
        else [s[0]] + Pretty(s[1..], open, false)
  }

  /** One tab for each level. */
  function Indent(n: nat): (s: string)
    ensures s == Tabs(n)
  {
    if n == 0 then "" else "\t" + Indent(n - 1)
  }

  function Pred(n: nat): nat { if n == 0 then 0 else n - 1 }

  function Shut(open: string): string { if open == "" then "" else open[..|open| - 1] }

  predicate InObject(open: string) { open != "" && open[|open| - 1] == '{' }

  predicate Simple(c: char) { c !in "\"{}[]:," }

  lemma {:induction false} PrettyWord(w: string, s: string, open: string)
    requires forall k :: 0 <= k < |w| ==> Simple(w[k])
    ensures Pretty(w + s, open, false) == w + Pretty(s, open, false)
  {
    hide Pretty;
    if w == "" {
      assert w + s == s && "" + Pretty(s, open, false) == Pretty(s, open, false);
    } else {
      assert (w + s)[1..] == w[1..] + s;
      PrettyWord(w[1..], s, open);
      OneSimple(w + s, open);
      assert [w[0]] + (w[1..] + Pretty(s, open, false)) == w + Pretty(s, open, false);
    }
  }

  lemma OneSimple(s: string, open: string)
    requires s != "" && Simple(s[0])
    ensures Pretty(s, open, false) == [s[0]] + Pretty(s[1..], open, false)
  {
  }

  /** A literal, at the start of a line or not. */
  lemma PrettyQuote(t: string, s: string, open: string, first: bool)
    requires '\0' !in t
    ensures Pretty(Quote(t) + s, open, first)
         == (if first then Tabs(|open|) else "") + (Quote(t) + Pretty(s, open, false))
  {
    hide Close, Escape;
    EscapeReadsBack(t, s);
    var q := Quote(t) + s;
    assert q[1..] == Escape(t) + (['"'] + s);
    assert q[..|Quote(t)|] == Quote(t) && q[|Quote(t)|..] == s;
  }

  /** One bracket, comma or colon. */
  lemma PrettyMark(c: char, s: string, open: string, first: bool)
    ensures c == '{' && !first ==> Pretty([c] + s, open, first) == "{\n" + Pretty(s, open + "{", true)
    ensures c == '[' && !first ==> Pretty([c] + s, open, first) == "[" + Pretty(s, open + "[", false)
    ensures c == ']' && !first ==> Pretty([c] + s, open, first) == "]" + Pretty(s, Shut(open), false)
    ensures c == '}' ==>
      Pretty([c] + s, open, first)
        == (if first then "" else "\n") + (Tabs(Pred(|open|)) + (['}'] + Pretty(s, Shut(open), false)))
    ensures c == ':' && !first ==> Pretty([c] + s, open, first) == ":\t" + Pretty(s, open, false)
    ensures c == ',' && !first ==>
      Pretty([c] + s, open, first)
        == (if InObject(open) then ",\n" + Tabs(|open|) else ", ") + Pretty(s, open, false)
  {
    assert ([c] + s)[1..] == s;
    assert forall t: string :: "" + t == t;
  }

  /** Laying out the compact text of a value gives its formatted text. */
  lemma {:induction false} ValueLaidOut(j: Json, open: string, s: string)
    requires Printable(j)
    ensures Pretty(Print(j, |open|, false) + s, open, false) == Print(j, |open|, true) + Pretty(s, open, false)
    decreases j
  {
    hide Pretty;
    match j
    case Null => PrettyWord("null", s, open);
    case False => PrettyWord("false", s, open);
    case True => PrettyWord("true", s, open);
    case Number(v) => PrettyWord(Numeral(v.Floor), s, open);
    case Text(t) =>
      PrettyQuote(t, s, open, false);
      assert "" + (Quote(t) + Pretty(s, open, false)) == Quote(t) + Pretty(s, open, false);
    case Array(items) => ArrayLaidOut(items, open, s);
    case Object(members) => ObjectLaidOut(members, open, s);
  }

  lemma {:induction false} ArrayLaidOut(items: seq<Json>, open: string, s: string)
    requires Printable(Array(items))
    ensures Pretty(Print(Array(items), |open|, false) + s, open, false)
         == Print(Array(items), |open|, true) + Pretty(s, open, false)
    decreases items, 1
  {
    hide Pretty, PrintItems;
    var inner := open + "[";
    var p, q := PrintItems(items, |open| + 1, false), PrintItems(items, |open| + 1, true);
    assert Shut(inner) == open;
    PrettyMark('[', p + ([']'] + s), open, false);
    ItemsLaidOut(items, inner, [']'] + s);
    PrettyMark(']', s, inner, false);
    assert Print(Array(items), |open|, false) + s == ['['] + (p + ([']'] + s));
    var rest := Pretty(s, open, false);
    assert "[" + (q + ("]" + rest)) == (['['] + q + [']']) + rest;
  }

  lemma {:induction false} ItemsLaidOut(items: seq<Json>, open: string, s: string)
    requires Printable(Array(items)) && open != "" && !InObject(open)
    ensures Pretty(PrintItems(items, |open|, false) + s, open, false)
         == PrintItems(items, |open|, true) + Pretty(s, open, false)
    decreases items, 0
  {
    hide Pretty, Print, PrintItems;
    if items == [] {
      R.PrintNothing(|open|, false);
      R.PrintNothing(|open|, true);
      assert "" + s == s && "" + Pretty(s, open, false) == Pretty(s, open, false);
    } else {
      var more := PrintItems(items[1..], |open|, false) + s;
      var end := Pretty(s, open, false);
      R.PrintItemsText(items, |open|, false, s);
      R.PrintItemsText(items, |open|, true, end);
      ItemsLaidOut(items[1..], open, s);
      ValueLaidOut(items[0], open, Comma(|items| > 1, ",") + more);
      if |items| > 1 {
        PrettyMark(',', more, open, false);
      } else {
        assert [] + more == more && [] + Pretty(more, open, false) == Pretty(more, open, false);
      }
    }
  }

  lemma ObjectTexts(members: seq<Member>, d: nat, s: string, rest: string)
    requires Printable(Object(members))
    ensures Print(Object(members), d, false) + s == ['{'] + (PrintMembers(members, d + 1, false) + (['}'] + s))
    ensures Print(Object(members), d, true) + rest
         == "{\n" + (PrintMembers(members, d + 1, true) + (Tabs(d) + (['}'] + rest)))
  {
    hide PrintMembers, Tabs;
    var p, q := PrintMembers(members, d + 1, false), PrintMembers(members, d + 1, true);
    assert Print(Object(members), d, false) == "{" + p + [] + ['}'];
    assert Print(Object(members), d, true) == "{\n" + q + Tabs(d) + ['}'];
  }

  lemma {:induction false} ObjectLaidOut(members: seq<Member>, open: string, s: string)
    requires Printable(Object(members))
    ensures Pretty(Print(Object(members), |open|, false) + s, open, false)
         == Print(Object(members), |open|, true) + Pretty(s, open, false)
    decreases members, 1
  {
    hide Pretty, Print, PrintMembers, Tabs;
    var inner := open + "{";
    var p, q := PrintMembers(members, |open| + 1, false), PrintMembers(members, |open| + 1, true);
    var rest := Pretty(s, open, false);
    var close := Tabs(|open|) + (['}'] + rest);
    assert Shut(inner) == open && Pred(|inner|) == |open|;
    ObjectTexts(members, |open|, s, rest);
    PrettyMark('{', p + (['}'] + s), open, false);
    if members == [] {
      PrettyMark('}', s, inner, true);
      NoMembersPrinted(|inner|);
      assert "" + (['}'] + s) == ['}'] + s && "" + close == close;
    } else {
      MembersLaidOut(members, inner, true, s, rest);
      var laid := Pretty(p + (['}'] + s), inner, true);
      assert "" + laid == laid;
    }
  }

  lemma NoMembersPrinted(depth: nat)
    ensures PrintMembers([], depth, false) == "" && PrintMembers([], depth, true) == ""
  {
  }

  /** A member in the compact text, and the same member in the layout, with what is behind it. */
  lemma MemberTexts(members: seq<Member>, d: nat, end: string, close: string)
    requires members != [] && Printable(Object(members))
    ensures var m, comma := members[0], Comma(|members| > 1, ",");
      && PrintMembers(members, d, false) + end
         == Quote(m.key) + (":" + (Print(m.value, d, false) + (comma + (PrintMembers(members[1..], d, false) + end))))
      && PrintMembers(members, d, true) + close
         == Tabs(d) + (Quote(m.key) + (":\t" + (Print(m.value, d, true)
                                                + (comma + ("\n" + (PrintMembers(members[1..], d, true) + close))))))
  {
    hide Print, Quote, Tabs;
    var m, comma := members[0], Comma(|members| > 1, ",");
    var p, q := PrintMembers(members[1..], d, false), PrintMembers(members[1..], d, true);
    assert PrintMembers(members, d, false)
        == [] + (Quote(m.key) + (":" + (Print(m.value, d, false) + (comma + ([] + p)))));
    assert PrintMembers(members, d, true)
        == Tabs(d) + (Quote(m.key) + (":\t" + (Print(m.value, d, true) + (comma + ("\n" + q)))));
    hide PrintMembers;
    Behind([], Quote(m.key), ":", Print(m.value, d, false), comma, [], p, end);
    Behind(Tabs(d), Quote(m.key), ":\t", Print(m.value, d, true), comma, "\n", q, close);
    assert [] + (p + end) == p + end;
    assert forall t: string :: [] + t == t;
  }

  lemma Behind(a: string, b: string, c: string, d: string, e: string, f: string, g: string, end: string)
    ensures (a + (b + (c + (d + (e + (f + g)))))) + end == a + (b + (c + (d + (e + (f + (g + end))))))
  {
    assert (e + (f + g)) + end == e + (f + (g + end));
    assert (c + (d + (e + (f + g)))) + end == c + (d + ((e + (f + g)) + end));
  }

  /** The members, the closing brace and what is behind it. */
  lemma {:induction false} MembersLaidOut(members: seq<Member>, open: string, first: bool, s: string, rest: string)
    requires members != [] && Printable(Object(members)) && InObject(open)
    requires rest == Pretty(s, Shut(open), false)
    ensures (if first then "" else Tabs(|open|))
            + Pretty(PrintMembers(members, |open|, false) + (['}'] + s), open, first)
         == PrintMembers(members, |open|, true) + (Tabs(Pred(|open|)) + (['}'] + rest))
    decreases members, 0
  {
    hide Pretty, Print, PrintMembers, Tabs, Quote;
    var m := members[0];
    var end, close := ['}'] + s, Tabs(Pred(|open|)) + (['}'] + rest);
    var tail := Comma(|members| > 1, ",") + (PrintMembers(members[1..], |open|, false) + end);
    var laid := Comma(|members| > 1, ",") + ("\n" + (PrintMembers(members[1..], |open|, true) + close));
    MemberTexts(members, |open|, end, close);
    MemberLaidOut(m, open, first, tail);
    if |members| > 1 {
      MembersLaidOut(members[1..], open, false, s, rest);
      NextLaidOut(PrintMembers(members[1..], |open|, false) + end, PrintMembers(members[1..], |open|, true) + close,
                  open);
    } else {
      NoMembersPrinted(|open|);
      PrettyMark('}', s, open, false);
      assert [] + ([] + end) == end && [] + ("\n" + ([] + close)) == "\n" + close;
    }
    Laid(if first then Tabs(|open|) else "", if first then "" else Tabs(|open|), Tabs(|open|),
         Quote(m.key), Print(m.value, |open|, true), laid);
  }

  lemma NextLaidOut(more: string, laid: string, open: string)
    requires InObject(open) && Tabs(|open|) + Pretty(more, open, false) == laid
    ensures Pretty([','] + more, open, false) == [','] + ("\n" + laid)
  {
    hide Pretty, Tabs;
    PrettyMark(',', more, open, false);
    assert ",\n" + Tabs(|open|) + Pretty(more, open, false)
        == [','] + ("\n" + (Tabs(|open|) + Pretty(more, open, false)));
  }

  lemma Laid(a: string, b: string, tabs: string, key: string, value: string, laid: string)
    requires (a == tabs && b == "") || (a == "" && b == tabs)
    ensures b + (a + (key + (":\t" + (value + laid)))) == tabs + (key + (":\t" + (value + laid)))
  {
  }

  /** Key, colon and value of one member. */
  lemma {:induction false} MemberLaidOut(m: Member, open: string, first: bool, tail: string)
    requires '\0' !in m.key && Printable(m.value)
    ensures Pretty(Quote(m.key) + (":" + (Print(m.value, |open|, false) + tail)), open, first)
         == (if first then Tabs(|open|) else "")
            + (Quote(m.key) + (":\t" + (Print(m.value, |open|, true) + Pretty(tail, open, false))))
    decreases m
  {
    hide Pretty, Print, Tabs, Quote;
    var value := Print(m.value, |open|, false) + tail;
    PrettyQuote(m.key, ":" + value, open, first);
    PrettyMark(':', value, open, false);
    ValueLaidOut(m.value, open, tail);
  }

  /** The whole text: `cJSON_Print` gives the laid out text of `cJSON_PrintUnformatted`. */
  lemma PrintIsPretty(j: Json)
    requires Printable(j)
    ensures Pretty(Print(j, 0, false), "", false) == Print(j, 0, true)
  {
    hide Print;
    ValueLaidOut(j, "", "");
    assert Print(j, 0, false) + "" == Print(j, 0, false) && Print(j, 0, true) + "" == Print(j, 0, true);
  }

  // ----- The compact text

  /** No numeral starts with a zero that is not all of it. */
  lemma {:induction false} NoLeadingZero(n: nat)
    ensures Decimal(n)[0] == '0' ==> n == 0 && |Decimal(n)| == 1
  {
    if n >= 10 {
      NoLeadingZero(n / 10);
      assert Decimal(n)[0] == Decimal(n / 10)[0];
    }
  }
}
