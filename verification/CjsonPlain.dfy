/** Which strings `cJSON_Minify` can change: those that end in a backslash, and no others. */
module CjsonPlain {
  import opened Options
  import opened CjsonString
  import opened CjsonLiterals
  import opened CjsonTree
  import opened CjsonParse
  import opened CjsonRoundTrip
  import opened CjsonMinify

  // ----- Literals in any accepted text

  /** No string literal of the text, other than those spelled `b`, ends in a backslash. */
  predicate PlainBut(s: string, b: string)
    decreases |s|
  {
    if s == [] then true
    else if s[0] == '"' then
      match Close(s[1..])
      case None => true
      case Some(e) => (s[1..1 + e] == b || !EndsInBackslash(s[1..1 + e])) && PlainBut(s[e + 2..], b)
    else PlainBut(s[1..], b)
  }

  /** Minifying leaves the meaning of every accepted text alone in which, if anything, only literals spelled `b`
      end in a backslash. */
  ghost predicate Kept(b: string) {
    forall text :: Parse(text, true).Done? && PlainBut(text, b) ==> Parse(Minified(text), true) == Parse(text, true)
  }

  lemma {:induction false} PlainButIsPlain(s: string, b: string)
    requires !EndsInBackslash(b)
    ensures PlainBut(s, b) <==> Plain(s)
    decreases |s|
  {
    hide Close;
    if s != [] && s[0] == '"' && Close(s[1..]).Some? {
      PlainButIsPlain(s[Close(s[1..]).value + 2..], b);
    } else if s != [] && s[0] != '"' {
      PlainButIsPlain(s[1..], b);
    }
  }

  /** An array of the literal with body `b` and the text `x`. */
  function Pair(b: string, x: string): string { ['['] + Literally(b, [','] + (Quote(x) + [']'])) }

  lemma PairParses(b: string, x: string)
    requires IsBody(b) && Unescape(b).Some? && '\0' !in x
    ensures Parse(Pair(b, x), true) == Done(Array([Json.Text(CString(Unescape(b).value)), Json.Text(x)]), [])
  {
    hide Unescape, CString, IsBody, ReadString, ParseValue, Skip;
    var last := Quote(x) + [']'];
    var s := Literally(b, [','] + last);
    LiteralReads(b, [','] + last);
    Dispatch(s, 1);
    SkipNothing(s);
    SkipNothing([','] + last);
    LastReads(x);
    assert ([','] + last)[1..] == last;
    ItemsPair(b, x);
  }

  lemma ItemsPair(b: string, x: string)
    requires Unescape(b).Some?
    requires ParseItems(Literally(b, [','] + (Quote(x) + [']'])), 1)
          == Items([Json.Text(CString(Unescape(b).value)), Json.Text(x)], [])
    ensures Parse(Pair(b, x), true) == Done(Array([Json.Text(CString(Unescape(b).value)), Json.Text(x)]), [])
  {
    hide Unescape, CString, ParseValue, Skip, ParseItems;
    var text := Pair(b, x);
    var s := Literally(b, [','] + (Quote(x) + [']']));
    assert text[1..] == s;
    assert |text| >= 4 ==> text[..3] != BOM by { assert text[..3][0] == text[0] && BOM[0] == 0xEF as char; }
    SkipNothing(text);
    SkipNothing(s);
    SkipNothing([]);
    Dispatch(text, 0);
  }

  lemma LastReads(x: string)
    requires '\0' !in x
    ensures ParseItems(Quote(x) + [']'], 1) == Items([Json.Text(x)], [])
  {
    hide ParseItems, Quote;
    var items := [Json.Text(x)];
    assert items[1..] == [] && ItemsNesting([]) == 0 && Nesting(items[0]) == 0;
    assert PrintItems([], 1, false) == [];
    assert PrintItems(items, 1, false) == Quote(x);
    ItemsRoundTrip(items, 1, false, [], [], 1);
    assert [] + (PrintItems(items, 1, false) + ([']'] + [])) == Quote(x) + [']'];
  }

  /** The minifier takes the quote behind `b` for an escaped one and the next opening quote for the end, so that
      the blank after it stands outside, and goes. */
  lemma PairMinified(b: string)
    requires IsBody(b) && EndsInBackslash(b)
    ensures Minified(Pair(b, " ")) == Pair(b, "")
  {
    hide Minified, IsBody, EndsInBackslash;
    assert Quote(" ") + [']'] == "\" \"]" && Quote("") + [']'] == "\"\"]";
    var s := Literally(b, ",\" \"]");
    assert Pair(b, " ") == ['['] + s && Pair(b, " ")[1..] == s;
    OrdinaryHead(Pair(b, " "));
    StringsMinified(b);
    assert Literally(b, ",\"\"]") == ['"'] + (b + "\",\"\"]");
  }

  lemma StringsMinified(b: string)
    requires IsBody(b) && EndsInBackslash(b)
    ensures Minified(Literally(b, ",\" \"]")) == ['"'] + (b + "\",\"\"]")
  {
    hide Minified, Span, IsBody, EndsInBackslash;
    var s := Literally(b, ",\" \"]");
    var first := ['"'] + (b + "\",\"");
    SpanOfBody(b, ",\" \"]");
    SpanToQuote();
    MinifiedString(s);
    assert s == first + " \"]" && s[..|first|] == first && s[|first|..] == " \"]";
    BlankEnd();
    assert first + "\"]" == ['"'] + (b + "\",\"\"]");
  }

  lemma SpanOfBody(b: string, rest: string)
    requires IsBody(b) && EndsInBackslash(b)
    ensures Span(Literally(b, rest)[1..]) == |b| + 1 + Span(rest)
  {
    hide Close, Span;
    BodyStays(b, rest);
    var s := b + (['"'] + rest);
    assert Literally(b, rest)[1..] == s && s[..|b|] == b && s[|b| + 1..] == rest;
    SpanPastClose(s);
  }

  lemma SpanToQuote()
    ensures Span(",\" \"]") == 2
  {
    hide Span;
    var s := ",\" \"]";
    assert s[0..] == s;
    SpanAt(s, 0);
    SpanAt(s, 1);
  }

  lemma BlankEnd()
    ensures Minified(" \"]") == "\"]"
  {
    hide Minified, Span;
    var s := " \"]";
    assert s[0..] == s && s[3..] == [] && s[1..3] == "\"]";
    MinifiedAt(s, 0);
    MinifiedAt(s, 1);
    SpanAt(s, 2);
    SpanOfNothing();
    MinifiedNothing();
  }

  lemma PairPlainBut(b: string)
    requires IsBody(b)
    ensures PlainBut(Pair(b, " "), b)
  {
    hide Close, PlainBut;
    var rest := [','] + (Quote(" ") + [']']);
    BodyStays(b, rest);
    var s := Literally(b, rest);
    assert s[1..] == b + (['"'] + rest) && s[1..1 + |b|] == b && s[|b| + 2..] == rest;
    assert Pair(b, " ")[1..] == s;
    PlainButStep(Pair(b, " "), b);
    PlainButStep(s, b);
    BlankPlain(b);
  }

  lemma BlankPlain(b: string)
    ensures PlainBut([','] + (Quote(" ") + [']']), b)
  {
    hide PlainBut;
    var s := "\" \"]";
    assert Quote(" ") + [']'] == s;
    assert ([','] + s)[1..] == s;
    PlainButStep([','] + s, b);
    assert s[1..][1..] == s[2..];
    assert Close(s[2..]) == Some(0) && Close(s[1..]) == Some(1);
    PlainButStep(s, b);
    assert s[3..] == "]";
    PlainButStep("]", b);
    assert "]"[1..] == [];
    PlainButNothing(b);
  }

  lemma PlainButNothing(b: string)
    ensures PlainBut([], b)
  {
  }

  lemma PlainButStep(s: string, b: string)
    requires s != []
    ensures s[0] != '"' ==> PlainBut(s, b) == PlainBut(s[1..], b)
    ensures s[0] == '"' && Close(s[1..]).Some? ==>
      var e := Close(s[1..]).value;
      PlainBut(s, b) == ((s[1..1 + e] == b || !EndsInBackslash(s[1..1 + e])) && PlainBut(s[e + 2..], b))
  {
  }

  /** A literal is safe, in every text that is plain but for it, exactly when it does not end in a backslash. */
  lemma KeptExactly(b: string)
    requires IsBody(b) && Unescape(b).Some?
    ensures Kept(b) <==> !EndsInBackslash(b)
  {
    hide Minified, Parse, Plain, PlainBut, IsBody, Unescape, CString;
    if EndsInBackslash(b) {
      PairParses(b, " ");
      PairParses(b, "");
      PairPlainBut(b);
      PairMinified(b);
    } else {
      forall text | Parse(text, true).Done? && PlainBut(text, b)
        ensures Parse(Minified(text), true) == Parse(text, true)
      {
        PlainButIsPlain(text, b);
        MinifiedParses(text);
      }
    }
  }

  // ----- Printed trees

  /** No text and no key ends in a backslash, but for those that are `t`. */
  predicate EndsWell(j: Json, t: string) {
    match j
    case Text(u) => u == t || !EndsInBackslash(u)
    case Array(items) => forall k :: 0 <= k < |items| ==> EndsWell(items[k], t)
    case Object(members) => forall k :: 0 <= k < |members| ==> MemberEndsWell(members[k], t)
    case _ => true
  }

  predicate MemberEndsWell(m: Member, t: string) {
    (m.key == t || !EndsInBackslash(m.key)) && EndsWell(m.value, t)
  }

  /** Whatever follows, `p` is minified to `q`, and no literal in it ends in a backslash, if `well` holds; and if
      it does not, a literal does. */
  ghost predicate Reduces(p: string, q: string, well: bool) {
    forall s :: Lessens(p, q, well, s)
  }

  ghost predicate Lessens(p: string, q: string, well: bool, s: string) {
    (Plain(p + s) <==> well && Plain(s)) && (well ==> Minified(p + s) == q + Minified(s))
  }

  lemma Joined(p: string, q: string, well: bool, more: string, less: string, fine: bool)
    requires Reduces(p, q, well) && Reduces(more, less, fine)
    ensures Reduces(p + more, q + less, well && fine)
  {
    hide Plain, Minified;
    var both := well && fine;
    forall s ensures Lessens(p + more, q + less, both, s) {
      assert Lessens(p, q, well, more + s) && Lessens(more, less, fine, s);
      assert (p + more) + s == p + (more + s);
      assert (q + less) + Minified(s) == q + (less + Minified(s));
    }
  }

  lemma OrdinaryReduces(w: string)
    requires forall k :: 0 <= k < |w| ==> Ordinary(w[k])
    ensures Reduces(w, w, true)
  {
    hide Plain, Minified;
    forall s ensures Lessens(w, w, true, s) { OrdinaryKept(w, s); }
  }

  lemma {:induction false} WhiteGoes(w: string, s: string)
    requires forall k :: 0 <= k < |w| ==> White(w[k])
    ensures Minified(w + s) == Minified(s) && Plain(w + s) == Plain(s)
  {
    if w == [] {
      assert w + s == s;
    } else {
      assert (w + s)[1..] == w[1..] + s;
      WhiteGoes(w[1..], s);
    }
  }

  lemma WhiteReduces(w: string)
    requires forall k :: 0 <= k < |w| ==> White(w[k])
    ensures Reduces(w, [], true)
  {
    hide Plain, Minified;
    forall s ensures Lessens(w, [], true, s) {
      WhiteGoes(w, s);
      assert [] + Minified(s) == Minified(s);
    }
  }

  lemma {:induction false} LastEscaped(t: string)
    ensures EndsInBackslash(Escape(t)) <==> EndsInBackslash(t)
  {
    if |t| == 1 {
      assert t[1..] == [] && Escape([]) == [];
      assert Escape(t) == EscapeChar(t[0]);
    } else if t != [] {
      LastEscaped(t[1..]);
      var e := EscapeChar(t[1]);
      assert Escape(t[1..]) == e + Escape(t[1..][1..]);
    }
  }

  lemma QuoteReduces(t: string)
    requires '\0' !in t
    ensures Reduces(Quote(t), Quote(t), !EndsInBackslash(t))
  {
    hide Plain, Minified, Escape;
    LastEscaped(t);
    var q, well := Quote(t), !EndsInBackslash(t);
    forall s ensures Lessens(q, q, well, s) { QuoteLessens(t, s); }
  }

  lemma PlainAtQuote(s: string)
    requires Starts(s, '"') && Close(s[1..]).Some?
    ensures var e := Close(s[1..]).value; Plain(s) <==> !EndsInBackslash(s[1..][..e]) && Plain(s[e + 2..])
  {
    hide Close;
    var e := Close(s[1..]).value;
    assert e > 0 ==> s[1..][..e][e - 1] == s[e];
  }

  lemma QuoteLessens(t: string, rest: string)
    requires '\0' !in t && (EndsInBackslash(Escape(t)) <==> EndsInBackslash(t))
    ensures Lessens(Quote(t), Quote(t), !EndsInBackslash(t), rest)
  {
    hide Close, Minified, Span, Escape, Plain, EndsInBackslash;
    EscapeReadsBack(t, rest);
    var b := Escape(t);
    var s := Quote(t) + rest;
    assert s[1..] == b + (['"'] + rest) && s[1..][..|b|] == b && s[|b| + 2..] == rest && s[..|b| + 2] == Quote(t);
    PlainAtQuote(s);
    if !EndsInBackslash(b) {
      SpanPastClose(s[1..]);
      MinifiedString(s);
    }
  }

  /** Printing with either layout. */
  lemma {:induction false} PrintReduces(j: Json, d: nat, fmt: bool)
    requires Printable(j)
    ensures Reduces(Print(j, d, fmt), Print(j, d, false), EndsWell(j, ""))
    decreases j
  {
    hide Reduces;
    match j
    case Null => OrdinaryReduces("null");
    case False => OrdinaryReduces("false");
    case True => OrdinaryReduces("true");
    case Number(v) => OrdinaryReduces(Numeral(v.Floor));
    case Text(t) => QuoteReduces(t);
    case Array(items) =>
      OrdinaryReduces("[");
      ItemsReduce(items, d + 1, fmt);
      OrdinaryReduces("]");
      var p, q := PrintItems(items, d + 1, fmt), PrintItems(items, d + 1, false);
      Joined(['['], ['['], true, p, q, EndsWell(j, ""));
      Joined(['['] + p, ['['] + q, EndsWell(j, ""), [']'], [']'], true);
    case Object(members) =>
      ObjectReduces(members, d, fmt);
  }

  lemma {:induction false} ItemsReduce(items: seq<Json>, d: nat, fmt: bool)
    requires Printable(Array(items))
    ensures Reduces(PrintItems(items, d, fmt), PrintItems(items, d, false), EndsWell(Array(items), ""))
    decreases items, 0
  {
    hide Reduces, Print;
    if items == [] {
      OrdinaryReduces([]);
    } else {
      var more := |items| > 1;
      var p, q, well := Print(items[0], d, fmt), Print(items[0], d, false), EndsWell(items[0], "");
      var c, e := Comma(more, if fmt then ", " else ","), Comma(more, ",");
      PrintReduces(items[0], d, fmt);
      CommaReduces(more, fmt);
      Joined(p, q, well, c, e, true);
      ItemsReduce(items[1..], d, fmt);
      Joined(p + c, q + e, well, PrintItems(items[1..], d, fmt), PrintItems(items[1..], d, false),
             EndsWell(Array(items[1..]), ""));
    }
  }

  lemma CommaReduces(more: bool, fmt: bool)
    ensures Reduces(Comma(more, if fmt then ", " else ","), Comma(more, ","), true)
  {
    hide Reduces;
    OrdinaryReduces(Comma(more, ","));
    if more && fmt {
      WhiteReduces(" ");
      Joined(",", ",", true, " ", "", true);
      assert "," + " " == ", " && "," + "" == ",";
    }
  }

  lemma {:induction false} ObjectReduces(members: seq<Member>, d: nat, fmt: bool)
    requires Printable(Object(members))
    ensures Reduces(Print(Object(members), d, fmt), Print(Object(members), d, false), EndsWell(Object(members), ""))
    decreases members, 1
  {
    hide Reduces, PrintMembers;
    var well := EndsWell(Object(members), "");
    var p, q := PrintMembers(members, d + 1, fmt), PrintMembers(members, d + 1, false);
    var open, indent := if fmt then "{\n" else "{", if fmt then Tabs(d) else [];
    OpenReduces(fmt);
    MembersReduce(members, d + 1, fmt);
    WhiteReduces(indent);
    OrdinaryReduces("}");
    Joined(open, "{", true, p, q, well);
    Joined(open + p, "{" + q, well, indent, [], true);
    Joined(open + p + indent, "{" + q + [], well, ['}'], ['}'], true);
  }

  lemma OpenReduces(fmt: bool)
    ensures Reduces(if fmt then "{\n" else "{", "{", true)
  {
    hide Reduces;
    OrdinaryReduces("{");
    WhiteReduces("\n");
    Joined("{", "{", true, "\n", "", true);
    assert "{" + "\n" == "{\n" && "{" + "" == "{";
  }

  lemma ColonReduces(fmt: bool)
    ensures Reduces(if fmt then ":\t" else ":", ":", true)
  {
    hide Reduces;
    OrdinaryReduces(":");
    WhiteReduces("\t");
    Joined(":", ":", true, "\t", "", true);
    assert ":" + "\t" == ":\t" && ":" + "" == ":";
  }

  lemma {:induction false} MembersReduce(members: seq<Member>, d: nat, fmt: bool)
    requires Printable(Object(members))
    ensures Reduces(PrintMembers(members, d, fmt), PrintMembers(members, d, false), EndsWell(Object(members), ""))
    decreases members, 0
  {
    hide Reduces, Print, Quote, Tabs;
    if members == [] {
      OrdinaryReduces([]);
    } else {
      var m, rest := members[0], members[1..];
      var tabs, nl := if fmt then Tabs(d) else [], if fmt then "\n" else [];
      var c := Comma(|members| > 1, ",");
      var p0, q0 := PrintMembers(rest, d, fmt), PrintMembers(rest, d, false);
      var well0, well := EndsWell(Object(rest), ""), EndsWell(m.value, "");
      MembersReduce(rest, d, fmt);
      WhiteReduces(nl);
      Joined(nl, [], true, p0, q0, well0);
      OrdinaryReduces(c);
      Joined(c, c, true, nl + p0, [] + q0, well0);
      PrintReduces(m.value, d, fmt);
      var p1, q1 := c + (nl + p0), c + ([] + q0);
      Joined(Print(m.value, d, fmt), Print(m.value, d, false), well, p1, q1, well0);
      var p2, q2 := Print(m.value, d, fmt) + p1, Print(m.value, d, false) + q1;
      ColonReduces(fmt);
      Joined(if fmt then ":\t" else ":", ":", true, p2, q2, well && well0);
      QuoteReduces(m.key);
      var p3, q3 := (if fmt then ":\t" else ":") + p2, ":" + q2;
      Joined(Quote(m.key), Quote(m.key), !EndsInBackslash(m.key), p3, q3, well && well0);
      WhiteReduces(tabs);
      Joined(tabs, [], true, Quote(m.key) + p3, Quote(m.key) + q3, MemberEndsWell(m, "") && well0);
    }
  }

  /** Minifying the layout of `cJSON_Print` gives that of `cJSON_PrintUnformatted`, if no text and no key ends in
      a backslash, and that can be seen from the printed text. */
  lemma PrintMinified(j: Json, d: nat, fmt: bool, rest: string)
    requires Printable(j)
    ensures Plain(Print(j, d, fmt) + rest) <==> EndsWell(j, "") && Plain(rest)
    ensures EndsWell(j, "") ==> Minified(Print(j, d, fmt) + rest) == Print(j, d, false) + Minified(rest)
  {
    hide Plain, Minified;
    PrintReduces(j, d, fmt);
    assert Lessens(Print(j, d, fmt), Print(j, d, false), EndsWell(j, ""), rest);
  }

  lemma MinifiedLayout(j: Json, fmt: bool)
    requires Printable(j)
    ensures Plain(Print(j, 0, fmt)) <==> EndsWell(j, "")
    ensures EndsWell(j, "") ==> Minified(Print(j, 0, fmt)) == Print(j, 0, false)
  {
    hide Minified, Print;
    PrintMinified(j, 0, fmt, []);
    MinifiedNothing();
    assert Print(j, 0, fmt) + [] == Print(j, 0, fmt) && Print(j, 0, false) + [] == Print(j, 0, false);
  }

  /** Minifying leaves every printed tree what it was in which, if anything, only the text or key `t` ends in a
      backslash. */
  ghost predicate TreesKept(t: string) {
    forall j, fmt :: Printable(j) && Nesting(j) <= NESTING_LIMIT && EndsWell(j, t) ==> TreeKept(j, fmt)
  }

  predicate TreeKept(j: Json, fmt: bool)
    requires Printable(j)
  {
    Parse(Minified(Print(j, 0, fmt)), true) == Done(j, [])
  }

  lemma {:induction false} EndsWellAlone(j: Json, t: string)
    requires !EndsInBackslash(t)
    ensures EndsWell(j, t) <==> EndsWell(j, "")
    decreases j
  {
    match j
    case Array(items) =>
      forall k | 0 <= k < |items| ensures EndsWell(items[k], t) <==> EndsWell(items[k], "") {
        EndsWellAlone(items[k], t);
      }
    case Object(members) =>
      forall k | 0 <= k < |members| ensures MemberEndsWell(members[k], t) <==> MemberEndsWell(members[k], "") {
        EndsWellAlone(members[k].value, t);
      }
    case _ =>
  }

  lemma TwoTexts(t: string, x: string)
    requires '\0' !in t && '\0' !in x
    ensures var j := Array([Json.Text(t), Json.Text(x)]);
      Printable(j) && Nesting(j) == 1 && Print(j, 0, false) == ['['] + (Quote(t) + "," + Quote(x)) + [']']
  {
    hide Quote;
    var items := [Json.Text(t), Json.Text(x)];
    var rest := items[1..];
    assert rest == [Json.Text(x)] && rest[1..] == [];
    assert ItemsNesting([]) == 0 && PrintItems([], 1, false) == [];
    assert Nesting(items[0]) == 0 && Nesting(rest[0]) == 0 && ItemsNesting(rest) == 0;
    assert PrintItems(rest, 1, false) == Quote(x);
    assert PrintItems(items, 1, false) == Quote(t) + "," + Quote(x);
  }

  /** Two texts are printed as a pair of literals. */
  lemma PairPrinted(t: string, x: string)
    requires '\0' !in t && '\0' !in x
    ensures var j := Array([Json.Text(t), Json.Text(x)]);
      Printable(j) && Nesting(j) == 1 && Print(j, 0, false) == Pair(Escape(t), x)
  {
    hide Escape, Print, Nesting;
    TwoTexts(t, x);
    var more := [','] + (Quote(x) + [']']);
    assert Quote(t) + more == Literally(Escape(t), more);
    assert ['['] + (Quote(t) + "," + Quote(x)) + [']'] == ['['] + (Quote(t) + more);
  }

  lemma EscapedBody(t: string)
    requires '\0' !in t
    ensures IsBody(Escape(t)) && Unescape(Escape(t)) == Some(t) && CString(t) == t
  {
    hide Close, Escape, Unescape, CString;
    EscapeReadsBack(t, []);
    CStringWhole(t);
    assert Escape(t) + (['"'] + []) == Escape(t) + ['"'];
  }

  /** A text survives in every printed tree in which no other text or key ends in a backslash, exactly when it
      does not end in one itself. */
  lemma TreesKeptExactly(t: string)
    requires '\0' !in t
    ensures TreesKept(t) <==> !EndsInBackslash(t)
  {
    hide Minified, Print, Parse, Nesting, Escape, Unescape, IsBody, EndsInBackslash;
    if EndsInBackslash(t) {
      var j := Array([Json.Text(t), Json.Text(" ")]);
      MisreadPair(t);
      assert EndsWell(j, t) by { assert !EndsInBackslash(" ") by { BlankEndsWell(); } }
      assert !TreeKept(j, false);
    } else {
      forall j, fmt | Printable(j) && Nesting(j) <= NESTING_LIMIT && EndsWell(j, t) ensures TreeKept(j, fmt) {
        EndsWellAlone(j, t);
        MinifiedLayout(j, fmt);
        RoundTrip(j, false, true);
      }
    }
  }

  lemma BlankEndsWell()
    ensures !EndsInBackslash(" ")
  {
  }

  /** The blank behind a text that ends in a backslash is lost. */
  lemma MisreadPair(t: string)
    requires '\0' !in t && EndsInBackslash(t)
    ensures var j := Array([Json.Text(t), Json.Text(" ")]);
      && Printable(j) && Nesting(j) <= NESTING_LIMIT && Parse(Print(j, 0, false), true) == Done(j, [])
      && Parse(Minified(Print(j, 0, false)), true) == Done(Array([Json.Text(t), Json.Text("")]), [])
  {
    hide Minified, Print, Parse, Nesting, Escape, Unescape, CString, IsBody, EndsInBackslash, Pair;
    PairPrinted(t, " ");
    EscapedBody(t);
    LastEscaped(t);
    PairMinified(Escape(t));
    PairParses(Escape(t), " ");
    PairParses(Escape(t), "");
  }
}
