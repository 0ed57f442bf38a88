/**
 `cJSON_Minify`: what it computes, that it does so in place, and when the result still means the same.
 */
module CjsonMinify {
  import opened CjsonString
  import opened CjsonLiterals
  import opened CjsonParse
  import opened CjsonRoundTrip

  // ----- What is left of a text

  /** Behind the line that a // comment is on. */
  function AfterLine(s: string): (r: string)
    ensures |r| <= |s|
  {
    if s == [] then [] else if s[0] == '\n' then s[1..] else AfterLine(s[1..])
  }

  function AfterBlock(s: string): (r: string)
    ensures |r| <= |s|
  {
    if s == [] then [] else if s[0] == '*' && Starts(s[1..], '/') then s[2..] else AfterBlock(s[1..])
  }

  /** How far `minify_string` goes from behind an opening quote: only a \" does not end the string. */
  function Span(s: string): (n: nat)
    ensures n <= |s|
  {
    if s == [] then 0
    else if s[0] == '"' then 1
    else if s[0] == '\\' && Starts(s[1..], '"') then 2 + Span(s[2..])
    else 1 + Span(s[1..])
  }

  predicate White(c: char) { c == ' ' || c == '\t' || c == '\r' || c == '\n' }

  function Minified(s: string): (r: string)
    ensures |r| <= |s|
    decreases |s|
  {
    if s == [] then []
    else if White(s[0]) then Minified(s[1..])
    else if s[0] == '/' then Minified(Uncommented(s))
    else if s[0] == '"' then
      var n := 1 + Span(s[1..]);
      s[..n] + Minified(s[n..])
    else [s[0]] + Minified(s[1..])
  }

  /** Behind the comment at the start of `s`; a slash that starts none is dropped alone. */
  function Uncommented(s: string): (r: string)
    requires s != []
    ensures |r| < |s|
  {
    if Starts(s[1..], '/') then AfterLine(s[2..])
    else if Starts(s[1..], '*') then AfterBlock(s[2..])
    else s[1..]
  }

  // ----- What goes

  lemma {:induction false} LineEnds(c: string, rest: string)
    requires '\n' !in c
    ensures AfterLine(c + ['\n'] + rest) == rest && AfterLine(c) == ""
  {
    if c == "" {
      assert c + ['\n'] + rest == ['\n'] + rest;
    } else {
      LineEnds(c[1..], rest);
      assert (c + ['\n'] + rest)[1..] == c[1..] + ['\n'] + rest;
    }
  }

  /** A comment of one line goes with its end, or with the end of the text. */
  lemma LineCommentGoes(c: string, rest: string)
    requires '\n' !in c
    ensures Minified("//" + (c + ['\n'] + rest)) == Minified(rest) && Minified("//" + c) == ""
  {
    hide AfterLine, AfterBlock, Span;
    LineEnds(c, rest);
    CommentGoes("//" + (c + ['\n'] + rest), c + ['\n'] + rest);
    CommentGoes("//" + c, c);
  }

  lemma CommentGoes(s: string, t: string)
    ensures s == "//" + t ==> Minified(s) == Minified(AfterLine(t))
    ensures s == "/*" + t ==> Minified(s) == Minified(AfterBlock(t))
    ensures Minified("") == ""
  {
    hide AfterLine, AfterBlock, Span;
    if |s| >= 2 && s == s[..2] + t { assert s[2..] == t && s[1..][0] == s[1]; }
  }

  /** No comment ends at `k`. */
  predicate NoEndAt(s: string, k: int) { 0 <= k < |s| - 1 ==> !(s[k] == '*' && s[k + 1] == '/') }

  lemma {:induction false} BlockEnds(c: string, rest: string)
    requires forall k :: 0 <= k < |c| ==> NoEndAt(c + "*/", k)
    ensures AfterBlock(c + "*/" + rest) == rest
  {
    var s := c + "*/" + rest;
    if c == "" {
      assert s == "*/" + rest && s[2..] == rest;
    } else {
      assert forall k :: 0 <= k < |c| - 1 ==> NoEndAt(c + "*/", k + 1) && NoEndAt(c[1..] + "*/", k);
      BlockEnds(c[1..], rest);
      assert s[1..] == c[1..] + "*/" + rest && NoEndAt(c + "*/", 0) && s[1] == (c + "*/")[1];
    }
  }

  lemma {:induction false} BlockNeverEnds(c: string)
    requires forall k :: 0 <= k < |c| ==> NoEndAt(c, k)
    ensures AfterBlock(c) == ""
  {
    if c != "" {
      assert NoEndAt(c, 0);
      assert forall k :: 0 <= k < |c| - 1 ==> NoEndAt(c, k + 1) && NoEndAt(c[1..], k);
      BlockNeverEnds(c[1..]);
    }
  }

  /** A block comment goes up to its first end, or with all that follows. */
  lemma BlockCommentGoes(c: string, rest: string)
    ensures (forall k :: 0 <= k < |c| ==> NoEndAt(c + "*/", k)) ==>
      Minified("/*" + (c + "*/" + rest)) == Minified(rest)
    ensures (forall k :: 0 <= k < |c| ==> NoEndAt(c, k)) ==> Minified("/*" + c) == ""
  {
    hide AfterLine, AfterBlock, Span;
    if forall k :: 0 <= k < |c| ==> NoEndAt(c + "*/", k) { BlockEnds(c, rest); }
    if forall k :: 0 <= k < |c| ==> NoEndAt(c, k) { BlockNeverEnds(c); }
    CommentGoes("/*" + (c + "*/" + rest), c + "*/" + rest);
    CommentGoes("/*" + c, c);
  }

  /** Outside strings blanks, tabs, returns, newlines and slashes that start no comment go, and nothing else. */
  lemma OneCharacter(c: char, s: string)
    ensures c in " \t\r\n" ==> Minified([c] + s) == Minified(s)
    ensures c == '/' && !Starts(s, '/') && !Starts(s, '*') ==> Minified([c] + s) == Minified(s)
    ensures c !in " \t\r\n/\"" ==> Minified([c] + s) == [c] + Minified(s)
  {
    hide Span, AfterLine, AfterBlock;
    assert ([c] + s)[1..] == s;
  }

  // ----- In place

  /** From `from` on the array still holds the text, and the NUL that ends it. */
  ghost predicate Unread(json: array<char>, from: nat, text: string) reads json {
    && from <= |text| < json.Length && json[|text|] == '\0'
    && forall k :: from <= k < |text| ==> json[k] == text[k] && text[k] != '\0'
  }

  /** `skip_oneline_comment`. */
  method SkipOnelineComment(json: array<char>, input: nat, ghost text: string) returns (next: nat)
    requires Unread(json, input, text) && input + 2 <= |text|
    ensures input < next <= |text| && text[next..] == AfterLine(text[input + 2..])
  {
    next := input + 2;
    while json[next] != '\0'
      invariant input + 2 <= next <= |text| && AfterLine(text[next..]) == AfterLine(text[input + 2..])
      decreases |text| - next
    {
      assert next < |text| && text[next..][0] == json[next] && text[next..][1..] == text[next + 1..];
      next := next + 1;
      if json[next - 1] == '\n' { return; }
    }
  }

  /** `skip_multiline_comment`. */
  method SkipMultilineComment(json: array<char>, input: nat, ghost text: string) returns (next: nat)
    requires Unread(json, input, text) && input + 2 <= |text|
    ensures input < next <= |text| && text[next..] == AfterBlock(text[input + 2..])
  {
    next := input + 2;
    while json[next] != '\0'
      invariant input + 2 <= next <= |text| && AfterBlock(text[next..]) == AfterBlock(text[input + 2..])
      decreases |text| - next
    {
      assert next < |text| && text[next..][0] == json[next] && text[next..][1..] == text[next + 1..];
      if json[next] == '*' && json[next + 1] == '/' {
        assert text[next + 1..][0] == '/' && text[next..][2..] == text[next + 2..];
        next := next + 2;
        return;
      }
      assert next + 1 < |text| ==> text[next + 1..][0] == json[next + 1];
      next := next + 1;
    }
  }

  /** One more character of the string, from `from` on, is copied down, or stays where it is. */
  method Copy(json: array<char>, input: nat, output: nat, ghost text: string, ghost from: nat, ghost before: string)
    requires from <= input && output <= input < |text| && Unread(json, input, text)
    requires json[..output] == before + text[from..input]
    modifies json
    ensures Unread(json, input, text) && json[..output + 1] == before + text[from..input + 1]
  {
    json[output] := json[input];
    assert json[..output + 1] == json[..output] + [json[output]];
    assert text[from..input + 1] == text[from..input] + [text[input]];
  }

  /** One round of the loop of `minify_string`: a character, or a backslash with the quote behind it. */
  method CopyNext(json: array<char>, input: nat, output: nat, ghost text: string, ghost from: nat, ghost before: string)
    returns (next: nat, into: nat, done: bool)
    requires from <= input && output <= input < |text| && Unread(json, input, text)
    requires json[..output] == before + text[from..input]
    modifies json
    ensures input < next <= |text| && next - into == input - output && Unread(json, next, text)
    ensures json[..into] == before + text[from..next]
    ensures Span(text[input..]) == next - input + (if done then 0 else Span(text[next..]))
  {
    hide Span;
    SpanAt(text, input);
    Copy(json, input, output, text, from, before);
    done := json[input] == '"';
    next, into := input, output;
    if json[input] == '\\' && json[input + 1] == '"' {
      Copy(json, input + 1, output + 1, text, from, before);
      next, into := input + 1, output + 1;
    }
    next, into := next + 1, into + 1;
  }

  /** `minify_string`: it copies downwards over what has been read. */
  method MinifyString(json: array<char>, input: nat, output: nat, ghost text: string) returns (next: nat, into: nat)
    requires output <= input < |text| && Unread(json, input, text) && text[input] == '"'
    modifies json
    ensures input < next <= |text| && next == input + 1 + Span(text[input + 1..])
    ensures into <= next && Unread(json, next, text) && json[..into] == old(json[..output]) + text[input..next]
  {
    hide Span;
    ghost var before := json[..output];
    assert text[input..input] == [] && before + [] == before;
    Copy(json, input, output, text, input, before);
    next, into := input + 1, output + 1;
    var done := false;
    while !done && json[next] != '\0'
      invariant input < next <= |text| && next - into == input - output && Unread(json, next, text)
      invariant json[..into] == before + text[input..next]
      invariant Span(text[input + 1..]) == next - input - 1 + (if done then 0 else Span(text[next..]))
      decreases |text| - next, !done
    {
      next, into, done := CopyNext(json, next, into, text, input, before);
    }
    assert text[|text|..] == [] && Span([]) == 0 by { SpanOfNothing(); }
  }

  lemma SpanOfNothing()
    ensures Span([]) == 0
  {
  }

  lemma SpanAt(text: string, k: nat)
    requires k < |text|
    ensures Span(text[k..])
         == if text[k] == '"' then 1
            else if text[k] == '\\' && k + 1 < |text| && text[k + 1] == '"' then 2 + Span(text[k + 2..])
            else 1 + Span(text[k + 1..])
  {
    assert text[k..][1..] == text[k + 1..];
    if k + 1 < |text| { assert text[k..][2..] == text[k + 2..] && text[k + 1..][0] == text[k + 1]; }
  }

  /** One round of the main loop: how far it reads, and what it writes. */
  lemma MinifiedAt(text: string, k: nat)
    requires k < |text|
    ensures White(text[k]) ==> Minified(text[k..]) == Minified(text[k + 1..])
    ensures text[k] == '/' ==>
      Minified(text[k..]) == Minified(if k + 1 < |text| && text[k + 1] == '/' then AfterLine(text[k + 2..])
                                      else if k + 1 < |text| && text[k + 1] == '*' then AfterBlock(text[k + 2..])
                                      else text[k + 1..])
    ensures text[k] == '"' ==>
      var n := 1 + Span(text[k + 1..]); Minified(text[k..]) == text[k..k + n] + Minified(text[k + n..])
    ensures !White(text[k]) && text[k] != '/' && text[k] != '"' ==>
      Minified(text[k..]) == [text[k]] + Minified(text[k + 1..])
  {
    hide Span, AfterLine, AfterBlock;
    var s := text[k..];
    assert s[1..] == text[k + 1..];
    if k + 1 < |text| { assert s[2..] == text[k + 2..]; }
    if s[0] == '"' {
      var n := 1 + Span(s[1..]);
      assert s[..n] == text[k..k + n] && s[n..] == text[k + n..];
    }
  }

  /** One round of the main loop. */
  method MinifyNext(json: array<char>, input: nat, output: nat, ghost text: string) returns (next: nat, into: nat)
    requires output <= input < |text| && Unread(json, input, text)
    modifies json
    ensures input < next && into <= next && Unread(json, next, text)
    ensures json[..into] + Minified(text[next..]) == old(json[..output]) + Minified(text[input..])
  {
    hide Minified, AfterLine, AfterBlock, Span;
    MinifiedAt(text, input);
    next, into := input, output;
    var c := json[input];
    if c == ' ' || c == '\t' || c == '\r' || c == '\n' {
      next := next + 1;
    } else if c == '/' {
      if json[input + 1] == '/' {
        next := SkipOnelineComment(json, input, text);
      } else if json[input + 1] == '*' {
        next := SkipMultilineComment(json, input, text);
      } else {
        next := next + 1;
      }
    } else if c == '"' {
      next, into := MinifyString(json, input, output, text);
      Associate(old(json[..output]), text[input..next], Minified(text[next..]));
    } else {
      json[output] := c;
      next, into := next + 1, into + 1;
      assert json[..into] == old(json[..output]) + [text[input]];
      Associate(old(json[..output]), [text[input]], Minified(text[next..]));
    }
  }

  lemma Associate(a: string, b: string, c: string)
    ensures (a + b) + c == a + (b + c)
  {
  }

  /** `cJSON_Minify`: the text before the NUL is replaced by its minified form. */
  method Minify(json: array<char>, ghost text: string) returns (ghost m: nat)
    requires Unread(json, 0, text)
    modifies json
    ensures m <= |text| && json[..m] == Minified(text) && json[m] == '\0'
  {
    hide Minified;
    var input: nat, into: nat := 0, 0;
    assert text[0..] == text && json[..0] == [];
    assert [] + Minified(text) == Minified(text);
    while json[input] != '\0'
      invariant into <= input && Unread(json, input, text)
      invariant json[..into] + Minified(text[input..]) == Minified(text)
      decreases |text| - input
    {
      input, into := MinifyNext(json, input, into, text);
    }
    m := into;
    MinifiedNothing();
    assert text[|text|..] == [] && json[..into] + [] == json[..into];
    json[into] := '\0';
  }

  lemma MinifiedNothing()
    ensures Minified([]) == []
  {
  }

  // ----- Minifying twice

  /** The string ends at a quote, not at the end of the text. */
  predicate Closed(s: string) {
    if s == [] then false
    else if s[0] == '"' then true
    else if s[0] == '\\' && Starts(s[1..], '"') then Closed(s[2..])
    else Closed(s[1..])
  }

  lemma {:induction false} SpanStays(s: string, rest: string)
    requires Closed(s)
    ensures Span(s[..Span(s)] + rest) == Span(s)
    ensures Span(s) > 0
  {
    var n := Span(s);
    var t := s[..n] + rest;
    if s[0] != '"' {
      var step := if s[0] == '\\' && Starts(s[1..], '"') then 2 else 1;
      SpanStays(s[step..], rest);
      assert t[step..] == s[step..][..n - step] + rest;
      if step == 1 && s[0] == '\\' {
        assert t[1..] == s[1..][..n - 1] + rest;
        assert n > 1 ==> t[1..][0] == s[1..][0];
      }
    }
  }

  lemma {:induction false} OpenSpan(s: string)
    requires !Closed(s)
    ensures Span(s) == |s|
  {
    if s != [] {
      OpenSpan(s[if s[0] == '\\' && Starts(s[1..], '"') then 2 else 1..]);
    }
  }

  /** A string is copied again as it is. */
  lemma StringStays(s: string, rest: string)
    requires Starts(s, '"') && (!Closed(s[1..]) ==> rest == [])
    ensures var n := 1 + Span(s[1..]); Span((s[..n] + rest)[1..]) == n - 1 && (s[..n] + rest)[0] == '"'
  {
    hide Span, Closed;
    var n := 1 + Span(s[1..]);
    assert (s[..n] + rest)[1..] == s[1..][..n - 1] + rest;
    if Closed(s[1..]) {
      SpanStays(s[1..], rest);
    } else {
      OpenSpan(s[1..]);
      assert s[..n] + rest == s;
    }
  }

  lemma MinifiedString(s: string)
    requires Starts(s, '"')
    ensures var n := 1 + Span(s[1..]); Minified(s) == s[..n] + Minified(s[n..])
    ensures !Closed(s[1..]) ==> Minified(s[1 + Span(s[1..])..]) == []
  {
    hide Span, Closed;
    if !Closed(s[1..]) { OpenSpan(s[1..]); }
  }

  /** Nothing is left to remove from a minified text, whatever the text was. */
  lemma {:induction false} MinifiedTwice(s: string)
    ensures Minified(Minified(s)) == Minified(s)
    decreases |s|
  {
    hide Span, Closed, Uncommented;
    if s == [] {
    } else if White(s[0]) {
      MinifiedTwice(s[1..]);
    } else if s[0] == '/' {
      MinifiedTwice(Uncommented(s));
    } else if s[0] == '"' {
      hide Minified;
      var n := 1 + Span(s[1..]);
      var rest := Minified(s[n..]);
      var m := s[..n] + rest;
      MinifiedTwice(s[n..]);
      MinifiedString(s);
      StringStays(s, rest);
      MinifiedString(m);
      assert m[..n] == s[..n] && m[n..] == rest;
    } else {
      MinifiedTwice(s[1..]);
      assert Minified(s)[1..] == Minified(s[1..]);
    }
  }

  // ----- Strings as the parser sees them

  predicate EndsInBackslash(s: string) { s != [] && s[|s| - 1] == '\\' }

  /** Where `minify_string` stops: at the parser's end of the string, unless a backslash stands before it, which
      is then itself escaped; there it takes the quote for an escaped one and goes on. */
  lemma {:induction false} SpanPastClose(s: string)
    requires Close(s).Some?
    ensures var e := Close(s).value;
      Span(s) == e + 1 + (if EndsInBackslash(s[..e]) then Span(s[e + 1..]) else 0)
    decreases |s|
  {
    hide Close, Span;
    var e := Close(s).value;
    assert s[0..] == s;
    CloseAt(s, 0);
    SpanAt(s, 0);
    if s[0] != '"' {
      var step := if s[0] == '\\' then 2 else 1;
      var t := s[step..];
      SpanPastClose(t);
      assert Close(t).value == e - step && t[e - step + 1..] == s[e + 1..];
      LastOfRest(s, step, e);
      if step == 2 {
        SpanAt(s, 1);
        if s[1] == '"' {
        } else if e == 2 {
          assert s[2] == '"';
        } else {
          assert !(s[1] == '\\' && s[2] == '"') by { CloseAt(t, 0); assert t[0..] == t && t[0] == s[2]; }
        }
      }
    }
  }

  lemma LastOfRest(s: string, step: nat, e: nat)
    requires 0 < step <= e < |s|
    ensures EndsInBackslash(s[..e]) == if e == step then s[e - 1] == '\\' else EndsInBackslash(s[step..][..e - step])
  {
  }

  lemma SpanIsClose(s: string)
    requires Close(s).Some?
    ensures var e := Close(s).value;
      Span(s) == e + 1 <==> e == 0 || s[e - 1] != '\\' || |s| == e + 1
  {
    hide Close;
    SpanPastClose(s);
  }

  /** No string literal of the text ends in an escaped backslash. */
  predicate Plain(s: string)
    decreases |s|
  {
    if s == [] then true
    else if s[0] == '"' then
      match Close(s[1..])
      case None => true
      case Some(e) => (e == 0 || s[e] != '\\') && Plain(s[e + 2..])
    else Plain(s[1..])
  }

  /** Where the parser goes on, no comment and no other slash is next. */
  predicate NoSlash(s: string) { !Starts(s, '/') }

  lemma {:induction false} SkipKept(s: string)
    requires NoSlash(Skip(s))
    ensures Skip(Minified(s)) == Minified(Skip(s))
    ensures Plain(s) == Plain(Skip(s))
  {
    if s != [] && s[0] as nat <= 32 {
      SkipKept(s[1..]);
      if !White(s[0]) {
        assert Minified(s)[1..] == Minified(s[1..]);
      }
    } else if s != [] {
      MinifiedHead(s);
    }
  }

  /** What is neither white nor a slash stays in front. */
  lemma MinifiedHead(s: string)
    requires s != [] && !White(s[0]) && s[0] != '/'
    ensures Starts(Minified(s), s[0])
  {
  }

  predicate Ordinary(c: char) { !White(c) && c != '/' && c != '"' }

  lemma OrdinaryHead(s: string)
    requires s != [] && Ordinary(s[0])
    ensures Minified(s) == [s[0]] + Minified(s[1..]) && Plain(s) == Plain(s[1..])
  {
  }

  /** Ordinary characters in front stay as they are. */
  lemma {:induction false} OrdinaryKept(w: string, s: string)
    requires forall k :: 0 <= k < |w| ==> Ordinary(w[k])
    ensures Minified(w + s) == w + Minified(s) && Plain(w + s) == Plain(s)
  {
    hide Minified, Plain;
    if w == [] {
      assert w + s == s && w + Minified(s) == Minified(s);
    } else {
      OrdinaryKept(w[1..], s);
      OrdinaryHead(w + s);
      assert (w + s)[1..] == w[1..] + s;
      assert [w[0]] + (w[1..] + Minified(s)) == w + Minified(s);
    }
  }

  // ----- Values

  /** What may stand behind a value in an accepted text. */
  predicate Ending(rest: string) {
    var t := Skip(rest);
    t == [] || t[0] == ',' || t[0] == ']' || t[0] == '}'
  }

  lemma EndingKept(rest: string)
    requires Ending(rest)
    ensures Follows(rest) && Follows(Minified(rest))
    ensures Skip(Minified(rest)) == Minified(Skip(rest)) && Plain(rest) == Plain(Skip(rest))
  {
    hide Minified, Plain;
    SkipKept(rest);
    var t := Skip(rest);
    if t == [] {
      assert Minified(t) == [] by { MinifiedNothing(); }
    } else {
      MinifiedHead(t);
    }
  }

  lemma DoneHead(s: string, depth: nat)
    requires ParseValue(s, depth).Done?
    ensures s != [] && s[0] as nat > 32 && NoSlash(s) && s[0] != 0xEF as char && s[0] != ']' && s[0] != '}'
  {
    if StartsWith(s, "null") { assert s[..4][0] == 'n'; }
    if StartsWith(s, "false") { assert s[..5][0] == 'f'; }
    if StartsWith(s, "true") { assert s[..4][0] == 't'; }
  }

  /** A string that does not end in a backslash is read the same from the minified text. */
  lemma TextKept(s: string)
    requires ReadString(s).Quoted? && Plain(s)
    ensures Plain(ReadString(s).rest)
    ensures ReadString(Minified(s)) == Quoted(ReadString(s).text, Minified(ReadString(s).rest))
  {
    hide Close, Unescape, CString, Minified;
    var e := Close(s[1..]).value;
    var more := Minified(s[e + 2..]);
    QuotedKept(s);
    CloseStays(s[1..], more);
    SameStart(s, e, more);
  }

  lemma SameStart(s: string, e: nat, more: string)
    requires e + 2 <= |s|
    ensures var m := s[..e + 2] + more;
      m[0] == s[0] && m[1..] == s[1..][..e + 1] + more && m[1..1 + e] == s[1..1 + e] && m[e + 2..] == more
  {
  }

  lemma QuotedKept(s: string)
    requires Starts(s, '"') && Close(s[1..]).Some? && Plain(s)
    ensures var e := Close(s[1..]).value; Minified(s) == s[..e + 2] + Minified(s[e + 2..])
  {
    hide Close, Span;
    SpanIsClose(s[1..]);
  }

  lemma WordKept(w: string, s: string, depth: nat)
    requires w == "null" || w == "false" || w == "true"
    requires StartsWith(s, w) && Plain(s)
    ensures Plain(s[|w|..]) && ParseValue(s, depth).Done? && ParseValue(s, depth).rest == s[|w|..]
    ensures ParseValue(Minified(s), depth) == Done(ParseValue(s, depth).value, Minified(s[|w|..]))
  {
    hide Minified, Plain;
    var rest := s[|w|..];
    assert s == w + rest;
    OrdinaryKept(w, rest);
    var m := w + Minified(rest);
    assert m[..|w|] == w && m[|w|..] == Minified(rest) && s[..4][0] == w[0] && m[..4][0] == w[0];
  }

  lemma NumberKept(s: string, depth: nat)
    requires s != [] && (s[0] == '-' || IsDigit(s[0])) && ParseValue(s, depth).Done? && Plain(s)
    requires Ending(ParseValue(s, depth).rest)
    ensures var p := ParseValue(s, depth);
      Plain(p.rest) && ParseValue(Minified(s), depth) == Done(p.value, Minified(p.rest))
  {
    hide ParseValue, Minified, Plain, Strtod, Skip, Ending;
    Dispatch(s, depth);
    var n := ReadNumber(s);
    var w, rest := s[..n.used], s[n.used..];
    EndingKept(rest);
    RunIsNumber(s, n.used);
    assert s == w + rest;
    OrdinaryKept(w, rest);
    var m := w + Minified(rest);
    RunStops(w, Minified(rest), 63);
    assert m[..|w|] == w && m[|w|..] == Minified(rest);
    Dispatch(m, depth);
  }

  /** When nothing that looks like a number follows, `strtod` has taken all it was given. */
  lemma RunIsNumber(s: string, used: nat)
    requires 1 <= used <= NumberRun(s, 63) && Follows(s[used..])
    ensures NumberRun(s, 63) == used
    ensures forall k :: 0 <= k < used ==> NumberChar(s[..used][k])
  {
    assert s[used..] == [] || s[used..][0] == s[used];
  }

  /** A value is read the same from the minified text, whatever comes behind it. */
  lemma {:induction false} ValueKept(s: string, depth: nat)
    requires ParseValue(s, depth).Done? && Plain(s) && Ending(ParseValue(s, depth).rest)
    ensures var p := ParseValue(s, depth);
      Plain(p.rest) && ParseValue(Minified(s), depth) == Done(p.value, Minified(p.rest))
    decreases |s|, 2
  {
    hide Minified, Plain, ParseArray, ParseObject, ReadString, ReadNumber, Skip;
    DoneHead(s, depth);
    if StartsWith(s, "null") {
      WordKept("null", s, depth);
    } else if StartsWith(s, "false") {
      WordKept("false", s, depth);
    } else if StartsWith(s, "true") {
      WordKept("true", s, depth);
    } else if s[0] == '"' {
      hide ParseValue;
      Dispatch(s, depth);
      TextKept(s);
      MinifiedHead(s);
      Dispatch(Minified(s), depth);
    } else if s[0] == '-' || IsDigit(s[0]) {
      NumberKept(s, depth);
    } else if s[0] == '[' {
      hide ParseValue;
      Dispatch(s, depth);
      ArrayKept(s, depth);
      MinifiedHead(s);
      Dispatch(Minified(s), depth);
    } else {
      hide ParseValue;
      ObjectKept(s, depth);
      Dispatch(s, depth);
      MinifiedHead(s);
      Dispatch(Minified(s), depth);
    }
  }

  lemma {:induction false} ArrayKept(s: string, depth: nat)
    requires Starts(s, '[') && ParseArray(s, depth).Done? && Plain(s)
    ensures var p := ParseArray(s, depth);
      Plain(p.rest) && Minified(s) != [] && ParseArray(Minified(s), depth) == Done(p.value, Minified(p.rest))
    decreases |s|, 1
  {
    hide Minified, Plain, ParseItems, Skip;
    OrdinaryHead(s);
    var t := Skip(s[1..]);
    assert Minified(s)[1..] == Minified(s[1..]);
    if Starts(t, ']') {
      SkipKept(s[1..]);
      OrdinaryHead(t);
      assert Minified(t)[1..] == Minified(t[1..]);
    } else {
      ItemsHead(t, depth + 1);
      SkipKept(s[1..]);
      MinifiedHead(t);
      ItemsKept(t, depth + 1);
    }
  }

  lemma ItemsHead(s: string, depth: nat)
    requires ParseItems(s, depth).Items?
    ensures NoSlash(Skip(s)) && Skip(s) != [] && !Starts(Skip(s), ']')
    ensures (s == [] || s[0] as nat > 32) ==> s != [] && !White(s[0]) && NoSlash(s) && !Starts(s, ']')
  {
    hide ParseValue;
    DoneHead(Skip(s), depth);
  }

  lemma {:induction false} ItemsKept(s: string, depth: nat)
    requires ParseItems(s, depth).Items? && Plain(s)
    ensures var p := ParseItems(s, depth);
      Plain(p.after) && ParseItems(Minified(s), depth) == Items(p.items, Minified(p.after))
    decreases |s|, 3
  {
    hide Minified, Plain, ParseValue, Skip;
    var x := Skip(s);
    DoneHead(x, depth);
    SkipKept(s);
    var rest := ParseValue(x, depth).rest;
    var t := Skip(rest);
    ValueKept(x, depth);
    EndingKept(rest);
    OrdinaryHead(t);
    assert Minified(t)[1..] == Minified(t[1..]);
    if Starts(t, ',') {
      ItemsKept(t[1..], depth);
    }
  }

  lemma {:induction false} ObjectKept(s: string, depth: nat)
    requires ParseValue(s, depth).Done? && Plain(s) && s != [] && s[0] == '{'
    ensures var p := ParseObject(s, depth);
      && p.Done? && Plain(p.rest) && Minified(s) != []
      && ParseObject(Minified(s), depth) == Done(p.value, Minified(p.rest))
    decreases |s|, 1
  {
    hide Minified, Plain, ParseMembers, Skip, ParseValue;
    Dispatch(s, depth);
    OrdinaryHead(s);
    var t := Skip(s[1..]);
    assert Minified(s)[1..] == Minified(s[1..]);
    if Starts(t, '}') {
      SkipKept(s[1..]);
      OrdinaryHead(t);
      assert Minified(t)[1..] == Minified(t[1..]);
    } else {
      MembersStart(t, depth + 1);
      SkipKept(s[1..]);
      MinifiedHead(t);
      MembersKept(t, depth + 1);
    }
  }

  lemma MembersStart(s: string, depth: nat)
    requires ParseMembers(s, depth).Members?
    ensures Starts(Skip(s), '"')
    ensures (s == [] || s[0] as nat > 32) ==> Starts(s, '"')
  {
    hide ParseValue;
  }

  lemma {:induction false} MembersKept(s: string, depth: nat)
    requires ParseMembers(s, depth).Members? && Plain(s)
    ensures var p := ParseMembers(s, depth);
      Plain(p.after) && ParseMembers(Minified(s), depth) == Members(p.members, Minified(p.after))
    decreases |s|, 3
  {
    hide Minified, Plain, ParseValue, Skip, ReadString;
    var x := Skip(s);
    MembersStart(s, depth);
    SkipKept(s);
    TextKept(x);
    var afterKey := ReadString(x).rest;
    var colon := Skip(afterKey);
    SkipKept(afterKey);
    OrdinaryHead(colon);
    assert Minified(colon)[1..] == Minified(colon[1..]);
    var y := Skip(colon[1..]);
    DoneHead(y, depth);
    SkipKept(colon[1..]);
    var rest := ParseValue(y, depth).rest;
    var t := Skip(rest);
    ValueKept(y, depth);
    EndingKept(rest);
    OrdinaryHead(t);
    assert Minified(t)[1..] == Minified(t[1..]);
    if Starts(t, ',') {
      MembersKept(t[1..], depth);
    }
  }

  /** Accepted JSON with nothing behind it means the same minified, if no string ends in a backslash. */
  lemma MinifiedParses(text: string)
    requires Parse(text, true).Done? && Plain(text)
    ensures Parse(Minified(text), true) == Parse(text, true)
  {
    hide Minified, Plain, ParseValue, Skip;
    var s := SkipBom(text);
    BomKept(text);
    var x := Skip(s);
    DoneHead(x, 0);
    SkipKept(s);
    var rest := ParseValue(x, 0).rest;
    ValueKept(x, 0);
    EndingKept(rest);
    assert Minified([]) == [] by { MinifiedNothing(); }
  }

  /** A byte order mark that is skipped stays in front and is skipped again. */
  lemma BomKept(text: string)
    requires Parse(text, true).Done? && Plain(text)
    ensures SkipBom(Minified(text)) == Minified(SkipBom(text)) && Plain(SkipBom(text))
  {
    hide Minified, Plain, ParseValue, Skip;
    var x := Skip(SkipBom(text));
    DoneHead(x, 0);
    SkipKept(SkipBom(text));
    MinifiedHead(x);
    if |text| >= 4 && text[..3] == BOM {
      assert text == BOM + text[3..];
      OrdinaryKept(BOM, text[3..]);
      assert Minified(text[3..]) != [] by { SkipOfNothing(); }
      assert (BOM + Minified(text[3..]))[..3] == BOM;
    } else {
      var m := Minified(text);
      assert !StartsWith(m, BOM) by {
        SkipNotBom(m);
        assert |m| >= 3 ==> m[..3][0] == m[0];
      }
    }
  }

  lemma SkipOfNothing()
    ensures Skip([]) == []
  {
  }

  lemma SkipNotBom(m: string)
    ensures Starts(m, 0xEF as char) ==> Starts(Skip(m), 0xEF as char)
  {
  }
}
