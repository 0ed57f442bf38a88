/** String literals taken by themselves: where they end, and what each thing that can stand in them means. */
module CjsonLiterals {
  import opened Options
  import opened CjsonString

  // ----- Where a literal ends

  /** How many backslashes stand directly before `k`. */
  function Slashes(s: string, k: nat): nat
    requires k <= |s|
  {
    if k > 0 && s[k - 1] == '\\' then 1 + Slashes(s, k - 1) else 0
  }

  /** The first quote that an even number of backslashes stands before. */
  predicate FirstBare(s: string, e: nat) {
    && e < |s| && s[e] == '"' && Slashes(s, e) % 2 == 0
    && forall k :: 0 <= k < e && s[k] == '"' ==> Slashes(s, k) % 2 == 1
  }

  lemma {:induction false} SlashesShift(s: string, step: nat, k: nat)
    requires s != [] && step == (if s[0] == '\\' then 2 else 1) && step <= k <= |s|
    ensures Slashes(s, k) % 2 == Slashes(s[step..], k - step) % 2
  {
    if k > step {
      SlashesShift(s, step, k - 1);
      assert s[step..][k - step - 1] == s[k - 1];
    } else if step == 2 {
      assert Slashes(s, 1) == 1 && Slashes(s, 0) == 0;
    }
  }

  lemma FirstBareShift(s: string, step: nat, e: nat)
    requires s != [] && s[0] != '"' && step == (if s[0] == '\\' then 2 else 1) && step <= |s|
    ensures FirstBare(s, e) <==> e >= step && FirstBare(s[step..], e - step)
  {
    var t := s[step..];
    hide Slashes;
    forall k: nat | step <= k < |s| ensures Slashes(s, k) % 2 == Slashes(t, k - step) % 2 && t[k - step] == s[k] {
      SlashesShift(s, step, k);
    }
    if step == 2 { assert Slashes(s, 1) == 1 by { OneSlash(s); } }
    if e >= step && FirstBare(t, e - step) {
      forall k | 0 <= k < e && s[k] == '"' ensures Slashes(s, k) % 2 == 1 {
        if k >= step { assert t[k - step] == '"'; }
      }
    }
    if FirstBare(s, e) && e >= step {
      forall k | 0 <= k < e - step && t[k] == '"' ensures Slashes(t, k) % 2 == 1 { assert s[k + step] == '"'; }
    }
  }

  lemma OneSlash(s: string)
    requires |s| >= 1 && s[0] == '\\'
    ensures Slashes(s, 1) == 1 && Slashes(s, 0) == 0
  {
  }

  /** The first scan finds the first quote that is not escaped, and no other. */
  lemma {:induction false} CloseIsFirstBare(s: string, e: nat)
    ensures Close(s) == Some(e) <==> FirstBare(s, e)
    decreases |s|
  {
    if s != [] && s[0] == '"' {
      assert Slashes(s, 0) == 0;
    } else if s != [] {
      var step := if s[0] == '\\' then 2 else 1;
      if step <= |s| {
        FirstBareShift(s, step, e);
        if e >= step { CloseIsFirstBare(s[step..], e - step); }
      }
    }
  }

  // ----- Whole literals

  /** What can stand between the quotes of a string literal. */
  predicate IsBody(b: string) { Close(b + ['"']) == Some(|b|) }

  lemma {:induction false} CloseStays(s: string, rest: string)
    requires Close(s).Some?
    ensures Close(s[..Close(s).value + 1] + rest) == Close(s)
    decreases |s|
  {
    hide Close;
    var e := Close(s).value;
    var t := s[..e + 1] + rest;
    assert s[0..] == s && t[0..] == t;
    CloseAt(s, 0);
    CloseAt(t, 0);
    if s[0] != '"' {
      var step := if s[0] == '\\' then 2 else 1;
      CloseStays(s[step..], rest);
      assert t == s[..step] + (s[step..e + 1] + rest) && s[step..][..e + 1 - step] == s[step..e + 1];
      assert t[step..] == s[step..e + 1] + rest;
    }
  }

  lemma BodyStays(b: string, rest: string)
    requires IsBody(b)
    ensures Close(b + (['"'] + rest)) == Some(|b|)
  {
    hide Close;
    CloseStays(b + ['"'], rest);
    assert (b + ['"'])[..|b| + 1] + rest == b + (['"'] + rest);
  }

  /** The literal with body `b`, and a text behind it. */
  function Literally(b: string, rest: string): string { ['"'] + (b + (['"'] + rest)) }

  lemma LiteralReads(b: string, rest: string)
    requires IsBody(b) && Unescape(b).Some?
    ensures ReadString(Literally(b, rest)) == Quoted(CString(Unescape(b).value), rest)
  {
    hide Close, Unescape, CString;
    BodyStays(b, rest);
    var s := Literally(b, rest);
    assert s[1..] == b + (['"'] + rest) && s[1..1 + |b|] == b && s[|b| + 2..] == rest;
  }

  // ----- What can stand in a literal

  /** The digits of hexadecimal numbers, in both cases. */
  lemma HexDigitIs(c: char)
    ensures IsHex(c) <==> c in "0123456789abcdefABCDEF"
    ensures IsHex(c) ==> c == "0123456789abcdef"[HexDigit(c)] || c == "0123456789ABCDEF"[HexDigit(c)]
  {
    if IsHex(c) {
      if c <= '4' {
      } else if c <= '9' {
      } else if c <= 'F' {
      } else {
      }
    }
  }

  /** The escapes of two characters, and that there are no others. */
  lemma SimpleIs(c: char)
    ensures Simple('"') == Some('"') && Simple('\\') == Some('\\') && Simple('/') == Some('/')
    ensures Simple('b') == Some(8 as char) && Simple('f') == Some(12 as char) && Simple('n') == Some(10 as char)
    ensures Simple('r') == Some(13 as char) && Simple('t') == Some(9 as char)
    ensures Simple(c).Some? ==> c in "\"\\/bfnrt"
  {
  }

  /**
   One thing in the body of a literal: a character as it is, an escape of two characters, a \u escape, a pair of
   them, four characters behind a \u that are no number, or a backslash that nothing follows.
   */
  datatype Unit =
    | Raw(c: char)
    | Short(letter: char)
    | Point(cp: nat, hex: string)
    | Surrogates(cp: nat, high: string, low: string)
    | NoNumber(hex: string)
    | Dangling

  predicate UnitOk(u: Unit) {
    match u
    case Raw(c) => c != '\\'
    case Short(letter) => letter in "\"\\/bfnrt"
    case Point(cp, hex) => cp < 0x10000 && !Surrogate(cp) && Spells(hex, cp)
    case Surrogates(cp, high, low) => 0x10000 <= cp <= 0x10FFFF && Spells(high, High(cp)) && Spells(low, Low(cp))
    case NoNumber(hex) => |hex| == 4 && !AllHex(hex)
    case Dangling => true
  }

  predicate Spells(hex: string, n: nat) { |hex| == 4 && AllHex(hex) && HexValue(hex) == n }

  predicate UnitsOk(us: seq<Unit>) {
    && (forall k :: 0 <= k < |us| ==> UnitOk(us[k]))
    && forall k :: 0 <= k < |us| - 1 ==> !us[k].Dangling?
  }

  function Spell(u: Unit): (s: string)
    ensures s != ""
  {
    match u
    case Raw(c) => [c]
    case Short(letter) => ['\\', letter]
    case Point(_, hex) => "\\u" + hex
    case Surrogates(_, high, low) => "\\u" + high + "\\u" + low
    case NoNumber(hex) => "\\u" + hex
    case Dangling => "\\"
  }

  /** The bytes it stands for. */
  function Mean(u: Unit): string
    requires UnitOk(u)
  {
    match u
    case Raw(c) => [c]
    case Short(letter) => SimpleIs(letter); [Simple(letter).value]
    case Point(cp, _) => Utf8(cp)
    case Surrogates(cp, _, _) => Utf8(cp)
    case NoNumber(_) => "\0"
    case Dangling => "\""
  }

  function SpellAll(us: seq<Unit>): (s: string)
    ensures s == "" ==> us == []
  {
    if us == [] then "" else Spell(us[0]) + SpellAll(us[1..])
  }

  function MeanAll(us: seq<Unit>): string
    requires UnitsOk(us)
  {
    if us == [] then "" else Mean(us[0]) + MeanAll(us[1..])
  }

  lemma UnitReads(u: Unit, rest: string)
    requires UnitOk(u) && (u.Dangling? ==> rest == "")
    ensures FirstPiece(Spell(u) + rest) == Piece(Mean(u), if u.Dangling? then 2 else |Spell(u)|)
  {
    match u
    case Raw(_) =>
    case Short(letter) => SimpleIs(letter);
    case Point(cp, hex) => EscapeIsUnderstood(cp, hex, hex, rest);
    case Surrogates(cp, high, low) => EscapeIsUnderstood(cp, high, low, rest);
    case NoNumber(hex) =>
      assert ("\\u" + hex + rest)[2..6] == hex;
      assert Utf8(0) == "\0";
    case Dangling =>
  }

  /** The body made of such things stands for their bytes, one after the other. */
  lemma {:induction false} UnitsRead(us: seq<Unit>)
    requires UnitsOk(us)
    ensures Unescape(SpellAll(us)) == Some(MeanAll(us))
  {
    assert us != [] && us[0].Dangling? ==> Spell(us[0]) == "\\";
    hide UnitOk, Spell, Mean, FirstPiece;
    if us != [] {
      UnitsRead(us[1..]);
      UnitReads(us[0], SpellAll(us[1..]));
      if us[0].Dangling? {
        assert us[1..] == [] && SpellAll(us) == Spell(us[0]);
      } else {
        assert SpellAll(us)[|Spell(us[0])|..] == SpellAll(us[1..]);
      }
    }
  }

  lemma FirstUnit(b: string) returns (u: Unit)
    requires b != "" && FirstPiece(b).Piece?
    ensures UnitOk(u) && FirstPiece(b).used >= |Spell(u)| && |Spell(u)| <= |b| && b[..|Spell(u)|] == Spell(u)
    ensures u.Dangling? <==> FirstPiece(b).used > |b|
    ensures !u.Dangling? ==> FirstPiece(b).used == |Spell(u)|
  {
    if b[0] != '\\' {
      u := Raw(b[0]);
    } else if |b| == 1 {
      u := Dangling;
    } else if b[1] == 'u' {
      u := CodeUnit(b);
    } else {
      SimpleIs(b[1]);
      u := Short(b[1]);
    }
  }

  lemma CodeUnit(b: string) returns (u: Unit)
    requires |b| >= 2 && b[0] == '\\' && b[1] == 'u' && Utf16(b).Literal?
    ensures UnitOk(u) && !u.Dangling? && |Spell(u)| == Utf16(b).used && b[..|Spell(u)|] == Spell(u)
  {
    hide HexValue, AllHex;
    var l := Utf16(b);
    var hex := b[2..6];
    if l.used == 12 {
      u := Surrogates(l.cp, hex, b[8..12]);
      Unpaired(Code(hex), Code(b[8..12]));
      assert b[..12] == "\\u" + hex + "\\u" + b[8..12];
    } else {
      u := if AllHex(hex) then Point(l.cp, hex) else NoNumber(hex);
      assert b[..6] == "\\u" + hex;
    }
  }

  /** A pair is that of the character it was joined to. */
  lemma Unpaired(first: nat, second: nat)
    requires 0xD800 <= first <= 0xDBFF && 0xDC00 <= second <= 0xDFFF
    ensures var cp := 0x10000 + (first % 0x400) * 0x400 + second % 0x400;
      0x10000 <= cp <= 0x10FFFF && High(cp) == first && Low(cp) == second
  {
  }

  lemma UnescapeGoesOn(b: string)
    requires b != "" && Unescape(b).Some?
    ensures FirstPiece(b).Piece?
    ensures FirstPiece(b).used <= |b| ==> Unescape(b[FirstPiece(b).used..]).Some?
    ensures Unescape("").Some?
  {
    hide FirstPiece;
  }

  /** Nothing else is accepted. */
  lemma {:induction false} UnitsOf(b: string) returns (us: seq<Unit>)
    requires Unescape(b).Some?
    ensures UnitsOk(us) && SpellAll(us) == b
    decreases |b|
  {
    hide UnitOk, Spell, FirstPiece, Unescape;
    us := [];
    if b != "" {
      UnescapeGoesOn(b);
      var u := FirstUnit(b);
      var rest := if u.Dangling? then "" else b[|Spell(u)|..];
      var more := UnitsOf(rest);
      us := [u] + more;
      if u.Dangling? {
        assert Spell(u) == b;
      }
      assert us[1..] == more;
    }
  }

  // ----- What the printer writes

  lemma LowerHexIs(d: nat)
    requires d < 16
    ensures LowerHex(d) == "0123456789abcdef"[d]
  {
    if d < 5 {
    } else if d < 10 {
    } else {
    }
  }

  /** A character that has an escape of two characters is written as that, but for the slash; another control
      character as a \u escape with two zeros and two small digits; and any other as it is. */
  lemma EscapeCharIs(c: char)
    ensures forall l :: l != '/' && Simple(l) == Some(c) ==> EscapeChar(c) == ['\\', l]
    ensures (forall l :: l != '/' ==> Simple(l) != Some(c)) ==>
      EscapeChar(c) == if c as nat >= 32 then [c]
                       else "\\u00" + ["0123456789abcdef"[c as nat / 16], "0123456789abcdef"[c as nat % 16]]
  {
    forall l | l != '/' && Simple(l) == Some(c) ensures EscapeChar(c) == ['\\', l] { ShortWritten(l); }
    if Extra(c) == 1 {
      var l := ShortFor(c);
    } else {
      OthersWritten(c);
    }
  }

  lemma ShortWritten(l: char)
    requires l != '/' && Simple(l).Some?
    ensures EscapeChar(Simple(l).value) == ['\\', l]
  {
    hide LowerHex;
  }

  lemma ShortFor(c: char) returns (l: char)
    requires Extra(c) == 1
    ensures l != '/' && Simple(l) == Some(c)
  {
    l := if c == '"' || c == '\\' then c else if c as nat == 8 then 'b' else if c as nat == 12 then 'f'
         else if c == '\n' then 'n' else if c == '\r' then 'r' else 't';
  }

  lemma OthersWritten(c: char)
    requires Extra(c) != 1
    ensures EscapeChar(c) == if c as nat >= 32 then [c]
                             else "\\u00" + ["0123456789abcdef"[c as nat / 16], "0123456789abcdef"[c as nat % 16]]
  {
    hide LowerHex;
    if c as nat < 32 {
      LowerHexIs(c as nat / 16);
      LowerHexIs(c as nat % 16);
    }
  }
}
