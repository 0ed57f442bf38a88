/**
 JSON string literals: `parse_hex4`, `utf16_literal_to_utf8`, the two scans of `parse_string`, and escaping.
 A byte is a `char` below 256; a text is what stands before the terminating NUL.
 */
module CjsonString {
  import opened Options

  // ----- Hexadecimal

  predicate IsHex(c: char) { '0' <= c <= '9' || 'A' <= c <= 'F' || 'a' <= c <= 'f' }

  function HexDigit(c: char): (d: nat)
    requires IsHex(c)
    ensures d < 16
  {
    if c <= '9' then (c - '0') as nat else if c <= 'F' then 10 + (c - 'A') as nat else 10 + (c - 'a') as nat
  }

  predicate AllHex(s: string) { forall i :: 0 <= i < |s| ==> IsHex(s[i]) }

  /** The number that hexadecimal digits spell. */
  function HexValue(s: string): nat
    requires AllHex(s)
  {
    if s == [] then 0 else 16 * HexValue(s[..|s| - 1]) + HexDigit(s[|s| - 1])
  }

  /** What `parse_hex4` makes of four characters: anything that is not a number counts as zero. */
  function Hex4(s: string): nat
    requires |s| == 4
  {
    if AllHex(s) then HexValue(s) else 0
  }

  method ParseHex4(input: string) returns (h: nat)
    requires |input| >= 4
    ensures h == Hex4(input[..4]) && h <= 0xFFFF
  {
    h := 0;
    for i := 0 to 4
      invariant AllHex(input[..i])
      invariant h == HexValue(input[..i]) * (if 0 < i < 4 then 16 else 1)
      invariant i == 0 ==> h == 0
      invariant i == 1 ==> h <= 0xF0
      invariant i == 2 ==> h <= 0xFF0
      invariant i == 3 ==> h <= 0xFFF0
      invariant i == 4 ==> h <= 0xFFFF
    {
      if !IsHex(input[i]) {
        assert !AllHex(input[..4]) by { assert input[..4][i] == input[i]; }
        return 0;
      }
      assert input[..i + 1][..i] == input[..i];
      h := h + HexDigit(input[i]);
      if i < 3 { h := h * 16; }
    }
  }

  // ----- UTF-16 to UTF-8

  predicate Surrogate(unit: nat) { 0xD800 <= unit <= 0xDFFF }

  /** RFC 2781, section 2.1: the surrogate pair of a code point beyond the first plane. */
  function High(cp: nat): nat
    requires 0x10000 <= cp <= 0x10FFFF
  {
    0xD800 + (cp - 0x10000) / 0x400
  }

  function Low(cp: nat): nat
    requires 0x10000 <= cp <= 0x10FFFF
  {
    0xDC00 + (cp - 0x10000) % 0x400
  }

  function Byte(n: nat): char
    requires n < 256
  {
    n as char
  }

  /** RFC 3629, section 3: the bytes of a code point. */
  function Utf8(cp: nat): (bytes: string)
    requires cp <= 0x10FFFF
    ensures |bytes| == Utf8Length(cp)
  {
    if cp < 0x80 then [Byte(cp)]
    else if cp < 0x800 then [Byte(0xC0 + cp / 0x40), Trail(cp)]
    else if cp < 0x10000 then [Byte(0xE0 + cp / 0x1000), Trail(cp / 0x40), Trail(cp)]
    else [Byte(0xF0 + cp / 0x40000), Trail(cp / 0x1000), Trail(cp / 0x40), Trail(cp)]
  }

  function Utf8Length(cp: nat): nat {
    if cp < 0x80 then 1 else if cp < 0x800 then 2 else if cp < 0x10000 then 3 else 4
  }

  function Trail(n: nat): char { Byte(0x80 + n % 0x40) }

  /** A strict UTF-8 decoder: shortest form only, no surrogates, nothing above 0x10FFFF. */
  function DecodeUtf8(b: string): Option<nat> {
    if |b| == 1 && b[0] as nat < 0x80 then Some(b[0] as nat)
    else if |b| == 2 && 0xC0 <= b[0] as nat < 0xE0 && Trails(b) then
      InRange((b[0] as nat - 0xC0) * 0x40 + Six(b[1]), 0x80, 0x7FF)
    else if |b| == 3 && 0xE0 <= b[0] as nat < 0xF0 && Trails(b) then
      InRange((b[0] as nat - 0xE0) * 0x1000 + Six(b[1]) * 0x40 + Six(b[2]), 0x800, 0xFFFF)
    else if |b| == 4 && 0xF0 <= b[0] as nat < 0xF8 && Trails(b) then
      InRange((b[0] as nat - 0xF0) * 0x40000 + Six(b[1]) * 0x1000 + Six(b[2]) * 0x40 + Six(b[3]), 0x10000, 0x10FFFF)
    else None
  }

  predicate Trails(b: string) { forall k :: 1 <= k < |b| ==> 0x80 <= b[k] as nat < 0xC0 }

  /** The six bits that a trailing byte carries. */
  function Six(c: char): nat
    requires 0x80 <= c as nat < 0xC0
  {
    c as nat - 0x80
  }

  function InRange(cp: nat, low: nat, high: nat): Option<nat> {
    if low <= cp <= high && !Surrogate(cp) then Some(cp) else None
  }

  /** Every character comes back from its bytes. */
  lemma Utf8Decodes(cp: nat)
    requires cp <= 0x10FFFF && !Surrogate(cp)
    ensures DecodeUtf8(Utf8(cp)) == Some(cp)
  {
    SixBitGroups(cp);
    var b := Utf8(cp);
    if 0x10000 <= cp {
      LongDecodes(cp);
    } else if 0x800 <= cp {
      assert b[0] as nat == 0xE0 + cp / 0x1000 && Six(b[1]) == cp / 0x40 % 0x40 && Six(b[2]) == cp % 0x40;
    } else if 0x80 <= cp {
      assert b[0] as nat == 0xC0 + cp / 0x40 && Six(b[1]) == cp % 0x40;
    }
  }

  lemma LongDecodes(cp: nat)
    requires 0x10000 <= cp <= 0x10FFFF
    ensures DecodeUtf8(Utf8(cp)) == Some(cp)
  {
    SixBitGroups(cp);
    var b := Utf8(cp);
    assert b[0] as nat == 0xF0 + cp / 0x40000 && Six(b[1]) == cp / 0x1000 % 0x40;
    assert Six(b[2]) == cp / 0x40 % 0x40 && Six(b[3]) == cp % 0x40;
  }

  lemma SixBitGroups(cp: nat)
    ensures cp / 0x40 / 0x40 == cp / 0x1000 && cp / 0x1000 / 0x40 == cp / 0x40000
    ensures cp == cp / 0x40 * 0x40 + cp % 0x40
    ensures cp == cp / 0x1000 * 0x1000 + cp / 0x40 % 0x40 * 0x40 + cp % 0x40
    ensures cp == cp / 0x40000 * 0x40000 + cp / 0x1000 % 0x40 * 0x1000 + cp / 0x40 % 0x40 * 0x40 + cp % 0x40
  {
    var a := cp / 0x40;
    var b := a / 0x40;
    Nested(cp, 0x40);
    Nested(cp, 0x1000);
    assert b == cp / 0x1000;
  }

  lemma Nested(n: nat, d: nat)
    requires d == 0x40 || d == 0x1000
    ensures n / d / 0x40 == n / (d * 0x40)
  {
  }

  datatype Literal = Bad | Literal(cp: nat, used: nat)

  /** The code point of the literal at the start of `b`, which ends where the string literal ends. */
  function Utf16(b: string): (l: Literal)
    requires |b| >= 2
    ensures l.Literal? ==> l.cp <= 0x10FFFF && l.used == (if l.cp < 0x10000 then 6 else 12) && l.used <= |b|
  {
    if |b| < 6 then Bad
    else
      var first := Code(b[2..6]);
      if 0xDC00 <= first <= 0xDFFF then Bad
      else if 0xD800 <= first <= 0xDBFF then
        if |b| < 12 || b[6] != '\\' || b[7] != 'u' then Bad
        else
          var second := Code(b[8..12]);
          if second < 0xDC00 || second > 0xDFFF then Bad
          else Literal(0x10000 + (first % 0x400) * 0x400 + second % 0x400, 12)
      else Literal(first, 6)
  }

  function Code(s: string): (h: nat)
    requires |s| == 4
    ensures h == Hex4(s) && h <= 0xFFFF
  {
    if AllHex(s) then
      HexValueOfFour(s);
      HexValue(s)
    else 0
  }

  lemma HexValueOfFour(s: string)
    requires |s| == 4 && AllHex(s)
    ensures HexValue(s) == 0x1000 * HexDigit(s[0]) + 0x100 * HexDigit(s[1]) + 0x10 * HexDigit(s[2]) + HexDigit(s[3])
  {
    var t, u, v := s[..3], s[..2], s[..1];
    assert t[..2] == u && u[..1] == v && v[..0] == [];
    assert HexValue(v) == HexDigit(s[0]) && HexValue(u) == 16 * HexValue(v) + HexDigit(s[1]);
    assert HexValue(t) == 16 * HexValue(u) + HexDigit(s[2]);
  }

  /** A well-formed escape of any character stands for that character, in either case of the digits. */
  lemma EscapeIsUnderstood(cp: nat, h: string, g: string, rest: string)
    requires cp <= 0x10FFFF && !Surrogate(cp) && |h| == |g| == 4 && AllHex(h) && AllHex(g)
    requires if cp < 0x10000 then HexValue(h) == cp else HexValue(h) == High(cp) && HexValue(g) == Low(cp)
    ensures cp < 0x10000 ==> Utf16("\\u" + h + rest) == Literal(cp, 6)
    ensures cp >= 0x10000 ==> Utf16("\\u" + h + "\\u" + g + rest) == Literal(cp, 12)
  {
    hide HexValue, AllHex;
    if cp < 0x10000 {
      assert ("\\u" + h + rest)[2..6] == h;
    } else {
      var b := "\\u" + h + "\\u" + g + rest;
      assert b[2..6] == h && b[8..12] == g && b[6] == '\\' && b[7] == 'u';
      PairJoins(cp);
    }
  }

  lemma PairJoins(cp: nat)
    requires 0x10000 <= cp <= 0x10FFFF
    ensures 0xD800 <= High(cp) <= 0xDBFF && 0xDC00 <= Low(cp) <= 0xDFFF
    ensures cp == 0x10000 + (High(cp) % 0x400) * 0x400 + Low(cp) % 0x400
  {
  }

  /** The encoding loop of `utf16_literal_to_utf8`: last byte first. */
  method EncodeUtf8(cp: nat, output: array<char>, at: nat) returns (length: nat)
    requires cp <= 0x10FFFF && at + |Utf8(cp)| <= output.Length
    modifies output
    ensures length == |Utf8(cp)| && output[at..at + length] == Utf8(cp)
    ensures forall k :: 0 <= k < at || at + length <= k < output.Length ==> output[k] == old(output[k])
  {
    hide Utf8, Utf8Length;
    length := Utf8Bytes(cp);
    var mark := if length == 1 then 0 else if length == 2 then 0xC0 else if length == 3 then 0xE0 else 0xF0;
    var left, position := cp, length - 1;
    while position > 0
      invariant 0 <= position < length
      invariant left == Shifted(cp, length - 1 - position)
      invariant output[at + position + 1..at + length] == Utf8(cp)[position + 1..]
      invariant forall k :: 0 <= k < at || at + length <= k < output.Length ==> output[k] == old(output[k])
    {
      TrailAt(cp, position);
      output[at + position] := Byte(0x80 + left % 0x40);
      assert output[at + position..at + length] == [Utf8(cp)[position]] + Utf8(cp)[position + 1..];
      left := left / 0x40;
      position := position - 1;
    }
    FirstByte(cp);
    output[at] := Byte(mark + left);
    assert output[at..at + length] == [Utf8(cp)[0]] + Utf8(cp)[1..];
  }

  method Utf8Bytes(cp: nat) returns (length: nat)
    ensures length == Utf8Length(cp) && 1 <= length <= 4
  {
    length := if cp < 0x80 then 1 else if cp < 0x800 then 2 else if cp < 0x10000 then 3 else 4;
  }

  function Shifted(n: nat, times: nat): nat { if times == 0 then n else Shifted(n, times - 1) / 0x40 }

  lemma TrailAt(cp: nat, k: nat)
    requires cp <= 0x10FFFF && 1 <= k < Utf8Length(cp)
    ensures Utf8(cp)[k] == Byte(0x80 + Shifted(cp, Utf8Length(cp) - 1 - k) % 0x40)
  {
    Shifts(cp);
  }

  lemma FirstByte(cp: nat)
    requires cp <= 0x10FFFF
    ensures var n := Utf8Length(cp);
      var left := Shifted(cp, n - 1);
      && left < (if n == 1 then 0x80 else if n == 2 then 0x20 else if n == 3 then 0x10 else 8)
      && Utf8(cp)[0] == Byte((if n == 1 then 0 else if n == 2 then 0xC0 else if n == 3 then 0xE0 else 0xF0) + left)
  {
    Shifts(cp);
    hide Shifted;
    if cp < 0x80 {
    } else if cp < 0x800 {
      assert Utf8(cp)[0] == Byte(0xC0 + cp / 0x40);
    } else if cp < 0x10000 {
      assert Utf8(cp)[0] == Byte(0xE0 + cp / 0x1000);
    } else {
      assert Utf8(cp)[0] == Byte(0xF0 + cp / 0x40000);
    }
  }

  lemma Shifts(n: nat)
    ensures Shifted(n, 0) == n && Shifted(n, 1) == n / 0x40
    ensures Shifted(n, 2) == n / 0x1000 && Shifted(n, 3) == n / 0x40000
  {
    assert Shifted(n, 1) == Shifted(n, 0) / 0x40;
    assert Shifted(n, 2) == Shifted(n, 1) / 0x40;
    assert Shifted(n, 3) == Shifted(n, 2) / 0x40;
    hide Shifted;
    Nested(n, 0x40);
    Nested(n, 0x1000);
  }

  // ----- Reading a literal

  /** The first scan, from behind the opening quote: where the closing quote is. */
  function Close(s: string): (end: Option<nat>)
    ensures end.Some? ==> end.value < |s| && s[end.value] == '"'
  {
    if s == [] then None
    else if s[0] == '"' then Some(0)
    else
      var step := if s[0] == '\\' then 2 else 1;
      if |s| < step then None
      else match Close(s[step..]) case Some(e) => Some(e + step) case None => None
  }

  datatype Piece = Malformed | Piece(bytes: string, used: nat)

  /** The bytes that the start of the body stands for, and how much of the body they take. A backslash at the
      very end, which a malformed \u can uncover, pairs with the closing quote behind the body. */
  function FirstPiece(b: string): (p: Piece)
    requires b != []
    ensures p.Piece? ==> p.used >= 1 && Fits(b, p.used, |p.bytes|)
  {
    if b[0] != '\\' then Piece([b[0]], 1)
    else if |b| == 1 then Piece(['"'], 2)
    else if b[1] == 'u' then
      var l := Utf16(b);
      if l.Bad? then Malformed else Piece(Utf8(l.cp), l.used)
    else
      var c := Simple(b[1]);
      if c.None? then Malformed else Piece([c.value], 2)
  }

  /** How much one step of the second scan can read and write. */
  predicate Fits(b: string, used: nat, written: nat)
    requires b != []
  {
    if b[0] != '\\' then used == written == 1
    else if used == 2 then written == 1
    else if used == 6 then written <= 3 && 6 <= |b|
    else used == 12 && written <= 4 && 12 <= |b|
  }

  /** The second scan: the bytes that the body of the literal stands for. */
  function Unescape(b: string): Option<string>
    decreases |b|
  {
    if b == [] then Some([])
    else
      match FirstPiece(b)
      case Malformed => None
      case Piece(bytes, used) => Prepend(bytes, Unescape(if used <= |b| then b[used..] else []))
  }

  function Prepend(s: string, t: Option<string>): Option<string> {
    match t case Some(u) => Some(s + u) case None => None
  }

  lemma PrependTwice(s: string, t: string, u: Option<string>)
    ensures Prepend(s, Prepend(t, u)) == Prepend(s + t, u)
  {
    if u.Some? { assert s + (t + u.value) == s + t + u.value; }
  }

  function Simple(c: char): Option<char> {
    match c
    case 'b' => Some(8 as char)
    case 'f' => Some(12 as char)
    case 'n' => Some('\n')
    case 'r' => Some('\r')
    case 't' => Some('\t')
    case '"' => Some('"')
    case '\\' => Some('\\')
    case '/' => Some('/')
    case _ => None
  }

  /** What a C string of these bytes reads as. */
  function CString(s: string): (r: string)
    ensures '\0' !in r && (r == s || (|r| < |s| && s[|r|] == '\0' && r == s[..|r|]))
  {
    if s == [] || s[0] == '\0' then [] else [s[0]] + CString(s[1..])
  }

  datatype Read = Unreadable | Quoted(text: string, rest: string)

  /** `parse_string` on the text from its position on. */
  function ReadString(s: string): (r: Read)
    ensures r.Quoted? ==> |r.rest| < |s| && s[0] == '"'
  {
    if s == [] || s[0] != '"' then Unreadable
    else
      match Close(s[1..])
      case None => Unreadable
      case Some(end) =>
        match Unescape(s[1..1 + end])
        case None => Unreadable
        case Some(bytes) => Quoted(CString(bytes), s[end + 2..])
  }

  // ----- The two scans agree on the size

  /** How many escapes the first scan sees in the body from `q` on. */
  function Skipped(b: string, q: nat): nat
    decreases |b| - q
  {
    if q >= |b| then 0 else if b[q] == '\\' then 1 + Skipped(b, q + 2) else Skipped(b, q + 1)
  }

  /** The first scan, started at `q`, stops exactly at the end of the body. */
  predicate Walks(b: string, q: nat): (w: bool)
    ensures w ==> q <= |b|
    decreases |b| - q
  {
    q == |b| || (q < |b| && Walks(b, if b[q] == '\\' then q + 2 else q + 1))
  }

  /** Where the first scan, started at `q`, first stands at or behind `p`. */
  function Boundary(b: string, q: nat, p: nat): (r: nat)
    requires q <= p <= |b| && Walks(b, q)
    ensures p <= r <= p + 1 && r <= |b| && Walks(b, r)
    ensures q < p && b[q] != '\\' && p == q + 1 ==> Skipped(b, r) == Skipped(b, q)
    ensures 2 * Skipped(b, q) <= 2 * Skipped(b, r) + (r - q)
    decreases p - q
  {
    if q == p then q
    else
      var next := if b[q] == '\\' then q + 2 else q + 1;
      if next > p then next else Boundary(b, next, p)
  }

  lemma BodyWalks(s: string)
    requires Close(s).Some?
    ensures Walks(s[..Close(s).value], 0)
  {
    var b := s[..Close(s).value];
    var q := 0;
    while q < |b|
      invariant q <= |b| && Close(s[q..]) == Some(|b| - q)
      invariant Walks(b, q) ==> Walks(b, 0)
      decreases |b| - q
    {
      assert s[q..][0] == b[q];
      var step := if b[q] == '\\' then 2 else 1;
      assert s[q..][step..] == s[q + step..];
      q := q + step;
    }
  }

  /** One step of the second scan, over `used` bytes of the body or beyond its end, and the `written` bytes
      it yields, seen against the escapes the first scan counted in that stretch. */
  lemma StepFits(b: string, i: nat, q: nat, used: nat, written: nat) returns (q': nat)
    requires i < |b| && i <= q <= i + 1 && Walks(b, q)
    requires Fits(b[i..], used, written)
    ensures Walks(b, q') && q' <= |b|
    ensures i + used <= |b| ==> i + used <= q' <= i + used + 1
    ensures i + used > |b| ==> q' == |b| && i + used == |b| + 1
    ensures written + Skipped(b, q) <= Skipped(b, q') + (if i + used <= |b| then used else used - 1)
  {
    if i + used <= |b| {
      q' := Boundary(b, q, i + used);
    } else {
      q' := |b|;
    }
  }

  lemma SkippedBound(b: string, q: nat)
    requires Walks(b, q)
    ensures 2 * Skipped(b, q) <= |b| - q
    decreases |b| - q
  {
  }

  /** `utf16_literal_to_utf8`; `used` is zero for a malformed literal. */
  method Utf16LiteralToUtf8(input: string, output: array<char>, at: nat) returns (used: nat, length: nat)
    requires |input| >= 2
    requires var l := Utf16(input); l.Literal? ==> at + |Utf8(l.cp)| <= output.Length
    modifies output
    ensures var l := Utf16(input);
      if l.Bad? then used == 0 && output[..] == old(output[..])
      else used == l.used && length == |Utf8(l.cp)| && output[at..at + length] == Utf8(l.cp)
    ensures at <= output.Length ==> output[..at] == old(output[..at])
  {
    used, length := 0, 0;
    if |input| < 6 { return; }
    var first := ParseHex4(input[2..]);
    assert input[2..][..4] == input[2..6];
    if 0xDC00 <= first <= 0xDFFF { return; }
    var cp := first;
    used := 6;
    if 0xD800 <= first <= 0xDBFF {
      if |input| < 12 || input[6] != '\\' || input[7] != 'u' { return 0, 0; }
      var second := ParseHex4(input[8..]);
      assert input[8..][..4] == input[8..12];
      if second < 0xDC00 || second > 0xDFFF { return 0, 0; }
      cp := 0x10000 + (first % 0x400) * 0x400 + second % 0x400;
      used := 12;
    }
    length := EncodeUtf8(cp, output, at);
  }

  /** The first scan of `parse_string`: the closing quote, and how many escapes stand before it. */
  method Scan(content: string, start: nat) returns (end: nat, skipped: nat)
    requires start <= |content|
    ensures end < |content| <==> Close(content[start..]).Some?
    ensures end < |content| ==> start <= end && Close(content[start..]) == Some(end - start) && content[end] == '"'
    ensures end < |content| ==> skipped == Skipped(content[start..end], 0) && Walks(content[start..end], 0)
  {
    hide Close, Skipped, Walks;
    ghost var s := content[start..];
    end, skipped := start, 0;
    if Close(s).Some? { assert CountedTo(s[..Close(s).value], 0, 0); }
    while end < |content| && content[end] != '"'
      invariant start <= end
      invariant end <= |content| ==> Close(s) == Plus(Close(content[end..]), end - start)
      invariant end > |content| ==> Close(s).None?
      invariant Close(s).Some? ==> CountedTo(s[..Close(s).value], end - start, skipped)
      decreases |content| - end
    {
      CloseAt(content, end);
      if Close(s).Some? {
        assert s[end - start] == content[end];
        CountOne(s[..Close(s).value], end - start, skipped);
      }
      if content[end] == '\\' {
        skipped := skipped + 1;
        end := end + 1;
      }
      end := end + 1;
    }
    if end <= |content| { CloseAt(content, end); }
    if end < |content| {
      assert s[..end - start] == content[start..end];
      BodyWalks(s);
      CountDone(content[start..end]);
    }
  }

  lemma CloseAt(content: string, k: nat)
    requires k <= |content|
    ensures Close(content[k..])
         == if k == |content| then None
            else if content[k] == '"' then Some(0)
            else
              var step := if content[k] == '\\' then 2 else 1;
              if k + step > |content| then None else Plus(Close(content[k + step..]), step)
  {
    if k < |content| {
      var step := if content[k] == '\\' then 2 else 1;
      if k + step <= |content| { assert content[k..][step..] == content[k + step..]; }
    }
  }

  lemma CountOne(b: string, q: nat, skipped: nat)
    requires CountedTo(b, q, skipped) && q < |b| && (b[q] == '\\' ==> q + 2 <= |b|)
    ensures CountedTo(b, if b[q] == '\\' then q + 2 else q + 1, if b[q] == '\\' then skipped + 1 else skipped)
  {
  }

  lemma CountDone(b: string)
    ensures Skipped(b, |b|) == 0
  {
  }

  ghost predicate CountedTo(b: string, q: nat, skipped: nat) {
    q <= |b| && skipped + Skipped(b, q) == Skipped(b, 0)
  }

  function Plus(end: Option<nat>, n: nat): Option<nat> {
    match end case Some(e) => Some(e + n) case None => None
  }

  /** What the second scan has left to do. */
  ghost predicate Unescaping(b: string, i: nat, q: nat, bytes: string) {
    && q <= |b| && Walks(b, q) && i <= |b| + 1
    && (i <= |b| ==> i <= q <= i + 1 && |bytes| + Skipped(b, 0) <= i + Skipped(b, q))
    && (i > |b| ==> |bytes| + Skipped(b, 0) <= |b|)
    && Unescape(b) == Prepend(bytes, Unescape(if i <= |b| then b[i..] else []))
  }

  /** One more step of the second scan. */
  lemma Unescaped(b: string, i: nat, q: nat, bytes: string) returns (q': nat)
    requires i < |b| && Unescaping(b, i, q, bytes) && FirstPiece(b[i..]).Piece?
    ensures var p := FirstPiece(b[i..]);
      Unescaping(b, i + p.used, q', bytes + p.bytes) && |bytes + p.bytes| + Skipped(b, 0) <= |b|
  {
    hide FirstPiece, Skipped, Walks, Fits;
    var p := FirstPiece(b[i..]);
    q' := StepFits(b, i, q, p.used, |p.bytes|);
    SkippedBound(b, q');
    if i + p.used <= |b| {
      assert b[i..][p.used..] == b[i + p.used..];
    }
    PrependTwice(bytes, p.bytes, Unescape(if i + p.used <= |b| then b[i + p.used..] else []));
  }

  /** The body of the second scan's loop; `used` is zero when it gives up. */
  method RewritePiece(content: string, input: nat, end: nat, output: array<char>, out: nat)
    returns (used: nat, written: nat)
    requires input < end < |content| && content[end] == '"'
    requires var p := FirstPiece(content[input..end]); p.Piece? ==> out + |p.bytes| <= output.Length
    modifies output
    ensures match FirstPiece(content[input..end])
      case Malformed => used == 0
      case Piece(bytes, n) => used == n && written == |bytes| && output[out..out + written] == bytes
    ensures out <= output.Length ==> output[..out] == old(output[..out])
  {
    ghost var rest := content[input..end];
    assert rest[0] == content[input] && (|rest| > 1 ==> rest[1] == content[input + 1]);
    used, written := 0, 0;
    if content[input] != '\\' {
      output[out] := content[input];
      used, written := 1, 1;
    } else if content[input + 1] == 'u' {
      used, written := Utf16LiteralToUtf8(content[input..end], output, out);
    } else {
      var c := Simple(content[input + 1]);
      if c.None? { return; }
      output[out] := c.value;
      used, written := 2, 1;
    }
  }

  /** The second scan: the bytes it writes never outgrow a buffer sized by the first, whatever the body holds. */
  method Rewrite(content: string, start: nat, end: nat, output: array<char>) returns (ok: bool, out: nat)
    requires start <= end < |content| && content[end] == '"' && Walks(content[start..end], 0)
    requires output.Length == end - start - Skipped(content[start..end], 0) + 2
    modifies output
    ensures ok <==> Unescape(content[start..end]).Some?
    ensures ok ==> out + 2 <= output.Length && Unescape(content[start..end]) == Some(output[..out])
  {
    hide FirstPiece, Skipped, Walks, Fits;
    ghost var b := content[start..end];
    ghost var q: nat := 0;
    var input := start;
    out := 0;
    SkippedBound(b, 0);
    assert b[0..] == b && output[..0] == [];
    assert Unescape(b).Some? ==> [] + Unescape(b).value == Unescape(b).value;
    while input < end
      invariant start <= input <= end + 1 && out + 2 <= output.Length
      invariant Unescaping(b, input - start, q, output[..out])
      decreases end - input
    {
      ghost var p := FirstPiece(b[input - start..]);
      assert b[input - start..] == content[input..end];
      if p.Piece? { q := Unescaped(b, input - start, q, output[..out]); }
      var used, written := RewritePiece(content, input, end, output, out);
      if used == 0 {
        assert b[input - start..] != [] && Unescape(b[input - start..]) == None;
        return false, out;
      }
      assert output[..out + written] == output[..out] + p.bytes;
      out, input := out + written, input + used;
    }
    assert b[|b|..] == [] && output[..out] + [] == output[..out];
    ok := true;
  }

  /** `parse_string`: the output buffer is allocated from what the first scan counted. */
  method ParseString(content: string, offset: nat) returns (ok: bool, text: string, end: nat)
    requires offset < |content|
    ensures ok <==> ReadString(content[offset..]).Quoted?
    ensures ok ==> offset < end <= |content| && ReadString(content[offset..]) == Quoted(text, content[end..])
  {
    hide Close, Unescape, CString, Skipped, Walks;
    ok, text, end := false, [], offset;
    if content[offset] != '"' { return; }
    var inputEnd, skipped := Scan(content, offset + 1);
    assert content[offset..][1..] == content[offset + 1..];
    if inputEnd >= |content| { return; }
    SkippedBound(content[offset + 1..inputEnd], 0);
    var allocation := inputEnd - offset - skipped;
    var output := new char[allocation + 1];
    var out;
    ok, out := Rewrite(content, offset + 1, inputEnd, output);
    assert content[offset..][1..inputEnd - offset] == content[offset + 1..inputEnd];
    if !ok { return; }
    output[out] := '\0';
    text, end := CString(output[..out]), inputEnd + 1;
    assert content[offset..][inputEnd - offset + 1..] == content[end..];
  }

  // ----- Writing a literal

  /** What `print_string_ptr` writes for a character. */
  function EscapeChar(c: char): (e: string)
    ensures |e| == 1 + Extra(c)
  {
    if c as nat > 31 && c != '"' && c != '\\' then [c]
    else if c == '"' || c == '\\' then ['\\', c]
    else if c as nat == 8 then "\\b"
    else if c as nat == 12 then "\\f"
    else if c == '\n' then "\\n"
    else if c == '\r' then "\\r"
    else if c == '\t' then "\\t"
    else "\\u00" + [LowerHex(c as nat / 16), LowerHex(c as nat % 16)]
  }

  function LowerHex(d: nat): (c: char)
    requires d < 16
    ensures IsHex(c) && HexDigit(c) == d
  {
    if d < 10 then '0' + d as char else 'a' + (d - 10) as char
  }

  /** The additional characters that the counting loop of `print_string_ptr` reserves. */
  function Extra(c: char): nat {
    if c == '"' || c == '\\' || c as nat == 8 || c as nat == 12 || c == '\n' || c == '\r' || c == '\t' then 1
    else if c as nat < 32 then 5
    else 0
  }

  function Escape(text: string): string {
    if text == [] then [] else EscapeChar(text[0]) + Escape(text[1..])
  }

  function Quote(text: string): string { ['"'] + Escape(text) + ['"'] }

  lemma EscapeCharRead(c: char, s: string)
    requires c != '\0'
    ensures Close(EscapeChar(c) + s) == Plus(Close(s), |EscapeChar(c)|)
    ensures FirstPiece(EscapeChar(c) + s) == Piece([c], |EscapeChar(c)|)
  {
    hide Close, HexValue;
    var e := EscapeChar(c);
    if |e| <= 2 {
      CloseStep(e + s, |e|);
      assert (e + s)[|e|..] == s;
    } else {
      HexEscapeRead(c, s);
    }
  }

  lemma HexEscapeRead(c: char, s: string)
    requires c != '\0' && Extra(c) == 5
    ensures Close(EscapeChar(c) + s) == Plus(Close(s), 6)
    ensures FirstPiece(EscapeChar(c) + s) == Piece([c], 6)
  {
    hide Close, HexValue, Utf16;
    var e := EscapeChar(c);
    var h := e[2..];
    assert e == "\\u" + h && "\\u" + h + s == e + s;
    HexValueOfFour(h);
    EscapeIsUnderstood(c as nat, h, h, s);
    CloseStep(e + s, 2);
    CloseStep((e + s)[2..], 1);
    CloseStep((e + s)[3..], 1);
    CloseStep((e + s)[4..], 1);
    CloseStep((e + s)[5..], 1);
    assert (e + s)[6..] == s;
  }

  lemma CloseStep(s: string, step: nat)
    requires s != [] && s[0] != '"' && step == (if s[0] == '\\' then 2 else 1) && |s| >= step
    ensures Close(s) == Plus(Close(s[step..]), step)
    ensures step < |s| ==> s[step..][1..] == s[step + 1..]
  {
  }

  /** Reading what was written gives the text back, whatever follows. */
  lemma {:induction false} QuoteReadsBack(text: string, rest: string)
    requires '\0' !in text
    ensures ReadString(Quote(text) + rest) == Quoted(text, rest)
  {
    hide Close, Unescape, Escape, CString;
    EscapeReadsBack(text, rest);
    var s := Quote(text) + rest;
    var n := |Escape(text)|;
    assert s[1..] == Escape(text) + (['"'] + rest);
    assert s[1..1 + n] == Escape(text) && s[n + 2..] == rest;
    CStringWhole(text);
  }

  lemma {:induction false} EscapeReadsBack(text: string, rest: string)
    requires '\0' !in text
    ensures Close(Escape(text) + (['"'] + rest)) == Some(|Escape(text)|)
    ensures Unescape(Escape(text)) == Some(text)
  {
    if text == [] {
      assert Escape(text) + (['"'] + rest) == ['"'] + rest;
    } else {
      EscapeReadsBack(text[1..], rest);
      EscapeStep(text, ['"'] + rest);
      assert [text[0]] + text[1..] == text;
    }
  }

  lemma EscapeStep(text: string, rest: string)
    requires text != [] && '\0' !in text
    ensures Close(Escape(text) + rest) == Plus(Close(Escape(text[1..]) + rest), |EscapeChar(text[0])|)
    ensures Unescape(Escape(text)) == Prepend([text[0]], Unescape(Escape(text[1..])))
  {
    hide EscapeChar, FirstPiece, Close, Unescape;
    var e, more := EscapeChar(text[0]), Escape(text[1..]);
    EscapeCharRead(text[0], more + rest);
    EscapeCharRead(text[0], more);
    assert e + (more + rest) == Escape(text) + rest;
    UnescapeStep(e, more);
  }

  lemma UnescapeStep(e: string, more: string)
    requires e != [] && FirstPiece(e + more).Piece? && FirstPiece(e + more).used == |e|
    ensures Unescape(e + more) == Prepend(FirstPiece(e + more).bytes, Unescape(more))
  {
    hide FirstPiece;
    assert (e + more)[|e|..] == more;
  }

  /** Every well-formed \u escape or surrogate pair becomes the UTF-8 bytes of the character it stands for, from
      which a strict decoder recovers that character. */
  lemma EscapeBecomesUtf8(cp: nat, h: string, g: string, rest: string)
    requires cp <= 0x10FFFF && !Surrogate(cp) && |h| == |g| == 4 && AllHex(h) && AllHex(g)
    requires if cp < 0x10000 then HexValue(h) == cp else HexValue(h) == High(cp) && HexValue(g) == Low(cp)
    ensures var e := if cp < 0x10000 then "\\u" + h else "\\u" + h + "\\u" + g;
      Unescape(e + rest) == Prepend(Utf8(cp), Unescape(rest)) && DecodeUtf8(Utf8(cp)) == Some(cp)
  {
    hide Utf16, Unescape, HexValue, DecodeUtf8, Utf8;
    EscapeIsUnderstood(cp, h, g, rest);
    Utf8Decodes(cp);
    var e := if cp < 0x10000 then "\\u" + h else "\\u" + h + "\\u" + g;
    UnescapeStep(e, rest);
  }

  lemma CStringWhole(s: string)
    requires '\0' !in s
    ensures CString(s) == s
  {
    if s != [] {
      CStringWhole(s[1..]);
    }
  }
}
