/** What the parser makes of a text: each function reads from the front and says what is left of it. */
module CjsonParse {
  import opened CjsonString
  import opened CjsonTree

  /** `buffer_skip_whitespace`; the text ends where the NUL stands. */
  function Skip(s: string): (r: string)
    ensures |r| <= |s|
    ensures r == [] || r[0] as nat > 32
  {
    if s != [] && s[0] as nat <= 32 then Skip(s[1..]) else s
  }

  predicate StartsWith(s: string, word: string) { |s| >= |word| && s[..|word|] == word }

  predicate Starts(s: string, c: char) { s != [] && s[0] == c }

  // ----- Numbers

  predicate IsDigit(c: char) { '0' <= c <= '9' }

  predicate NumberChar(c: char) { IsDigit(c) || c == '+' || c == '-' || c == 'e' || c == 'E' || c == '.' }

  /** How many characters of `s`, `limit` at most, can belong to a number. */
  function NumberRun(s: string, limit: nat): (n: nat)
    ensures n <= |s| && n <= limit
    ensures forall k :: 0 <= k < n ==> NumberChar(s[k])
  {
    if limit > 0 && s != [] && NumberChar(s[0]) then 1 + NumberRun(s[1..], limit - 1) else 0
  }

  function Digits(s: string): (n: nat)
    ensures n <= |s|
  {
    if s != [] && IsDigit(s[0]) then 1 + Digits(s[1..]) else 0
  }

  /** The number that the digits in `s` spell; other characters count as zero. */
  function Natural(s: string): nat {
    if s == [] then 0
    else 10 * Natural(s[..|s| - 1]) + if IsDigit(s[|s| - 1]) then (s[|s| - 1] - '0') as nat else 0
  }

  function Pow10(e: int): (p: real)
    ensures p > 0.0
    decreases if e < 0 then -e else e
  {
    if e == 0 then 1.0 else if e > 0 then 10.0 * Pow10(e - 1) else Pow10(e + 1) / 10.0
  }

  datatype Numeric = NotANumber | Numeric(value: real, used: nat)

  predicate Signed(s: string) { Starts(s, '-') || Starts(s, '+') }

  /** `strtod` on a string of number characters, without rounding: the longest prefix that is a number. */
  function Strtod(s: string): (n: Numeric)
    ensures n.Numeric? ==> 1 <= n.used <= |s|
  {
    var sign := if Signed(s) then 1 else 0;
    Plus(FromWhole(Starts(s, '-'), s[sign..]), sign)
  }

  /** From behind the sign. */
  function FromWhole(negative: bool, s: string): (n: Numeric)
    ensures n.Numeric? ==> 1 <= n.used <= |s|
  {
    Plus(FromPoint(negative, s[..Digits(s)], s[Digits(s)..]), Digits(s))
  }

  /** From behind the digits before the point. */
  function FromPoint(negative: bool, whole: string, s: string): (n: Numeric)
    ensures n.Numeric? ==> n.used <= |s| && |whole| + n.used >= 1
  {
    if Starts(s, '.') then
      var fraction := s[1..][..Digits(s[1..])];
      if whole == [] && fraction == [] then NotANumber
      else Plus(FromPower(negative, whole, fraction, s[1..][|fraction|..]), 1 + |fraction|)
    else if whole == [] then NotANumber
    else FromPower(negative, whole, [], s)
  }

  /** From behind the digits behind the point. */
  function FromPower(negative: bool, whole: string, fraction: string, s: string): (n: Numeric)
    ensures n.Numeric? && n.used <= |s|
  {
    Numeric(Scaled(negative, Natural(whole + fraction), Exponent(s).0 - |fraction|), Exponent(s).1)
  }

  function Plus(n: Numeric, used: nat): Numeric {
    match n case NotANumber => NotANumber case Numeric(v, more) => Numeric(v, used + more)
  }

  function Scaled(negative: bool, mantissa: nat, exponent: int): real {
    (if negative then -(mantissa as real) else mantissa as real) * Pow10(exponent)
  }

  /** The exponent at the start of `s` and its length; both are zero if there is none. */
  function Exponent(s: string): (r: (int, nat))
    ensures r.1 <= |s|
  {
    if !(Starts(s, 'e') || Starts(s, 'E')) then (0, 0)
    else
      var sign := if Signed(s[1..]) then 1 else 0;
      var d := s[1..][sign..];
      if Digits(d) == 0 then (0, 0)
      else
        var e: int := Natural(d[..Digits(d)]);
        (if Starts(s[1..], '-') then -e else e, 1 + sign + Digits(d))
  }

  /** `parse_number`: `strtod` sees at most 63 characters. */
  function ReadNumber(s: string): (n: Numeric)
    ensures n.Numeric? ==> 1 <= n.used <= |s|
  {
    Strtod(s[..NumberRun(s, 63)])
  }

  /** Nothing that follows a number on a printed page can be taken for a part of it. */
  predicate Follows(rest: string) { rest == [] || !NumberChar(rest[0]) }

  lemma {:induction false} RunStops(s: string, rest: string, limit: nat)
    requires |s| <= limit && (forall k :: 0 <= k < |s| ==> NumberChar(s[k])) && Follows(rest)
    ensures NumberRun(s + rest, limit) == |s|
  {
    if s == [] {
      assert s + rest == rest;
    } else {
      assert (s + rest)[1..] == s[1..] + rest;
      RunStops(s[1..], rest, limit - 1);
    }
  }

  // ----- Values

  datatype Parsed = Fail | Done(value: Json, rest: string)

  datatype ParsedItems = NoItems | Items(items: seq<Json>, after: string)

  datatype ParsedMembers = NoMembers | Members(members: seq<Member>, after: string)

  /** `parse_value`, inside `depth` arrays and objects. */
  function ParseValue(s: string, depth: nat): (p: Parsed)
    ensures p.Done? ==> |p.rest| < |s|
    decreases |s|, 2
  {
    if StartsWith(s, "null") then Done(Null, s[4..])
    else if StartsWith(s, "false") then Done(False, s[5..])
    else if StartsWith(s, "true") then Done(True, s[4..])
    else if s == [] then Fail
    else if s[0] == '"' then
      match ReadString(s) case Unreadable => Fail case Quoted(t, rest) => Done(Json.Text(t), rest)
    else if s[0] == '-' || IsDigit(s[0]) then
      match ReadNumber(s) case NotANumber => Fail case Numeric(v, used) => Done(Number(v), s[used..])
    else if s[0] == '[' then ParseArray(s, depth)
    else if s[0] == '{' then ParseObject(s, depth)
    else Fail
  }

  /** `parse_array`. */
  function ParseArray(s: string, depth: nat): (p: Parsed)
    requires s != []
    ensures p.Done? ==> |p.rest| < |s|
    decreases |s|, 1
  {
    if depth >= NESTING_LIMIT then Fail
    else
      var t := Skip(s[1..]);
      if Starts(t, ']') then Done(Array([]), t[1..])
      else
        match ParseItems(t, depth + 1)
        case NoItems => Fail
        case Items(items, after) => Done(Array(items), after)
  }

  /** From behind an opening bracket or a comma to behind the closing bracket. */
  function ParseItems(s: string, depth: nat): (p: ParsedItems)
    ensures p.Items? ==> |p.after| < |s| && p.items != []
    decreases |s|, 3
  {
    match ParseValue(Skip(s), depth)
    case Fail => NoItems
    case Done(value, rest) =>
      var t := Skip(rest);
      if Starts(t, ',') then AddItems([value], ParseItems(t[1..], depth))
      else if Starts(t, ']') then Items([value], t[1..])
      else NoItems
  }

  function AddItems(items: seq<Json>, p: ParsedItems): ParsedItems {
    match p case NoItems => NoItems case Items(more, after) => Items(items + more, after)
  }

  /** `parse_object`. */
  function ParseObject(s: string, depth: nat): (p: Parsed)
    requires s != []
    ensures p.Done? ==> |p.rest| < |s|
    decreases |s|, 1
  {
    if depth >= NESTING_LIMIT then Fail
    else
      var t := Skip(s[1..]);
      if Starts(t, '}') then Done(Object([]), t[1..])
      else
        match ParseMembers(t, depth + 1)
        case NoMembers => Fail
        case Members(members, after) => Done(Object(members), after)
  }

  function ParseMembers(s: string, depth: nat): (p: ParsedMembers)
    ensures p.Members? ==> |p.after| < |s| && p.members != []
    decreases |s|, 3
  {
    match ReadString(Skip(s))
    case Unreadable => NoMembers
    case Quoted(key, afterKey) =>
      var colon := Skip(afterKey);
      if !Starts(colon, ':') then NoMembers
      else
        match ParseValue(Skip(colon[1..]), depth)
        case Fail => NoMembers
        case Done(value, rest) =>
          var t := Skip(rest);
          if Starts(t, ',') then AddMembers([Member(key, value)], ParseMembers(t[1..], depth))
          else if Starts(t, '}') then Members([Member(key, value)], t[1..])
          else NoMembers
  }

  function AddMembers(members: seq<Member>, p: ParsedMembers): ParsedMembers {
    match p case NoMembers => NoMembers case Members(more, after) => Members(members + more, after)
  }

  const BOM: string := [0xEF as char, 0xBB as char, 0xBF as char]

  /** `skip_utf8_bom`: a text of fewer than four characters keeps its mark. */
  function SkipBom(s: string): string { if |s| >= 4 && s[..3] == BOM then s[3..] else s }

  /** `cJSON_ParseWithOpts`; `strict` is `require_null_terminated`. */
  function Parse(text: string, strict: bool): Parsed {
    match ParseValue(Skip(SkipBom(text)), 0)
    case Fail => Fail
    case Done(value, rest) =>
      if !strict then Done(value, rest) else if Skip(rest) == [] then Done(value, []) else Fail
  }
}
