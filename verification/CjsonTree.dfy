/** JSON values as trees, and the text that `cJSON_Print` and `cJSON_PrintUnformatted` give for them. */
module CjsonTree {
  import opened CjsonString

  /** A number is its `valuedouble`; a text is what a C string reads as. */
  datatype Json =
    | Null
    | False
    | True
    | Number(value: real)
    | Text(text: string)
    | Array(items: seq<Json>)
    | Object(members: seq<Member>)

  datatype Member = Member(key: string, value: Json)

  const NESTING_LIMIT: nat := 1000

  /** How deeply arrays and objects are nested in a value. */
  function Nesting(j: Json): nat {
    match j
    case Array(items) => 1 + ItemsNesting(items)
    case Object(members) => 1 + MembersNesting(members)
    case _ => 0
  }

  function ItemsNesting(items: seq<Json>): nat {
    if items == [] then 0 else Max(Nesting(items[0]), ItemsNesting(items[1..]))
  }

  function MembersNesting(members: seq<Member>): nat {
    if members == [] then 0 else Max(Nesting(members[0].value), MembersNesting(members[1..]))
  }

  function Max(a: nat, b: nat): nat { if a < b then b else a }

  // ----- Numbers

  const FIFTEEN_DIGITS: int := 1_000_000_000_000_000

  /** The numbers that 15 significant digits print as plain integers. */
  predicate IntValued(v: real) { v == v.Floor as real && -FIFTEEN_DIGITS < v.Floor < FIFTEEN_DIGITS }

  function Decimal(n: nat): (s: string)
    ensures |s| >= 1 && forall k :: 0 <= k < |s| ==> '0' <= s[k] <= '9'
  {
    if n < 10 then ['0' + n as char] else Decimal(n / 10) + ['0' + (n % 10) as char]
  }

  function Numeral(n: int): string { if n < 0 then ['-'] + Decimal(-n) else Decimal(n) }

  // ----- Printing

  /** Numbers are integers in range, and texts and keys hold no NUL. */
  predicate Printable(j: Json) {
    match j
    case Number(v) => IntValued(v)
    case Text(t) => '\0' !in t
    case Array(items) => forall k :: 0 <= k < |items| ==> Printable(items[k])
    case Object(members) => forall k :: 0 <= k < |members| ==> '\0' !in members[k].key && Printable(members[k].value)
    case _ => true
  }

  function Tabs(depth: nat): (s: string)
    ensures |s| == depth && forall k :: 0 <= k < depth ==> s[k] == '\t'
  {
    seq(depth, _ => '\t')
  }

  /** The printed text of a value at the given depth; `fmt` chooses the layout of `cJSON_Print`. */
  function Print(j: Json, depth: nat, fmt: bool): string
    requires Printable(j)
  {
    match j
    case Null => "null"
    case False => "false"
    case True => "true"
    case Number(v) => Numeral(v.Floor)
    case Text(t) => Quote(t)
    case Array(items) => ['['] + PrintItems(items, depth + 1, fmt) + [']']
    case Object(members) =>
      (if fmt then "{\n" else "{") + PrintMembers(members, depth + 1, fmt) + (if fmt then Tabs(depth) else []) + ['}']
  }

  function PrintItems(items: seq<Json>, depth: nat, fmt: bool): string
    requires forall k :: 0 <= k < |items| ==> Printable(items[k])
  {
    if items == [] then []
    else
      Print(items[0], depth, fmt) + Comma(|items| > 1, if fmt then ", " else ",") + PrintItems(items[1..], depth, fmt)
  }

  function Comma(more: bool, separator: string): string { if more then separator else [] }

  function PrintMembers(members: seq<Member>, depth: nat, fmt: bool): string
    requires forall k :: 0 <= k < |members| ==> '\0' !in members[k].key && Printable(members[k].value)
  {
    if members == [] then []
    else
      (if fmt then Tabs(depth) else [])
      + (Quote(members[0].key)
         + ((if fmt then ":\t" else ":")
            + (Print(members[0].value, depth, fmt)
               + (Comma(|members| > 1, ",") + ((if fmt then "\n" else []) + PrintMembers(members[1..], depth, fmt))))))
  }
}
