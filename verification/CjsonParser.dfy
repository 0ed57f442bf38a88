/**
 The parser at work: `ParseBuffer` has the offset and the nesting depth of `parse_buffer`, and its methods
 compute what the functions of `CjsonParse` say.
 */
module CjsonParser {
  import opened CjsonString
  import opened CjsonTree
  import opened CjsonParse

  lemma RunAt(s: string, i: nat, limit: nat)
    requires i <= |s|
    ensures NumberRun(s[i..], limit)
         == if limit > 0 && i < |s| && NumberChar(s[i]) then 1 + NumberRun(s[i + 1..], limit - 1) else 0
  {
    if i < |s| { assert s[i..][1..] == s[i + 1..]; }
  }

  class ParseBuffer {
    const content: string
    var offset: nat
    var depth: nat

    /** The content ends in its only NUL, and the offset never passes it. */
    ghost predicate Valid() reads this {
      && |content| >= 1 && content[|content| - 1] == '\0' && '\0' !in content[..|content| - 1]
      && offset < |content|
    }

    /** The text from the offset on. */
    ghost function Rest(): string
      requires Valid()
      reads this
    {
      content[offset..|content| - 1]
    }

    constructor (text: string)
      requires '\0' !in text
      ensures Valid() && Rest() == text && depth == 0 && offset == 0
    {
      content := text + ['\0'];
      offset, depth := 0, 0;
    }

    /** The offset moved over the first `n` characters of what was left. */
    twostate predicate Moved(n: nat)
      requires old(Valid())
      reads this
    {
      Valid() && n <= |old(Rest())| && Rest() == old(Rest())[n..] && offset == old(offset) + n && depth == old(depth)
    }

    /** The methods gave what the parser makes of the text, and the offset stands behind it. */
    twostate predicate Gives(p: Parsed, ok: bool, value: Json)
      reads this
    {
      match p
      case Fail => !ok
      case Done(v, rest) =>
        ok && value == v && Valid() && Rest() == rest && depth == old(depth) && offset > old(offset)
    }

    /** `buffer_skip_whitespace`: the NUL counts as white space, but the offset steps back to it. */
    method SkipWhitespace()
      requires Valid()
      modifies this`offset
      ensures Valid() && Rest() == Skip(old(Rest())) && offset >= old(offset)
    {
      ghost var text := content[..|content| - 1];
      while offset < |content| && content[offset] as nat <= 32
        invariant old(offset) <= offset <= |content|
        invariant offset < |content| ==> Skip(content[offset..|content| - 1]) == Skip(old(Rest()))
        invariant offset == |content| ==> Skip(old(Rest())) == []
        decreases |content| - offset
      {
        if offset < |content| - 1 {
          assert content[offset..|content| - 1][1..] == content[offset + 1..|content| - 1];
        }
        offset := offset + 1;
      }
      if offset == |content| {
        offset := offset - 1;
      } else if offset < |content| - 1 {
        assert content[offset..|content| - 1][0] == content[offset];
      }
    }

    /** `can_read` and `strncmp`. */
    method Reads(word: string) returns (yes: bool)
      requires Valid() && '\0' !in word
      ensures yes == StartsWith(Rest(), word)
    {
      yes := offset + |word| <= |content| && content[offset..offset + |word|] == word;
      if offset + |word| <= |content| - 1 {
        assert Rest()[..|word|] == content[offset..offset + |word|];
      } else if offset + |word| == |content| && |word| > 0 {
        assert content[offset..offset + |word|][|word| - 1] == '\0';
      }
    }

    /** The character at the offset; the NUL at the end of the text. */
    method Peek() returns (c: char)
      requires Valid()
      ensures c == (if Rest() == [] then '\0' else Rest()[0])
      ensures c == '\0' <==> Rest() == []
    {
      c := content[offset];
      if offset < |content| - 1 {
        assert c == content[..|content| - 1][offset];
      }
    }

    method Advance(n: nat)
      requires Valid() && n <= |Rest()|
      modifies this`offset
      ensures Moved(n)
    {
      offset := offset + n;
    }

    /** `parse_number`: up to 63 characters are copied for `strtod`. */
    method ParseNumber() returns (ok: bool, value: Json)
      requires Valid()
      modifies this`offset
      ensures match ReadNumber(old(Rest()))
        case NotANumber => !ok
        case Numeric(v, used) => ok && value == Number(v) && Moved(used)
    {
      hide Strtod, NumberRun;
      value := Null;
      var copy := CopyNumber();
      var n := Strtod(copy);
      ok := n.Numeric?;
      if ok {
        value := Number(n.value);
        Advance(n.used);
      }
    }

    /** The loop that copies at most 63 characters which can belong to a number. */
    method CopyNumber() returns (copy: string)
      requires Valid()
      ensures copy == Rest()[..NumberRun(Rest(), 63)]
    {
      hide NumberRun;
      copy := [];
      var i := 0;
      assert Rest()[0..] == Rest();
      while i < 63 && offset + i < |content| && NumberChar(content[offset + i])
        invariant i <= 63 && offset + i < |content|
        invariant copy == Rest()[..i]
        invariant NumberRun(Rest(), 63) == i + NumberRun(Rest()[i..], 63 - i)
      {
        RunAt(Rest(), i, 63 - i);
        copy := copy + [content[offset + i]];
        i := i + 1;
      }
      RunAt(Rest(), i, 63 - i);
    }

    method ParseText() returns (ok: bool, text: string)
      requires Valid()
      modifies this`offset
      ensures match ReadString(old(Rest()))
        case Unreadable => !ok
        case Quoted(t, rest) => ok && text == t && Valid() && Rest() == rest && offset > old(offset)
    {
      var end;
      assert content[offset..] == Rest() + ['\0'];
      ReadBeforeNul(Rest());
      ok, text, end := ParseString(content, offset);
      if ok {
        ghost var rest := ReadString(Rest()).rest;
        assert content[end..] == rest + ['\0'];
        offset := end;
        assert Rest() + ['\0'] == content[end..];
        assert Rest() == content[end..][..|content[end..]| - 1];
        assert rest == (rest + ['\0'])[..|rest|];
      }
    }

    /** `parse_value`. */
    method ParseValue() returns (ok: bool, value: Json)
      requires Valid()
      modifies this
      ensures Gives(CjsonParse.ParseValue(old(Rest()), old(depth)), ok, value)
      decreases |content| - offset, 2
    {
      ok, value := true, Null;
      var isNull := Reads("null");
      if isNull { Advance(4); return; }
      var isFalse := Reads("false");
      if isFalse { value := False; Advance(5); return; }
      var isTrue := Reads("true");
      if isTrue { value := True; Advance(4); return; }
      var c := Peek();
      if c == '"' {
        var text;
        ok, text := ParseText();
        value := Json.Text(text);
      } else if c == '-' || '0' <= c <= '9' {
        ok, value := ParseNumber();
      } else if c == '[' {
        ok, value := ParseArray();
      } else if c == '{' {
        ok, value := ParseObject();
      } else {
        ok := false;
      }
    }

    /** The loop of `parse_array`, from the character before the first element to the closing bracket. */
    method ParseItems() returns (ok: bool, items: seq<Json>)
      requires Valid() && Rest() != []
      modifies this
      ensures match CjsonParse.ParseItems(old(Rest())[1..], old(depth))
        case NoItems => !ok
        case Items(all, after) =>
          ok && items == all && Valid() && Starts(Rest(), ']') && Rest()[1..] == after && depth == old(depth)
          && offset > old(offset)
      decreases |content| - offset, 0
    {
      hide CjsonParse.ParseValue, ReadString, Skip;
      ghost var spec := CjsonParse.ParseItems(Rest()[1..], depth);
      ok, items := false, [];
      var again := true;
      while again
        invariant Valid() && old(offset) <= offset && depth == old(depth)
        invariant again ==> Rest() != [] && spec == AddItems(items, CjsonParse.ParseItems(Rest()[1..], depth))
        invariant !again ==> offset > old(offset) && spec == EndItems(items, Rest())
        decreases |content| - offset, again
      {
        ItemsStep(items, Rest()[1..], depth);
        Advance(1);
        SkipWhitespace();
        var item;
        ok, item := ParseValue();
        if !ok { return; }
        SkipWhitespace();
        var c := Peek();
        items := items + [item];
        again := c == ',';
      }
      var c := Peek();
      ok := c == ']';
    }

    /** `parse_array`. */
    method ParseArray() returns (ok: bool, value: Json)
      requires Valid() && Starts(Rest(), '[')
      modifies this
      ensures Gives(CjsonParse.ParseArray(old(Rest()), old(depth)), ok, value)
      decreases |content| - offset, 1
    {
      hide CjsonParse.ParseItems, Skip;
      ok, value := false, Null;
      if depth >= NESTING_LIMIT { return; }
      depth := depth + 1;
      Advance(1);
      SkipWhitespace();
      var items: seq<Json> := [];
      var c := Peek();
      if c != ']' {
        ghost var inner := Rest();
        offset := offset - 1;
        assert Rest()[1..] == inner;
        ok, items := ParseItems();
        if !ok { return; }
      }
      depth := depth - 1;
      ok, value := true, Array(items);
      Advance(1);
    }

    /** The loop of `parse_object`, from the character before the first element to the closing bracket. */
    method ParseMembers() returns (ok: bool, members: seq<Member>)
      requires Valid() && Rest() != []
      modifies this
      ensures match CjsonParse.ParseMembers(old(Rest())[1..], old(depth))
        case NoMembers => !ok
        case Members(all, after) =>
          ok && members == all && Valid() && Starts(Rest(), '}') && Rest()[1..] == after && depth == old(depth)
          && offset > old(offset)
      decreases |content| - offset, 0
    {
      hide CjsonParse.ParseValue, ReadString, Skip;
      ghost var spec := CjsonParse.ParseMembers(Rest()[1..], depth);
      ok, members := false, [];
      var again := true;
      while again
        invariant Valid() && old(offset) <= offset && depth == old(depth)
        invariant again ==> Rest() != [] && spec == AddMembers(members, CjsonParse.ParseMembers(Rest()[1..], depth))
        invariant !again ==> offset > old(offset) && spec == EndMembers(members, Rest())
        decreases |content| - offset, again
      {
        MembersStep(members, Rest()[1..], depth);
        Advance(1);
        SkipWhitespace();
        var key, value;
        ok, key := ParseText();
        if !ok { return; }
        SkipWhitespace();
        var colon := Peek();
        if colon != ':' { return false, members; }
        Advance(1);
        SkipWhitespace();
        ok, value := ParseValue();
        if !ok { return; }
        SkipWhitespace();
        var c := Peek();
        members := members + [Member(key, value)];
        again := c == ',';
      }
      var c := Peek();
      ok := c == '}';
    }

    /** `parse_object`. */
    method ParseObject() returns (ok: bool, value: Json)
      requires Valid() && Starts(Rest(), '{')
      modifies this
      ensures Gives(CjsonParse.ParseObject(old(Rest()), old(depth)), ok, value)
      decreases |content| - offset, 1
    {
      hide CjsonParse.ParseMembers, Skip;
      ok, value := false, Null;
      if depth >= NESTING_LIMIT { return; }
      depth := depth + 1;
      Advance(1);
      SkipWhitespace();
      var members: seq<Member> := [];
      var c := Peek();
      if c != '}' {
        ghost var inner := Rest();
        offset := offset - 1;
        assert Rest()[1..] == inner;
        ok, members := ParseMembers();
        if !ok { return; }
      }
      depth := depth - 1;
      ok, value := true, Object(members);
      Advance(1);
    }
  }

  /** `cJSON_ParseWithOpts`. */
  method ParseWithOpts(text: string, strict: bool) returns (ok: bool, value: Json)
    requires '\0' !in text
    ensures match Parse(text, strict)
      case Fail => !ok
      case Done(v, _) => ok && value == v
  {
    hide CjsonParse.ParseValue, Skip;
    var buffer := new ParseBuffer(text);
    if 4 < |buffer.content| && buffer.content[..3] == BOM {
      assert buffer.content[..3] == text[..3];
      buffer.Advance(3);
    } else if |text| >= 4 {
      assert buffer.content[..3] == text[..3];
    }
    buffer.SkipWhitespace();
    ok, value := buffer.ParseValue();
    if ok && strict {
      buffer.SkipWhitespace();
      var c := buffer.Peek();
      ok := c == '\0';
    }
  }

  function EndItems(items: seq<Json>, s: string): ParsedItems {
    if Starts(s, ']') then Items(items, s[1..]) else NoItems
  }

  function EndMembers(members: seq<Member>, s: string): ParsedMembers {
    if Starts(s, '}') then Members(members, s[1..]) else NoMembers
  }

  /** One round of the element loop with `items` behind it. */
  function ItemsFrom(items: seq<Json>, s: string, depth: nat): ParsedItems {
    match CjsonParse.ParseValue(Skip(s), depth)
    case Fail => NoItems
    case Done(v, rest) =>
      var t := Skip(rest);
      if Starts(t, ',') then AddItems(items + [v], CjsonParse.ParseItems(t[1..], depth)) else EndItems(items + [v], t)
  }

  lemma ItemsStep(items: seq<Json>, s: string, depth: nat)
    ensures AddItems(items, CjsonParse.ParseItems(s, depth)) == ItemsFrom(items, s, depth)
  {
    hide CjsonParse.ParseValue, Skip;
    match CjsonParse.ParseValue(Skip(s), depth)
    case Fail =>
    case Done(v, rest) =>
      var t := Skip(rest);
      if Starts(t, ',') {
        AddItemsTwice(items, [v], CjsonParse.ParseItems(t[1..], depth));
      }
  }

  lemma AddItemsTwice(a: seq<Json>, b: seq<Json>, p: ParsedItems)
    ensures AddItems(a, AddItems(b, p)) == AddItems(a + b, p)
  {
    if p.Items? { assert a + (b + p.items) == a + b + p.items; }
  }

  function MembersFrom(members: seq<Member>, s: string, depth: nat): ParsedMembers {
    match ReadString(Skip(s))
    case Unreadable => NoMembers
    case Quoted(key, afterKey) =>
      var colon := Skip(afterKey);
      if !Starts(colon, ':') then NoMembers else MembersAt(members, key, Skip(colon[1..]), depth)
  }

  function MembersAt(members: seq<Member>, key: string, s: string, depth: nat): ParsedMembers {
    match CjsonParse.ParseValue(s, depth)
    case Fail => NoMembers
    case Done(v, rest) =>
      var t := Skip(rest);
      if Starts(t, ',') then AddMembers(members + [Member(key, v)], CjsonParse.ParseMembers(t[1..], depth))
      else EndMembers(members + [Member(key, v)], t)
  }

  lemma MembersStep(members: seq<Member>, s: string, depth: nat)
    ensures AddMembers(members, CjsonParse.ParseMembers(s, depth)) == MembersFrom(members, s, depth)
  {
    hide CjsonParse.ParseValue, ReadString, Skip;
    var k := ReadString(Skip(s));
    if k.Quoted? && Starts(Skip(k.rest), ':') {
      var p := CjsonParse.ParseValue(Skip(Skip(k.rest)[1..]), depth);
      if p.Done? && Starts(Skip(p.rest), ',') {
        AddMembersTwice(members, [Member(k.text, p.value)], CjsonParse.ParseMembers(Skip(p.rest)[1..], depth));
      }
    }
  }

  lemma AddMembersTwice(a: seq<Member>, b: seq<Member>, p: ParsedMembers)
    ensures AddMembers(a, AddMembers(b, p)) == AddMembers(a + b, p)
  {
    if p.Members? { assert a + (b + p.members) == a + b + p.members; }
  }

  /** The NUL behind a text does not change how a literal is read. */
  lemma ReadBeforeNul(s: string)
    ensures match ReadString(s)
      case Unreadable => ReadString(s + ['\0']).Unreadable?
      case Quoted(t, rest) => ReadString(s + ['\0']) == Quoted(t, rest + ['\0'])
  {
    if Starts(s, '"') {
      CloseBeforeNul(s[1..]);
      var n := s + ['\0'];
      assert n[1..] == s[1..] + ['\0'];
      var end := Close(s[1..]);
      if end.Some? {
        assert n[1..1 + end.value] == s[1..1 + end.value] && n[end.value + 2..] == s[end.value + 2..] + ['\0'];
      }
    } else if s == [] {
      assert s + ['\0'] == ['\0'];
    }
  }

  lemma CloseBeforeNul(s: string)
    ensures Close(s + ['\0']) == Close(s)
    decreases |s|
  {
    if s != [] && s[0] != '"' {
      var step := if s[0] == '\\' then 2 else 1;
      if |s| >= step {
        assert (s + ['\0'])[step..] == s[step..] + ['\0'];
        CloseBeforeNul(s[step..]);
      } else {
        assert (s + ['\0'])[2..] == [];
      }
    } else if s == [] {
      assert s + ['\0'] == ['\0'] && ['\0'][1..] == [];
    }
  }
}
