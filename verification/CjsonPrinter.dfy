/**
 The printer at work: pieces of text go to a buffer that `ensure` makes room in, and `update_offset` finds the
 end of what a callee wrote by its NUL.
 */
module CjsonPrinter {
  import opened CjsonString
  import opened CjsonTree

  const INT_MAX: nat := 0x7FFF_FFFF

  /** The characters that escaping adds to a text. */
  function Extras(text: string): (n: nat)
    ensures |Escape(text)| == |text| + n
  {
    if text == [] then 0 else Extra(text[0]) + Extras(text[1..])
  }

  lemma {:induction false} PlainEscape(text: string)
    requires Extras(text) == 0
    ensures Escape(text) == text
  {
    if text != [] {
      PlainEscape(text[1..]);
      assert EscapeChar(text[0]) == [text[0]];
    }
  }

  class PrintBuffer {
    var buffer: array<char>
    var length: nat
    var offset: nat
    var depth: nat
    const noalloc: bool
    const format: bool

    ghost predicate Valid() reads this {
      length == buffer.Length && length <= INT_MAX && (offset < length || (length == 0 && offset == 0))
    }

    /** What the offset and the room behind it may come to. */
    ghost function Limit(): nat reads this { if noalloc then length else INT_MAX }

    constructor (buffer: array<char>, noalloc: bool, format: bool)
      requires buffer.Length <= INT_MAX
      ensures Valid() && this.buffer == buffer && offset == 0 && depth == 0
      ensures this.noalloc == noalloc && this.format == format
    {
      this.buffer, length, offset, depth := buffer, buffer.Length, 0, 0;
      this.noalloc, this.format := noalloc, format;
    }

    /** `ensure`: room for `needed` characters and one more, in the same buffer or a larger one that starts
        with everything the old one held. */
    method Ensure(needed: nat) returns (ok: bool)
      requires Valid()
      modifies this`buffer, this`length
      ensures Valid() && Limit() == old(Limit()) && (buffer == old(buffer) || (!noalloc && fresh(buffer)))
      ensures ok <==> offset + needed + 1 <= Limit()
      ensures ok ==> offset + needed + 1 <= length
      ensures old(length) <= length && buffer[..old(length)] == old(buffer[..])
    {
      if length > 0 && offset >= length { return false; }
      if needed > INT_MAX { return false; }
      var total := needed + offset + 1;
      if total <= length { return true; }
      if noalloc { return false; }
      var size;
      if total > INT_MAX / 2 {
        if total > INT_MAX { return false; }
        size := INT_MAX;
      } else {
        size := total * 2;
      }
      // realloc
      var larger := new char[size];
      forall k | 0 <= k < length { larger[k] := buffer[k]; }
      length, buffer := size, larger;
      ok := true;
    }

    /** Characters are stored from `at` on; what is granted must hold them. */
    method Store(at: nat, s: string)
      requires Valid() && at + |s| <= length
      modifies buffer
      ensures buffer[..at] == old(buffer[..at]) && buffer[at..at + |s|] == s
      ensures buffer[at + |s|..] == old(buffer[at + |s|..])
    {
      for k := 0 to |s|
        invariant buffer[..at] == old(buffer[..at]) && buffer[at..at + k] == s[..k]
        invariant buffer[at + k..] == old(buffer[at + k..])
      {
        buffer[at + k] := s[k];
        assert buffer[at + k + 1..] == old(buffer[at + k..])[1..];
        assert s[..k + 1] == s[..k] + [s[k]];
      }
    }

    /** What a printing method leaves behind: `text` up to a NUL that `update_offset` will find. */
    ghost predicate Ends(before: string, text: string, end: nat)
      reads this`buffer, this`length, this`offset, buffer
    {
      && length == buffer.Length && offset <= end < length && buffer[end] == '\0'
      && (forall k :: offset <= k < end ==> buffer[k] != '\0')
      && buffer[..end] == before + text
    }

    lemma Ended(text: string, end: nat)
      requires Valid() && offset <= end < length && buffer[offset..end] == text && buffer[end] == '\0'
      requires '\0' !in text
      ensures Ends(buffer[..offset], text, end)
    {
      assert buffer[..end] == buffer[..offset] + text;
      forall k | offset <= k < end ensures buffer[k] != '\0' {
        assert buffer[offset..end][k - offset] == text[k - offset];
      }
    }

    lemma Regrouped(b: string, t: string, before: string, text: string, end: nat)
      requires Ends(b, t, end) && b + t == before + text
      ensures Ends(before, text, end)
    {
    }

    /** `update_offset`. */
    method UpdateOffset(ghost before: string, ghost text: string, ghost end: nat)
      requires Valid() && Ends(before, text, end)
      modifies this`offset
      ensures Valid() && offset == end && buffer[..offset] == before + text
    {
      var n := 0;
      while buffer[offset + n] != '\0'
        invariant offset + n <= end
        decreases end - (offset + n)
      {
        n := n + 1;
      }
      offset := offset + n;
    }

    /** A piece of text goes to the buffer, with a NUL behind it where the source writes one; the offset follows. */
    method Append(s: string, needed: nat, nul: bool) returns (ok: bool)
      requires Valid() && |s| + (if nul then 1 else 0) <= needed <= |s| + 1
      modifies this`buffer, this`length, this`offset, buffer
      ensures Limit() == old(Limit()) && (buffer == old(buffer) || (!noalloc && fresh(buffer)))
      ensures ok <==> old(offset) + needed + 1 <= Limit()
      ensures ok ==> Valid() && offset == old(offset) + |s| && buffer[..offset] == old(buffer[..offset]) + s
      ensures ok && nul ==> offset < buffer.Length && buffer[offset] == '\0'
    {
      ok := Ensure(needed);
      if !ok { return; }
      assert buffer[..offset] == old(buffer[..offset]);
      Store(offset, s);
      if nul { buffer[offset + |s|] := '\0'; }
      assert buffer[..offset + |s|] == buffer[..offset] + buffer[offset..offset + |s|];
      offset := offset + |s|;
    }

    /** A piece of text and its NUL go to the buffer; the offset stays. */
    method Leave(s: string) returns (ok: bool, ghost end: nat)
      requires Valid() && '\0' !in s
      modifies this`buffer, this`length, buffer
      ensures Valid() && Limit() == old(Limit()) && (buffer == old(buffer) || (!noalloc && fresh(buffer)))
      ensures ok <==> offset + |s| + 2 <= Limit()
      ensures ok ==> Ends(old(buffer[..offset]), s, end)
    {
      end := offset + |s|;
      ok := Ensure(|s| + 1);
      if !ok { return; }
      assert buffer[..offset] == old(buffer[..offset]);
      Store(offset, s + ['\0']);
      assert buffer[offset..end] == buffer[offset..end + 1][..|s|];
      assert buffer[end] == buffer[offset..end + 1][|s|];
      Ended(s, end);
    }

    /** The counting loop of `print_string_ptr`. */
    static method CountEscapes(text: string) returns (escapes: nat)
      ensures escapes == Extras(text)
    {
      hide Escape;
      escapes := 0;
      for i := 0 to |text|
        invariant escapes + Extras(text[i..]) == Extras(text)
      {
        assert text[i..][1..] == text[i + 1..];
        escapes := escapes + Extra(text[i]);
      }
    }

    /** `print_string_ptr`: one loop counts what escaping adds, the other writes, and they agree. */
    method PrintString(text: string) returns (ok: bool, ghost end: nat)
      requires Valid() && '\0' !in text
      modifies this`buffer, this`length, buffer
      ensures Valid() && Limit() == old(Limit()) && (buffer == old(buffer) || (!noalloc && fresh(buffer)))
      ensures ok <==> offset + |Quote(text)| + 2 <= Limit()
      ensures ok ==> Ends(old(buffer[..offset]), Quote(text), end)
    {
      hide Escape, EscapeChar, Ends;
      end := offset + |Quote(text)|;
      var escapes := CountEscapes(text);
      var outputLength := |text| + escapes;
      ok := Ensure(outputLength + 3);
      if !ok { return; }
      assert buffer[..offset] == old(buffer[..offset]);
      if escapes == 0 {
        CopyPlain(text);
      } else {
        CopyEscaped(text, outputLength);
      }
      assert buffer[..offset] == buffer[..end][..offset] && buffer[offset..end] == buffer[..end][offset..];
      QuoteHasNoNul(text);
      Ended(Quote(text), end);
    }

    /** An escaped character; `sprintf` closes the long form with a NUL of its own. */
    method StoreEscaped(at: nat, c: char)
      requires Valid() && at + |EscapeChar(c)| < length
      modifies buffer
      ensures buffer[..at + |EscapeChar(c)|] == old(buffer[..at]) + EscapeChar(c)
    {
      hide EscapeChar;
      var e := EscapeChar(c);
      Store(at, e);
      if |e| == 6 { buffer[at + 6] := '\0'; }
      assert buffer[..at + |e|] == buffer[..at] + buffer[at..at + |e|];
    }

    /** A text with nothing to escape is copied as it is. */
    method CopyPlain(text: string)
      requires Valid() && Extras(text) == 0 && offset + |text| + 3 <= length
      modifies buffer
      ensures buffer[..offset + |text| + 2] == old(buffer[..offset]) + Quote(text)
      ensures buffer[offset + |text| + 2] == '\0'
    {
      hide Escape;
      PlainEscape(text);
      var s := ['"'] + text + ['"', '\0'];
      Store(offset, s);
      var end := offset + |text| + 2;
      assert s == Quote(text) + ['\0'] && buffer[end] == buffer[offset..end + 1][|text| + 2];
      assert buffer[..end] == buffer[..offset] + buffer[offset..end + 1][..|text| + 2];
    }

    /** The copy loop: it fills the quotes exactly, and never writes beyond them and the NUL. */
    method CopyEscaped(text: string, outputLength: nat)
      requires Valid() && outputLength == |Escape(text)| && offset + outputLength + 3 <= length
      modifies buffer
      ensures buffer[..offset + outputLength + 2] == old(buffer[..offset]) + Quote(text)
      ensures buffer[offset + outputLength + 2] == '\0'
    {
      hide EscapeChar, Escape;
      buffer[offset] := '"';
      ghost var whole := old(buffer[..offset]) + ['"'] + Escape(text);
      var out := offset + 1;
      assert text[0..] == text && buffer[..out] == old(buffer[..offset]) + ['"'];
      for i := 0 to |text|
        invariant offset + 1 <= out && out + |Escape(text[i..])| == offset + 1 + outputLength
        invariant buffer[..out] + Escape(text[i..]) == whole
      {
        EscapeFrom(text, i);
        var e := EscapeChar(text[i]);
        Join(buffer[..out], e, Escape(text[i + 1..]));
        StoreEscaped(out, text[i]);
        out := out + |e|;
      }
      EscapeFrom(text, |text|);
      assert buffer[..out] + [] == buffer[..out];
      CloseQuote(out);
      assert whole + ['"'] == old(buffer[..offset]) + Quote(text);
    }

    method CloseQuote(at: nat)
      requires Valid() && at + 2 <= length
      modifies buffer
      ensures buffer[..at + 1] == old(buffer[..at]) + ['"'] && buffer[at + 1] == '\0'
    {
      buffer[at], buffer[at + 1] := '"', '\0';
    }

    /** The closing bracket, after which the depth is what it was. */
    method Finish(close: string, ghost before: string, ghost text: string) returns (ok: bool, ghost end: nat)
      requires Valid() && '\0' !in close && depth > 0
      requires |before| <= offset && buffer[..offset] == before + text
      modifies this`buffer, this`length, this`depth, buffer
      ensures Valid() && Limit() == old(Limit()) && (buffer == old(buffer) || (!noalloc && fresh(buffer)))
      ensures depth == old(depth) - 1 && (ok <==> offset + |close| + 2 <= Limit())
      ensures ok ==> Ends(before, text + close, end)
    {
      hide Ends;
      ok, end := Leave(close);
      depth := depth - 1;
      Join(before, text, close);
      if ok { Regrouped(before + text, close, before, text + close, end); }
    }

    /** `print_value`. The printed text is there, closed by a NUL; and printing fails only for want of room. */
    method PrintValue(j: Json) returns (ok: bool, ghost end: nat)
      requires Valid() && Printable(j)
      modifies this, buffer
      ensures Limit() == old(Limit()) && (buffer == old(buffer) || (!noalloc && fresh(buffer)))
      ensures ok <==> old(offset) + |Print(j, old(depth), format)| + 2 <= Limit()
      ensures ok ==> Valid() && depth == old(depth)
      ensures ok ==> Ends(old(buffer[..offset]), Print(j, depth, format), end)
      decreases j, 1
    {
      match j
      case Null => ok, end := Leave("null");
      case False => ok, end := Leave("false");
      case True => ok, end := Leave("true");
      case Number(v) =>
        var numeral := Numeral(v.Floor);
        ok := Append(numeral, |numeral| + 1, true);
        end := offset;
      case Text(t) => ok, end := PrintString(t);
      case Array(items) => ok, end := PrintArray(items);
      case Object(members) => ok, end := PrintObject(members);
    }

    /** One round of the loop of `print_array`. */
    method PrintItem(item: Json, more: bool) returns (ok: bool)
      requires Valid() && Printable(item)
      modifies this, buffer
      ensures Limit() == old(Limit()) && (buffer == old(buffer) || (!noalloc && fresh(buffer)))
      ensures var text := ItemText(item, old(depth), format, more);
        && (ok <==> old(offset) + |text| + 2 <= Limit())
        && (ok ==> Valid() && depth == old(depth) && buffer[..offset] == old(buffer[..offset]) + text)
      decreases item, 2
    {
      hide Print;
      ghost var end;
      ghost var before, text := buffer[..offset], Print(item, depth, format);
      ok, end := PrintValue(item);
      if !ok { return; }
      UpdateOffset(before, text, end);
      if more {
        var separator := if format then ", " else ",";
        ok := Append(separator, |separator| + 1, true);
        assert ok ==> before + text + separator == before + (text + separator);
      } else {
        assert text + [] == text;
      }
    }

    /** The loop of `print_array`. */
    method PrintElements(items: seq<Json>) returns (ok: bool)
      requires Valid() && Printable(Array(items))
      modifies this, buffer
      ensures Limit() == old(Limit()) && (buffer == old(buffer) || (!noalloc && fresh(buffer)))
      ensures var text := PrintItems(items, old(depth), format);
        && (ok <==> items == [] || old(offset) + |text| + 2 <= Limit())
        && (ok ==> Valid() && depth == old(depth) && buffer[..offset] == old(buffer[..offset]) + text)
      decreases items, 0
    {
      hide Print, PrintItems, ItemText;
      ok := true;
      ghost var sofar := buffer[..offset];
      ghost var whole := sofar + PrintItems(items, depth, format);
      assert items[0..] == items;
      for i := 0 to |items|
        invariant ok && Valid() && Limit() == old(Limit()) && (buffer == old(buffer) || (!noalloc && fresh(buffer)))
        invariant depth == old(depth) && (i > 0 ==> offset + 2 <= Limit())
        invariant buffer[..offset] == sofar && sofar + PrintItems(items[i..], depth, format) == whole
      {
        PrintItemsFrom(items, i, depth, format);
        ghost var text := ItemText(items[i], depth, format, i + 1 < |items|);
        Join(sofar, text, PrintItems(items[i + 1..], depth, format));
        ok := PrintItem(items[i], i + 1 < |items|);
        if !ok { return; }
        sofar := sofar + text;
      }
      PrintItemsFrom(items, |items|, depth, format);
      assert sofar + [] == sofar;
    }

    /** `print_array`. */
    method PrintArray(items: seq<Json>) returns (ok: bool, ghost end: nat)
      requires Valid() && Printable(Array(items))
      modifies this, buffer
      ensures Limit() == old(Limit()) && (buffer == old(buffer) || (!noalloc && fresh(buffer)))
      ensures ok <==> old(offset) + |Print(Array(items), old(depth), format)| + 2 <= Limit()
      ensures ok ==> Valid() && depth == old(depth)
      ensures ok ==> Ends(old(buffer[..offset]), Print(Array(items), depth, format), end)
      decreases items, 1
    {
      hide Print, PrintItems, Ends;
      end := 0;
      ghost var before, all := buffer[..offset], PrintItems(items, depth + 1, format);
      PrintArrayText(items, depth, format);
      ok := Append("[", 1, false);
      if !ok { return; }
      depth := depth + 1;
      ok := PrintElements(items);
      if !ok { return; }
      Join(before, ['['], all);
      ok, end := Finish("]", before, ['['] + all);
    }

    /** The place of a member on the page, its key and the colon. */
    method PrintKey(key: string) returns (ok: bool)
      requires Valid() && '\0' !in key
      modifies this, buffer
      ensures Limit() == old(Limit()) && (buffer == old(buffer) || (!noalloc && fresh(buffer)))
      ensures var text := KeyText(key, old(depth), format);
        && (!ok ==> old(offset) + |text| + 2 > Limit())
        && (ok ==> Valid() && depth == old(depth) && buffer[..offset] == old(buffer[..offset]) + text)
    {
      hide Quote, Tabs;
      ghost var before := buffer[..offset];
      ghost var end;
      ghost var tabs: string := if format then Tabs(depth) else [];
      if format {
        ok := Append(Tabs(depth), depth, false);
        if !ok { return; }
      }
      assert buffer[..offset] == before + tabs;
      ok, end := PrintString(key);
      if !ok { return; }
      UpdateOffset(before + tabs, Quote(key), end);
      var colon := if format then ":\t" else ":";
      ok := Append(colon, |colon|, false);
      assert before + tabs + Quote(key) + colon == before + (tabs + Quote(key) + colon);
    }

    /** One round of the loop of `print_object`. */
    method PrintMember(m: Member, more: bool) returns (ok: bool)
      requires Valid() && Printable(m.value) && '\0' !in m.key
      modifies this, buffer
      ensures Limit() == old(Limit()) && (buffer == old(buffer) || (!noalloc && fresh(buffer)))
      ensures var text := MemberText(m, old(depth), format, more);
        && (ok <==> old(offset) + |text| + 2 <= Limit())
        && (ok ==> Valid() && depth == old(depth) && buffer[..offset] == old(buffer[..offset]) + text)
      decreases m, 2
    {
      hide Print, KeyText, Quote, Tabs;
      ghost var before := buffer[..offset];
      ghost var end;
      ghost var key, value := KeyText(m.key, depth, format), Print(m.value, depth, format);
      ok := PrintKey(m.key);
      if !ok { return; }
      ok, end := PrintValue(m.value);
      if !ok { return; }
      UpdateOffset(before + key, value, end);
      var tail := Comma(more, ",") + if format then "\n" else [];
      ok := Append(tail, |tail| + 1, true);
      Append3(before, key, value, tail);
    }

    /** The loop of `print_object`. */
    method PrintElementsOf(members: seq<Member>) returns (ok: bool)
      requires Valid() && Printable(Object(members))
      modifies this, buffer
      ensures Limit() == old(Limit()) && (buffer == old(buffer) || (!noalloc && fresh(buffer)))
      ensures var text := PrintMembers(members, old(depth), format);
        && (ok <==> members == [] || old(offset) + |text| + 2 <= Limit())
        && (ok ==> Valid() && depth == old(depth) && buffer[..offset] == old(buffer[..offset]) + text)
      decreases members, 0
    {
      hide Print, PrintMembers, MemberText, Ends;
      ok := true;
      ghost var sofar := buffer[..offset];
      ghost var whole := sofar + PrintMembers(members, depth, format);
      assert members[0..] == members;
      for i := 0 to |members|
        invariant ok && Valid() && Limit() == old(Limit()) && (buffer == old(buffer) || (!noalloc && fresh(buffer)))
        invariant depth == old(depth) && (i > 0 ==> offset + 2 <= Limit())
        invariant buffer[..offset] == sofar && sofar + PrintMembers(members[i..], depth, format) == whole
      {
        PrintMembersFrom(members, i, depth, format);
        ghost var text := MemberText(members[i], depth, format, i + 1 < |members|);
        Join(sofar, text, PrintMembers(members[i + 1..], depth, format));
        ok := PrintMember(members[i], i + 1 < |members|);
        if !ok { return; }
        sofar := sofar + text;
      }
      PrintMembersFrom(members, |members|, depth, format);
      assert sofar + [] == sofar;
    }

    /** `print_object`. */
    method PrintObject(members: seq<Member>) returns (ok: bool, ghost end: nat)
      requires Valid() && Printable(Object(members))
      modifies this, buffer
      ensures Limit() == old(Limit()) && (buffer == old(buffer) || (!noalloc && fresh(buffer)))
      ensures ok <==> old(offset) + |Print(Object(members), old(depth), format)| + 2 <= Limit()
      ensures ok ==> Valid() && depth == old(depth)
      ensures ok ==> Ends(old(buffer[..offset]), Print(Object(members), depth, format), end)
      decreases members, 1
    {
      hide Print, PrintMembers, Ends, Tabs;
      end := 0;
      ghost var before, all := buffer[..offset], PrintMembers(members, depth + 1, format);
      PrintObjectText(members, depth, format);
      var open := if format then "{\n" else "{";
      ok := Append(open, |open| + 1, false);
      if !ok { return; }
      depth := depth + 1;
      ok := PrintElementsOf(members);
      if !ok { return; }
      var close: string := (if format then Tabs(depth - 1) else []) + ['}'];
      Join(before, open, all);
      ok, end := Finish(close, before, open + all);
    }
  }

  function KeyText(key: string, depth: nat, fmt: bool): string {
    (if fmt then Tabs(depth) else []) + Quote(key) + (if fmt then ":\t" else ":")
  }

  /** A member, its place on the page, and what separates it from the next. */
  function MemberText(m: Member, depth: nat, fmt: bool, more: bool): string
    requires Printable(m.value)
  {
    KeyText(m.key, depth, fmt) + (Print(m.value, depth, fmt) + (Comma(more, ",") + if fmt then "\n" else []))
  }

  lemma PrintObjectText(members: seq<Member>, depth: nat, fmt: bool)
    requires Printable(Object(members))
    ensures Print(Object(members), depth, fmt)
         == (if fmt then "{\n" else "{") + PrintMembers(members, depth + 1, fmt)
            + ((if fmt then Tabs(depth) else []) + ['}'])
  {
  }

  lemma PrintMembersFrom(members: seq<Member>, i: nat, depth: nat, fmt: bool)
    requires Printable(Object(members)) && i <= |members|
    ensures PrintMembers(members[i..], depth, fmt)
         == if i == |members| then []
            else MemberText(members[i], depth, fmt, i + 1 < |members|) + PrintMembers(members[i + 1..], depth, fmt)
  {
    hide Print, Quote, Tabs;
    if i < |members| {
      assert members[i..][1..] == members[i + 1..];
      Nest(if fmt then Tabs(depth) else [], Quote(members[i].key), if fmt then ":\t" else ":",
           Print(members[i].value, depth, fmt), Comma(i + 1 < |members|, ","), if fmt then "\n" else [],
           PrintMembers(members[i + 1..], depth, fmt));
    }
  }

  lemma Nest(a: string, b: string, c: string, d: string, e: string, f: string, g: string)
    ensures (a + b + c + (d + (e + f))) + g == a + (b + (c + (d + (e + (f + g)))))
  {
    assert (d + (e + f)) + g == d + (e + (f + g));
  }

  /** An item and what separates it from the next. */
  function ItemText(item: Json, depth: nat, fmt: bool, more: bool): string
    requires Printable(item)
  {
    Print(item, depth, fmt) + Comma(more, if fmt then ", " else ",")
  }

  lemma PrintArrayText(items: seq<Json>, depth: nat, fmt: bool)
    requires Printable(Array(items))
    ensures Print(Array(items), depth, fmt) == ['['] + PrintItems(items, depth + 1, fmt) + [']']
  {
  }

  lemma PrintItemsFrom(items: seq<Json>, i: nat, depth: nat, fmt: bool)
    requires Printable(Array(items)) && i <= |items|
    ensures PrintItems(items[i..], depth, fmt)
         == if i == |items| then []
            else ItemText(items[i], depth, fmt, i + 1 < |items|) + PrintItems(items[i + 1..], depth, fmt)
  {
    hide Print;
    if i < |items| { assert items[i..][1..] == items[i + 1..]; }
  }

  lemma Join(a: string, b: string, c: string)
    ensures (a + b) + c == a + (b + c) && |a + (b + c)| == |a| + |b| + |c|
  {
  }

  lemma Append3(a: string, b: string, c: string, d: string)
    ensures a + b + c + d == a + (b + (c + d))
  {
  }

  lemma EscapeFrom(text: string, i: nat)
    requires i <= |text|
    ensures Escape(text[i..]) == if i < |text| then EscapeChar(text[i]) + Escape(text[i + 1..]) else []
  {
    hide EscapeChar;
    if i < |text| { assert text[i..][1..] == text[i + 1..]; }
  }

  lemma QuoteHasNoNul(text: string)
    requires '\0' !in text
    ensures '\0' !in Quote(text)
  {
    EscapeHasNoNul(text);
  }

  lemma EscapeHasNoNul(text: string)
    requires '\0' !in text
    ensures '\0' !in Escape(text)
  {
    if text != [] {
      EscapeHasNoNul(text[1..]);
      assert '\0' !in EscapeChar(text[0]);
    }
  }

  /** `cJSON_Print` and `cJSON_PrintUnformatted`: a buffer of 256 bytes that grows, cut to size at the end. */
  method PrintTree(j: Json, format: bool) returns (printed: array?<char>)
    requires Printable(j)
    ensures printed != null <==> |Print(j, 0, format)| + 2 <= INT_MAX
    ensures printed != null ==> fresh(printed) && printed[..] == Print(j, 0, format) + ['\0']
  {
    hide Print;
    var initial := new char[256];
    var p := new PrintBuffer(initial, false, format);
    ghost var end;
    var ok;
    assert p.buffer[..0] == [];
    ok, end := p.PrintValue(j);
    if !ok { return null; }
    p.UpdateOffset([], Print(j, 0, format), end);
    printed := new char[p.offset + 1];
    forall k | 0 <= k < p.offset { printed[k] := p.buffer[k]; }
    printed[p.offset] := '\0';
    assert printed[..p.offset] == p.buffer[..p.offset] == [] + Print(j, 0, format);
  }

  /** `cJSON_PrintBuffered`, whatever size the buffer starts with. */
  method PrintBuffered(j: Json, prebuffer: int, format: bool) returns (printed: array?<char>)
    requires Printable(j) && prebuffer <= INT_MAX
    ensures printed != null <==> prebuffer >= 0 && |Print(j, 0, format)| + 2 <= INT_MAX
    ensures printed != null ==> fresh(printed) && Holds(printed, Print(j, 0, format))
  {
    hide Print;
    if prebuffer < 0 { return null; }
    var initial := new char[prebuffer];
    var p := new PrintBuffer(initial, false, format);
    ghost var end;
    var ok;
    assert p.buffer[..0] == [];
    ok, end := p.PrintValue(j);
    if !ok { return null; }
    assert [] + Print(j, 0, format) == Print(j, 0, format);
    printed := p.buffer;
  }

  /** `cJSON_PrintPreallocated`: it succeeds exactly when the buffer has two places more than the text. */
  method PrintPreallocated(j: Json, buffer: array<char>, format: bool) returns (ok: bool)
    requires Printable(j) && buffer.Length <= INT_MAX
    modifies buffer
    ensures ok <==> |Print(j, 0, format)| + 2 <= buffer.Length
    ensures ok ==> Holds(buffer, Print(j, 0, format))
  {
    hide Print;
    var p := new PrintBuffer(buffer, true, format);
    ghost var end;
    assert p.buffer[..0] == [];
    ok, end := p.PrintValue(j);
    assert [] + Print(j, 0, format) == Print(j, 0, format);
  }

  /** The buffer reads as the text, up to its first NUL. */
  ghost predicate Holds(buffer: array<char>, text: string) reads buffer {
    |text| < buffer.Length && buffer[..|text|] == text && buffer[|text|] == '\0'
  }
}
