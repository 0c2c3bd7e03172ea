// The printer of cJSON.c: a buffer that grows, or a fixed one that must be large enough.

module JsonPrintBuffer {
  import opened JsonString
  import opened JsonText
  import opened Options

  const INT_MAX := 0x7fff_ffff

  // Numbers print in at most 25 characters, the size of a local buffer.
  predicate Short<N(==)>(lib: Libc<N>, v: Value<N>) {
    match v
    case Number(n) => |NumberText(lib, n)| <= 25
    case Array(items) => ShortItems(lib, items)
    case Object(members) => ShortMembers(lib, members)
    case _ => true
  }

  predicate ShortItems<N(==)>(lib: Libc<N>, items: seq<Value<N>>) {
    items == [] || (Short(lib, items[0]) && ShortItems(lib, items[1..]))
  }

  predicate ShortMembers<N(==)>(lib: Libc<N>, members: seq<Member<N>>) {
    members == [] || (Short(lib, members[0].value) && ShortMembers(lib, members[1..]))
  }

  // Strings are C strings, and so is what sprintf writes.
  predicate InC<N(==)>(lib: Libc<N>, v: Value<N>) {
    match v
    case Number(n) => NulFree(NumberText(lib, n))
    case String(s) => NulFree(s)
    case Array(items) => ItemsInC(lib, items)
    case Object(members) => MembersInC(lib, members)
    case _ => true
  }

  predicate ItemsInC<N(==)>(lib: Libc<N>, items: seq<Value<N>>) {
    items == [] || (InC(lib, items[0]) && ItemsInC(lib, items[1..]))
  }

  predicate MembersInC<N(==)>(lib: Libc<N>, members: seq<Member<N>>) {
    members == [] || (NulFree(members[0].name) && InC(lib, members[0].value) && MembersInC(lib, members[1..]))
  }

  // ----- no NUL is printed

  lemma {:induction false} EscapedHasNoNul(s: string)
    ensures NulFree(EscapeAll(s))
  {
    if s != "" {
      EscapedHasNoNul(s[1..]);
      EscapeHasNoNul(s[0]);
    }
  }

  lemma EscapeHasNoNul(c: char)
    ensures NulFree(Escape(c))
  {}

  lemma NoNulTogether(a: string, b: string)
    requires NulFree(a) && NulFree(b)
    ensures NulFree(a + b)
  {}

  lemma TabsHaveNoNul(k: nat)
    ensures NulFree(Tabs(k))
  {}

  lemma QuotedHasNoNul(s: string)
    ensures NulFree(Quoted(s))
  {
    EscapedHasNoNul(s);
  }

  lemma {:induction false} TextHasNoNul<N>(lib: Libc<N>, fmt: bool, v: Value<N>, k: nat)
    requires InC(lib, v)
    ensures NulFree(Text(lib, fmt, v, k))
    decreases v, 1
  {
    match v
    case String(s) => QuotedHasNoNul(s);
    case Array(items) => ItemsHaveNoNul(lib, fmt, items, k + 1);
    case Object(members) =>
      hide NulFree, MembersText, Tabs;
      MembersHaveNoNul(lib, fmt, members, k + 1);
      TabsHaveNoNul(k);
      var open, end := if fmt then "{\n" else "{", if fmt then Tabs(k) else "";
      assert NulFree(open) && NulFree(end) && NulFree("}") by {
        LiteralsHaveNoNul();
      }
      NoNulTogether(open, MembersText(lib, fmt, members, k + 1));
      NoNulTogether(open + MembersText(lib, fmt, members, k + 1), end);
      NoNulTogether(open + MembersText(lib, fmt, members, k + 1) + end, "}");
    case _ =>
  }

  lemma LiteralsHaveNoNul()
    ensures NulFree("") && NulFree("{") && NulFree("{\n") && NulFree("}") && NulFree(":") && NulFree(":\t")
    ensures NulFree(",") && NulFree("\n")
  {}

  lemma {:induction false} ItemsHaveNoNul<N>(lib: Libc<N>, fmt: bool, items: seq<Value<N>>, k: nat)
    requires ItemsInC(lib, items)
    ensures NulFree(ItemsText(lib, fmt, items, k))
    decreases items, 0
  {
    hide Text;
    if items != [] {
      TextHasNoNul(lib, fmt, items[0], k);
      ItemsHaveNoNul(lib, fmt, items[1..], k);
    }
  }

  lemma {:induction false} MembersHaveNoNul<N>(lib: Libc<N>, fmt: bool, members: seq<Member<N>>, k: nat)
    requires MembersInC(lib, members)
    ensures NulFree(MembersText(lib, fmt, members, k))
    decreases members, 2
  {
    hide Text, Quoted, Tabs, NulFree;
    LiteralsHaveNoNul();
    if members != [] {
      TabsHaveNoNul(k);
      QuotedHasNoNul(members[0].name);
      TextHasNoNul(lib, fmt, members[0].value, k);
      MembersHaveNoNul(lib, fmt, members[1..], k);
      var a, b, c := if fmt then Tabs(k) else "", Quoted(members[0].name), if fmt then ":\t" else ":";
      var d, e, f := Text(lib, fmt, members[0].value, k), if |members| == 1 then "" else ",", if fmt then "\n" else "";
      NoNulTogether(a, b);
      NoNulTogether(a + b, c);
      NoNulTogether(a + b + c, d);
      NoNulTogether(a + b + c + d, e);
      NoNulTogether(a + b + c + d + e, f);
      NoNulTogether(a + b + c + d + e + f, MembersText(lib, fmt, members[1..], k));
    }
  }

  // ----- the buffer

  class PrintBuffer {
    var buffer: array<char>
    var offset: nat
    var depth: nat
    const noalloc: bool
    const format: bool
    const hasRealloc: bool  // the hooks have a realloc

    constructor (buffer: array<char>, noalloc: bool, format: bool, hasRealloc: bool)
      requires buffer.Length <= INT_MAX && (noalloc || hasRealloc || 0 < buffer.Length)
      ensures this.buffer == buffer && offset == 0 && depth == 0
      ensures this.noalloc == noalloc && this.format == format && this.hasRealloc == hasRealloc
      ensures Valid() && buffer[..offset] == ""
    {
      this.buffer, offset, depth := buffer, 0, 0;
      this.noalloc, this.format, this.hasRealloc := noalloc, format, hasRealloc;
    }

    ghost predicate Valid()
      reads `buffer, `offset
    {
      buffer.Length <= INT_MAX && (offset < buffer.Length || (offset == 0 && (noalloc || hasRealloc)))
    }

    // The most bytes that the text and its terminator can take.
    ghost function Capacity(): nat
      reads `buffer
    {
      if noalloc then buffer.Length else INT_MAX
    }

    // The text before the offset.
    ghost predicate At(text: string)
      reads `buffer, `offset, buffer
    {
      Valid() && buffer[..offset] == text
    }

    // The text with its terminator; the offset may not have reached its end yet.
    ghost predicate Put(text: string)
      reads `buffer, `offset, buffer
    {
      && Valid() && offset <= |text| < buffer.Length
      && buffer[..|text|] == text && buffer[|text|] == '\0'
    }

    // ensure: room for that many bytes and one more behind the offset.
    method Ensure(needed: nat, ghost text: string) returns (ok: bool)
      requires At(text)
      modifies this`buffer
      ensures ok <==> offset + needed + 1 <= Capacity()
      ensures At(text) && Capacity() == old(Capacity()) && (buffer == old(buffer) || (!noalloc && fresh(buffer)))
      ensures ok ==> offset + needed + 1 <= buffer.Length
    {
      if buffer.Length > 0 && offset >= buffer.Length {
        return false;
      }
      if needed > INT_MAX {
        return false;
      }
      var total := needed + offset + 1;
      if total <= buffer.Length {
        return true;
      }
      if noalloc {
        return false;
      }
      var newsize;
      if total > INT_MAX / 2 {
        if total > INT_MAX {
          return false;
        }
        newsize := INT_MAX;
      } else {
        newsize := total * 2;
      }
      var grown := new char[newsize];
      var kept := if hasRealloc then buffer.Length else offset + 1;
      forall i | 0 <= i < kept {
        grown[i] := buffer[i];
      }
      assert grown[..offset] == buffer[..offset];
      buffer := grown;
      ok := true;
    }

    // update_offset: the offset goes to the terminator.
    method UpdateOffset(ghost text: string)
      requires Put(text) && forall i :: offset <= i < |text| ==> text[i] != '\0'
      modifies this`offset
      ensures At(text) && offset == |text| && buffer[offset] == '\0'
    {
      assert forall i :: 0 <= i < |text| ==> buffer[i] == text[i];
      while buffer[offset] != '\0'
        invariant old(offset) <= offset <= |text|
        decreases |text| - offset
      {
        offset := offset + 1;
      }
    }

    // Characters that are written one after the other from pos on.
    method Write(pos: nat, t: string, ghost before: string)
      requires pos + |t| <= buffer.Length && buffer[..pos] == before
      modifies buffer
      ensures buffer[..pos + |t|] == before + t
    {
      forall i | 0 <= i < |t| {
        buffer[pos + i] := t[i];
      }
      assert buffer[..pos] == before;
    }

    // Characters at the offset, and a terminator.
    method WriteEnded(t: string, ghost text: string)
      requires At(text) && offset + |t| < buffer.Length
      modifies buffer
      ensures Put(text + t)
    {
      Write(offset, t, text);
      buffer[offset + |t|] := '\0';
      assert buffer[..offset + |t|] == text + t;
    }

    // Characters at the offset, which goes to their end.
    method Append(t: string, ghost text: string)
      requires At(text) && offset + |t| < buffer.Length
      modifies this`offset, buffer
      ensures At(text + t)
    {
      Write(offset, t, text);
      offset := offset + |t|;
    }

    // A literal text: null, false or true.
    method PrintWord(t: string, ghost text: string) returns (ok: bool)
      requires At(text)
      modifies this`buffer, buffer
      ensures ok <==> Fits(Capacity(), text, t)
      ensures ok ==> Put(text + t) && |text| <= offset
      ensures Capacity() == old(Capacity()) && (buffer == old(buffer) || (!noalloc && fresh(buffer)))
    {
      ok := Ensure(|t| + 1, text);
      if ok {
        WriteEnded(t, text);
      }
    }

    // print_number
    method PrintNumber<N(==)>(lib: Libc<N>, n: N, ghost text: string) returns (ok: bool)
      requires At(text)
      modifies this`buffer, this`offset, buffer
      ensures ok <==> Short(lib, Number(n)) && Fits(Capacity(), text, NumberText(lib, n))
      ensures ok ==> Put(text + NumberText(lib, n)) && |text| <= offset
      ensures Capacity() == old(Capacity()) && (buffer == old(buffer) || (!noalloc && fresh(buffer)))
    {
      var number;
      if !lib.finite(n) {
        number := "null";
      } else {
        number := lib.short(n);
        var test := lib.scan(number);
        if test.used == 0 || test.n != n {
          number := lib.long(n);
        }
      }
      if |number| > 25 {
        return false;
      }
      ok := Ensure(|number| + 1, text);
      if ok {
        WriteEnded(number, text);
        offset := offset + |number|;
      }
    }

    // The first loop of print_string_ptr: the length of the escaped string.
    static method EscapedLength(s: string) returns (length: nat)
      ensures length == |EscapeAll(s)|
    {
      hide Escape;
      var escapes, i := 0, 0;
      while i < |s|
        invariant 0 <= i <= |s| && i + escapes + |EscapeAll(s[i..])| == |EscapeAll(s)|
      {
        EscapeLength(s[i]);
        assert s[i..][1..] == s[i + 1..];
        if s[i] == '\"' || s[i] == '\\' || s[i] == 8 as char || s[i] == 12 as char
           || s[i] == '\n' || s[i] == '\r' || s[i] == '\t' {
          escapes := escapes + 1;
        } else if s[i] < 32 as char {
          escapes := escapes + 5;
        }
        i := i + 1;
      }
      length := i + escapes;
    }

    // The second loop of print_string_ptr. pos is behind the opening quote.
    method WriteEscaped(s: string, pos: nat, ghost before: string)
      requires pos + |EscapeAll(s)| <= buffer.Length && buffer[..pos] == before
      modifies buffer
      ensures buffer[..pos + |EscapeAll(s)|] == before + EscapeAll(s)
    {
      hide Escape;
      ghost var goal := before + EscapeAll(s);
      var at := pos;
      assert s[0..] == s;
      for i := 0 to |s|
        invariant pos <= at && at + |EscapeAll(s[i..])| == pos + |EscapeAll(s)|
        invariant buffer[..at] + EscapeAll(s[i..]) == goal
      {
        ghost var done := buffer[..at];
        assert s[i..][1..] == s[i + 1..];
        assert done + (Escape(s[i]) + EscapeAll(s[i + 1..])) == done + Escape(s[i]) + EscapeAll(s[i + 1..]);
        Write(at, Escape(s[i]), done);
        at := at + |Escape(s[i])|;
      }
      assert buffer[..at] + "" == buffer[..at];
    }

    // What print_string_ptr writes between the quotes.
    method WriteBody(s: string, length: nat, pos: nat, ghost before: string)
      requires length == |EscapeAll(s)| && pos + length <= buffer.Length && buffer[..pos] == before
      modifies buffer
      ensures buffer[..pos + length] == before + EscapeAll(s)
    {
      hide EscapeAll;
      if length == |s| {
        UnescapedLength(s);
        Write(pos, s, before);
      } else {
        WriteEscaped(s, pos, before);
      }
    }

    // print_string_ptr
    method PrintString(s: string, ghost text: string) returns (ok: bool)
      requires At(text)
      modifies this`buffer, buffer
      ensures ok <==> Fits(Capacity(), text, Quoted(s))
      ensures ok ==> Put(text + Quoted(s)) && |text| <= offset
      ensures Capacity() == old(Capacity()) && (buffer == old(buffer) || (!noalloc && fresh(buffer)))
    {
      hide EscapeAll;
      ghost var body := EscapeAll(s);
      var length := EscapedLength(s);
      ok := Ensure(length + 3, text);
      if ok {
        var pos := offset + 1;
        Write(offset, "\"", text);
        WriteBody(s, length, pos, text + "\"");
        pos := pos + length;
        Write(pos, "\"", text + "\"" + body);
        ghost var whole := text + "\"" + body + "\"";
        assert whole == text + Quoted(s);
        pos := pos + 1;
        buffer[pos] := '\0';
        assert buffer[..pos] == whole;
      }
    }

    // Separators: room is made, and the offset goes behind them.
    method PrintPart(t: string, ghost text: string) returns (ok: bool)
      requires At(text)
      modifies this`buffer, this`offset, buffer
      ensures ok <==> Fits(Capacity(), text, t)
      ensures ok ==> At(text + t)
      ensures Capacity() == old(Capacity()) && (buffer == old(buffer) || (!noalloc && fresh(buffer)))
    {
      ok := Ensure(|t| + 1, text);
      if ok {
        WriteEnded(t, text);
        offset := offset + |t|;
      }
    }

    // What is printed has its terminator behind it: the offset goes there.
    method EndOffset(ghost text: string, ghost t: string)
      requires Put(text + t) && |text| <= offset && NulFree(t)
      modifies this`offset
      ensures At(text + t)
    {
      UpdateOffset(text + t);
    }

    // A value inside an array or object, with the offset behind it.
    method PrintInner<N(==)>(lib: Libc<N>, v: Value<N>, ghost text: string) returns (ok: bool)
      requires At(text) && InC(lib, v)
      modifies this, buffer
      ensures ok <==> Short(lib, v) && Fits(Capacity(), text, Text(lib, format, v, depth))
      ensures ok ==> At(text + Text(lib, format, v, depth))
      ensures depth == old(depth) && Capacity() == old(Capacity())
      ensures buffer == old(buffer) || (!noalloc && fresh(buffer))
      decreases v, 1
    {
      hide Text, Short, InC;
      ghost var t := Text(lib, format, v, depth);
      TextHasNoNul(lib, format, v, depth);
      ok := PrintValue(lib, v, text);
      if ok {
        EndOffset(text, t);
      }
    }

    // One round of the loop of print_array: an item, and a comma if there is a next one.
    method PrintItem<N(==)>(lib: Libc<N>, item: Value<N>, last: bool, ghost text: string) returns (ok: bool)
      requires At(text) && InC(lib, item)
      modifies this, buffer
      ensures ok <==> Short(lib, item) && Fits(Capacity(), text, ItemText(lib, format, item, last, depth))
      ensures ok ==> At(text + ItemText(lib, format, item, last, depth))
      ensures depth == old(depth) && Capacity() == old(Capacity())
      ensures buffer == old(buffer) || (!noalloc && fresh(buffer))
      decreases item, 2
    {
      hide Text, Short, InC, At, Fits;
      ghost var t := Text(lib, format, item, depth);
      var comma := if last then "" else if format then ", " else ",";
      Chain(Capacity(), text, t, comma);
      ok := PrintInner(lib, item, text);
      if !last {
        if ok {
          ok := PrintPart(comma, text + t);
        }
      } else {
        assert t + "" == t;
      }
    }

    // The loop of print_array.
    method PrintItems<N(==)>(lib: Libc<N>, items: seq<Value<N>>, ghost text: string) returns (ok: bool)
      requires At(text) && ItemsInC(lib, items)
      modifies this, buffer
      ensures !ok ==> !ShortItems(lib, items) || !Fits(Capacity(), text, ItemsText(lib, format, items, depth))
      ensures ok ==> ShortItems(lib, items) && At(text + ItemsText(lib, format, items, depth))
      ensures depth == old(depth) && Capacity() == old(Capacity())
      ensures buffer == old(buffer) || (!noalloc && fresh(buffer))
      decreases items, 2
    {
      hide Short, InC, ItemText, ItemsText, At, Fits;
      ghost var done, all := text, ItemsText(lib, format, items, depth);
      assert items[0..] == items;
      for i := 0 to |items|
        invariant At(done) && depth == old(depth) && ItemsInC(lib, items[i..])
        invariant text + all == done + ItemsText(lib, format, items[i..], depth)
        invariant Fits(Capacity(), text, all) <==> Fits(Capacity(), done, ItemsText(lib, format, items[i..], depth))
        invariant ShortItems(lib, items) <==> ShortItems(lib, items[i..])
        invariant Capacity() == old(Capacity()) && (buffer == old(buffer) || (!noalloc && fresh(buffer)))
      {
        ghost var item := ItemText(lib, format, items[i], i + 1 == |items|, depth);
        ItemsFirst(lib, format, items, i, depth);
        Chain(Capacity(), done, item, ItemsText(lib, format, items[i + 1..], depth));
        ok := PrintItem(lib, items[i], i + 1 == |items|, done);
        if !ok {
          return;
        }
        done := done + item;
      }
      ItemsNone(lib, format, depth, done);
      ok := true;
    }

    // Characters with no terminator behind them.
    method PrintOpen(t: string, needed: nat, ghost text: string) returns (ok: bool)
      requires At(text) && |t| <= needed <= |t| + 1
      modifies this`buffer, this`offset, buffer
      ensures ok ==> At(text + t)
      ensures !ok ==> !Fits(Capacity(), text, t)
      ensures Capacity() == old(Capacity()) && (buffer == old(buffer) || (!noalloc && fresh(buffer)))
    {
      ok := Ensure(needed, text);
      if ok {
        Append(t, text);
      }
    }

    // print_array
    method PrintArray<N(==)>(lib: Libc<N>, items: seq<Value<N>>, ghost text: string) returns (ok: bool)
      requires At(text) && ItemsInC(lib, items)
      modifies this, buffer
      ensures ok <==> ShortItems(lib, items) && Fits(Capacity(), text, Text(lib, format, Array(items), depth))
      ensures ok ==> Put(text + Text(lib, format, Array(items), depth)) && |text| <= offset
      ensures depth == old(depth) && Capacity() == old(Capacity())
      ensures buffer == old(buffer) || (!noalloc && fresh(buffer))
      decreases items, 3
    {
      hide ItemsText, ShortItems, ItemsInC, Fits, Text, At, Put;
      ArrayText(lib, format, items, depth);
      ghost var inner := ItemsText(lib, format, items, depth + 1);
      Bracketed(Capacity(), text, "[", inner, "]");
      ok := PrintOpen("[", 1, text);
      if !ok {
        return;
      }
      depth := depth + 1;
      ok := PrintItems(lib, items, text + "[");
      if ok {
        ok := PrintWord("]", text + "[" + inner);
      }
      depth := depth - 1;
    }

    // One round of the loop of print_object.
    method PrintMember<N(==)>(lib: Libc<N>, m: Member<N>, last: bool, ghost text: string) returns (ok: bool)
      requires At(text) && NulFree(m.name) && InC(lib, m.value)
      modifies this, buffer
      ensures ok <==> Short(lib, m.value) && Fits(Capacity(), text, MemberText(lib, format, m, last, depth))
      ensures ok ==> At(text + MemberText(lib, format, m, last, depth))
      ensures depth == old(depth) && Capacity() == old(Capacity())
      ensures buffer == old(buffer) || (!noalloc && fresh(buffer))
      decreases m, 2
    {
      hide Text, Short, InC, Fits, Quoted, Tabs, NulFree, Put, At;
      ghost var name, value := Quoted(m.name), Text(lib, format, m.value, depth);
      ghost var tabs, colon := if format then Tabs(depth) else "", if format then ":\t" else ":";
      var end := (if last then "" else ",") + (if format then "\n" else "");
      MemberParts(Capacity(), text, tabs, name, colon, value, end);
      ok := PrintName(m.name, text);
      if !ok {
        return;
      }
      ok := PrintInner(lib, m.value, text + tabs + name + colon);
      if !ok {
        return;
      }
      ok := PrintPart(end, text + tabs + name + colon + value);
    }

    // The name of a member, and what is around it.
    method PrintName(name: string, ghost text: string) returns (ok: bool)
      requires At(text) && NulFree(name)
      modifies this`buffer, this`offset, buffer
      ensures var tabs, colon := if format then Tabs(depth) else "", if format then ":\t" else ":";
        if ok then At(text + tabs + Quoted(name) + colon) else !Fits(Capacity(), text, tabs + Quoted(name) + colon)
      ensures Capacity() == old(Capacity()) && (buffer == old(buffer) || (!noalloc && fresh(buffer)))
    {
      hide Fits, Quoted, Tabs, NulFree, Put;
      var tabs, colon := if format then Tabs(depth) else "", if format then ":\t" else ":";
      NameParts(Capacity(), text, tabs, Quoted(name), colon);
      ok := true;
      if format {
        ok := PrintOpen(tabs, |tabs|, text);
      } else {
        assert text + "" == text;
      }
      if !ok {
        return;
      }
      ok := PrintString(name, text + tabs);
      if !ok {
        return;
      }
      QuotedHasNoNul(name);
      EndOffset(text + tabs, Quoted(name));
      ok := PrintOpen(colon, |colon|, text + tabs + Quoted(name));
    }

    // The loop of print_object.
    method PrintMembers<N(==)>(lib: Libc<N>, members: seq<Member<N>>, ghost text: string) returns (ok: bool)
      requires At(text) && MembersInC(lib, members)
      modifies this, buffer
      ensures !ok ==> !ShortMembers(lib, members) || !Fits(Capacity(), text, MembersText(lib, format, members, depth))
      ensures ok ==> ShortMembers(lib, members) && At(text + MembersText(lib, format, members, depth))
      ensures depth == old(depth) && Capacity() == old(Capacity())
      ensures buffer == old(buffer) || (!noalloc && fresh(buffer))
      decreases members, 2
    {
      hide Short, InC, MemberText, MembersText, At, Fits, NulFree;
      ghost var done, all := text, MembersText(lib, format, members, depth);
      assert members[0..] == members;
      for i := 0 to |members|
        invariant At(done) && depth == old(depth) && MembersInC(lib, members[i..])
        invariant text + all == done + MembersText(lib, format, members[i..], depth)
        invariant Fits(Capacity(), text, all) <==> Fits(Capacity(), done, MembersText(lib, format, members[i..], depth))
        invariant ShortMembers(lib, members) <==> ShortMembers(lib, members[i..])
        invariant Capacity() == old(Capacity()) && (buffer == old(buffer) || (!noalloc && fresh(buffer)))
      {
        ghost var member := MemberText(lib, format, members[i], i + 1 == |members|, depth);
        MembersFirst(lib, format, members, i, depth);
        Chain(Capacity(), done, member, MembersText(lib, format, members[i + 1..], depth));
        ok := PrintMember(lib, members[i], i + 1 == |members|, done);
        if !ok {
          return;
        }
        done := done + member;
      }
      MembersNone(lib, format, depth, done);
      ok := true;
    }

    // print_object
    method PrintObject<N(==)>(lib: Libc<N>, members: seq<Member<N>>, ghost text: string) returns (ok: bool)
      requires At(text) && MembersInC(lib, members)
      modifies this, buffer
      ensures ok <==> ShortMembers(lib, members) && Fits(Capacity(), text, Text(lib, format, Object(members), depth))
      ensures ok ==> Put(text + Text(lib, format, Object(members), depth)) && |text| <= offset
      ensures depth == old(depth) && Capacity() == old(Capacity())
      ensures buffer == old(buffer) || (!noalloc && fresh(buffer))
      decreases members, 3
    {
      hide MembersText, ShortMembers, MembersInC, Fits, Tabs, Text, At, Put;
      var open, close := if format then "{\n" else "{", (if format then Tabs(depth) else "") + "}";
      ghost var inner := MembersText(lib, format, members, depth + 1);
      Bracketed(Capacity(), text, open, inner, close);
      ObjectText(lib, format, members, depth);
      ok := PrintOpen(open, |open| + 1, text);
      if !ok {
        return;
      }
      depth := depth + 1;
      ok := PrintMembers(lib, members, text + open);
      if ok {
        ok := PrintWord(close, text + open + inner);
      }
      depth := depth - 1;
    }

    // print_value
    method PrintValue<N(==)>(lib: Libc<N>, v: Value<N>, ghost text: string) returns (ok: bool)
      requires At(text) && InC(lib, v)
      modifies this, buffer
      ensures ok <==> Short(lib, v) && Fits(Capacity(), text, Text(lib, format, v, depth))
      ensures ok ==> Put(text + Text(lib, format, v, depth)) && |text| <= offset
      ensures depth == old(depth) && Capacity() == old(Capacity())
      ensures buffer == old(buffer) || (!noalloc && fresh(buffer))
      decreases v, 0
    {
      hide NumberText, Put, At, Fits, Quoted, ItemsText, MembersText;
      match v
      case Null => ok := PrintWord("null", text);
      case Bool(b) => ok := PrintWord(if b then "true" else "false", text);
      case Number(n) => ok := PrintNumber(lib, n, text);
      case String(s) => ok := PrintString(s, text);
      case Array(items) => ok := PrintArray(lib, items, text);
      case Object(members) => ok := PrintObject(lib, members, text);
    }
  }

  // ----- parts of a text

  // What print_value needs to print t behind text: room for it and two more bytes.
  predicate Fits(capacity: nat, text: string, t: string) {
    |text| + |t| + 2 <= capacity
  }

  lemma Bracketed(capacity: nat, text: string, open: string, inner: string, close: string)
    ensures text + (open + inner + close) == text + open + inner + close
    ensures Fits(capacity, text, open + inner + close) <==> Fits(capacity, text + open + inner, close)
    ensures Fits(capacity, text, open + inner + close) ==>
      Fits(capacity, text, open) && Fits(capacity, text + open, inner)
  {}

  lemma MemberParts(capacity: nat, text: string, a: string, b: string, c: string, d: string, e: string)
    ensures text + (a + b + c + d + e) == text + a + b + c + d + e
    ensures Fits(capacity, text, a + b + c + d + e) <==> Fits(capacity, text + a + b + c + d, e)
    ensures Fits(capacity, text, a + b + c + d + e) ==>
      Fits(capacity, text, a + b + c) && Fits(capacity, text + a + b + c, d)
  {}

  lemma NameParts(capacity: nat, text: string, a: string, b: string, c: string)
    ensures Fits(capacity, text, a + b + c) ==>
      Fits(capacity, text, a) && Fits(capacity, text + a, b) && Fits(capacity, text + a + b, c)
  {}

  // Texts that are printed one behind the other.
  lemma Chain(capacity: nat, text: string, t: string, u: string)
    ensures text + (t + u) == text + t + u
    ensures Fits(capacity, text, t + u) <==> Fits(capacity, text + t, u)
    ensures Fits(capacity, text, t + u) ==> Fits(capacity, text, t)
  {}

  function MemberText<N(==)>(lib: Libc<N>, fmt: bool, m: Member<N>, last: bool, depth: nat): string {
    (if fmt then Tabs(depth) else "") + Quoted(m.name) + (if fmt then ":\t" else ":")
    + Text(lib, fmt, m.value, depth) + ((if last then "" else ",") + (if fmt then "\n" else ""))
  }

  function ItemText<N(==)>(lib: Libc<N>, fmt: bool, item: Value<N>, last: bool, depth: nat): string {
    Text(lib, fmt, item, depth) + (if last then "" else if fmt then ", " else ",")
  }

  // The items from i on: one item and those behind it.
  lemma ItemsFirst<N>(lib: Libc<N>, fmt: bool, items: seq<Value<N>>, i: nat, depth: nat)
    requires i < |items|
    ensures ItemsText(lib, fmt, items[i..], depth)
         == ItemText(lib, fmt, items[i], i + 1 == |items|, depth) + ItemsText(lib, fmt, items[i + 1..], depth)
    ensures ShortItems(lib, items[i..]) <==> Short(lib, items[i]) && ShortItems(lib, items[i + 1..])
    ensures ItemsInC(lib, items[i..]) <==> InC(lib, items[i]) && ItemsInC(lib, items[i + 1..])
  {
    hide Text, Short, InC;
    var from := items[i..];
    assert from[0] == items[i] && from[1..] == items[i + 1..];
  }

  lemma ItemsNone<N>(lib: Libc<N>, fmt: bool, depth: nat, done: string)
    ensures done + ItemsText<N>(lib, fmt, [], depth) == done && ShortItems<N>(lib, [])
  {
    assert done + "" == done;
  }

  lemma ArrayText<N>(lib: Libc<N>, fmt: bool, items: seq<Value<N>>, depth: nat)
    ensures Text(lib, fmt, Array(items), depth) == "[" + ItemsText(lib, fmt, items, depth + 1) + "]"
  {}

  lemma ObjectText<N>(lib: Libc<N>, fmt: bool, members: seq<Member<N>>, depth: nat)
    ensures Text(lib, fmt, Object(members), depth)
         == (if fmt then "{\n" else "{") + MembersText(lib, fmt, members, depth + 1)
            + ((if fmt then Tabs(depth) else "") + "}")
  {
    hide MembersText, Tabs;
    var a, c := if fmt then "{\n" else "{", if fmt then Tabs(depth) else "";
    var b := MembersText(lib, fmt, members, depth + 1);
    assert a + b + c + "}" == a + b + (c + "}");
  }

  lemma MembersFirst<N>(lib: Libc<N>, fmt: bool, members: seq<Member<N>>, i: nat, depth: nat)
    requires i < |members|
    ensures MembersText(lib, fmt, members[i..], depth)
         == MemberText(lib, fmt, members[i], i + 1 == |members|, depth) + MembersText(lib, fmt, members[i + 1..], depth)
    ensures ShortMembers(lib, members[i..]) <==> Short(lib, members[i].value) && ShortMembers(lib, members[i + 1..])
    ensures MembersInC(lib, members[i..])
       <==> NulFree(members[i].name) && InC(lib, members[i].value) && MembersInC(lib, members[i + 1..])
  {
    hide Text, Short, InC, Quoted, Tabs, NulFree;
    var from := members[i..];
    assert from[0] == members[i] && from[1..] == members[i + 1..];
    var m := members[i];
    var a := (if fmt then Tabs(depth) else "") + Quoted(m.name) + (if fmt then ":\t" else ":")
      + Text(lib, fmt, m.value, depth);
    var b, c := if i + 1 == |members| then "" else ",", if fmt then "\n" else "";
    assert a + b + c == a + (b + c);
  }

  lemma MembersNone<N>(lib: Libc<N>, fmt: bool, depth: nat, done: string)
    ensures done + MembersText<N>(lib, fmt, [], depth) == done && ShortMembers<N>(lib, [])
  {
    assert done + "" == done;
  }

  lemma EscapeLength(c: char)
    ensures |Escape(c)| == if c == '\"' || c == '\\' || c == 8 as char || c == 12 as char
                              || c == '\n' || c == '\r' || c == '\t' then 2
                           else if c < 32 as char then 6 else 1
    ensures |Escape(c)| == 1 ==> Escape(c) == [c]
  {}

  lemma {:induction false} EscapedIsLonger(s: string)
    ensures |s| <= |EscapeAll(s)|
  {
    hide Escape;
    if s != "" {
      EscapeLength(s[0]);
      EscapedIsLonger(s[1..]);
    }
  }

  lemma {:induction false} UnescapedLength(s: string)
    requires |EscapeAll(s)| == |s|
    ensures EscapeAll(s) == s
  {
    hide Escape;
    if s != "" {
      EscapeLength(s[0]);
      EscapedIsLonger(s[1..]);
      UnescapedLength(s[1..]);
    }
  }

  // ----- the ways to print

  // What every way of printing gives.
  function Printed<N(==)>(lib: Libc<N>, fmt: bool, v: Value<N>, capacity: nat): Option<string> {
    if Short(lib, v) && |Text(lib, fmt, v, 0)| + 2 <= capacity then Some(Text(lib, fmt, v, 0)) else None
  }

  function Min(a: nat, b: nat): nat {
    if a < b then a else b
  }

  // The end of print: the text goes to a buffer of its own size.
  method Trim(buffer: array<char>, offset: nat, hasRealloc: bool) returns (text: string)
    requires offset < buffer.Length && buffer[offset] == '\0'
    ensures text == buffer[..offset]
  {
    var printed := new char[offset + 1];
    var size := if hasRealloc then offset + 1 else Min(buffer.Length, offset + 1);
    forall i | 0 <= i < size {
      printed[i] := buffer[i];
    }
    printed[offset] := '\0';
    text := printed[..offset];
  }

  // print, which is cJSON_Print with fmt and cJSON_PrintUnformatted without
  method Print<N(==)>(lib: Libc<N>, v: Value<N>, fmt: bool, hasRealloc: bool) returns (r: Option<string>)
    requires InC(lib, v)
    ensures r == Printed(lib, fmt, v, INT_MAX)
  {
    hide Text, Short, InC;
    ghost var t := Text(lib, fmt, v, 0);
    assert "" + t == t;
    var buffer := new char[256];
    var p := new PrintBuffer(buffer, false, fmt, hasRealloc);
    var ok := p.PrintValue(lib, v, "");
    if !ok {
      return None;
    }
    TextHasNoNul(lib, fmt, v, 0);
    p.UpdateOffset(t);
    var printed := Trim(p.buffer, p.offset, hasRealloc);
    r := Some(printed);
  }

  // cJSON_PrintBuffered
  method PrintBuffered<N(==)>(lib: Libc<N>, v: Value<N>, prebuffer: int, fmt: bool, hasRealloc: bool)
    returns (r: Option<string>)
    requires InC(lib, v) && prebuffer <= INT_MAX && (prebuffer == 0 ==> hasRealloc)
    ensures r == if prebuffer < 0 then None else Printed(lib, fmt, v, INT_MAX)
  {
    hide Short, InC;
    if prebuffer < 0 {
      return None;
    }
    var buffer := new char[prebuffer];
    var p := new PrintBuffer(buffer, false, fmt, hasRealloc);
    var ok := p.PrintValue(lib, v, "");
    ghost var t := Text(lib, fmt, v, 0);
    assert "" + t == t;
    if !ok {
      return None;
    }
    var n := Strlen(p.buffer, t, lib, fmt, v);
    r := Some(p.buffer[..n]);
  }

  // The length of the C string in a buffer.
  method Strlen<N(==)>(buffer: array<char>, ghost t: string, ghost lib: Libc<N>, ghost fmt: bool, ghost v: Value<N>)
    returns (n: nat)
    requires InC(lib, v) && t == Text(lib, fmt, v, 0) && |t| < buffer.Length
    requires buffer[..|t|] == t && buffer[|t|] == '\0'
    ensures n == |t|
  {
    hide Text, InC;
    TextHasNoNul(lib, fmt, v, 0);
    assert forall i :: 0 <= i < |t| ==> buffer[i] == t[i];
    n := 0;
    while buffer[n] != '\0'
      invariant n <= |t|
      decreases |t| - n
    {
      n := n + 1;
    }
  }

  // cJSON_PrintPreallocated. The buffer must have one byte more than the text and its terminator.
  method PrintPreallocated<N(==)>(lib: Libc<N>, v: Value<N>, buf: array<char>, fmt: bool, hasRealloc: bool)
    returns (ok: bool)
    requires InC(lib, v) && buf.Length <= INT_MAX
    modifies buf
    ensures ok <==> Printed(lib, fmt, v, buf.Length).Some?
    ensures ok ==> var t := Text(lib, fmt, v, 0); buf[..|t|] == t && buf[|t|] == '\0'
  {
    hide Short, InC, Text;
    var p := new PrintBuffer(buf, true, fmt, hasRealloc);
    ok := p.PrintValue(lib, v, "");
    ghost var t := Text(lib, fmt, v, 0);
    assert "" + t == t;
  }
}
