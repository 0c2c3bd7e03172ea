// What cJSON.c prints it parses again.

module JsonRoundTrip {
  import opened JsonString
  import opened JsonText
  import opened Options

  // How deep the arrays and objects of a value are nested.
  function Height<N>(v: Value<N>): nat {
    match v
    case Array(items) => 1 + ItemsHeight(items)
    case Object(members) => 1 + MembersHeight(members)
    case _ => 0
  }

  function ItemsHeight<N>(items: seq<Value<N>>): nat {
    if items == [] then 0
    else
      var h, t := Height(items[0]), ItemsHeight(items[1..]);
      if h < t then t else h
  }

  function MembersHeight<N>(members: seq<Member<N>>): nat {
    if members == [] then 0
    else
      var h, t := Height(members[0].value), MembersHeight(members[1..]);
      if h < t then t else h
  }

  // The C library prints n in a way that it can read back, and in at most 25 characters.
  predicate Readable<N(==)>(lib: Libc<N>, n: N) {
    var t := NumberText(lib, n);
    && 0 < |t| <= 25 && (t[0] == '-' || '0' <= t[0] <= '9')
    && (forall i :: 0 <= i < |t| ==> IsNumberChar(t[i]))
    && lib.scan(t) == Scan(n, |t|)
  }

  // All strings are C strings, and all numbers can be read back.
  predicate Clean<N(==)>(lib: Libc<N>, v: Value<N>) {
    match v
    case Number(n) => Readable(lib, n)
    case String(s) => NulFree(s)
    case Array(items) => CleanItems(lib, items)
    case Object(members) => CleanMembers(lib, members)
    case _ => true
  }

  predicate CleanItems<N(==)>(lib: Libc<N>, items: seq<Value<N>>) {
    items == [] || (Clean(lib, items[0]) && CleanItems(lib, items[1..]))
  }

  predicate CleanMembers<N(==)>(lib: Libc<N>, members: seq<Member<N>>) {
    members == []
    || (NulFree(members[0].name) && Clean(lib, members[0].value) && CleanMembers(lib, members[1..]))
  }

  // ----- what follows a value

  // A value ends where s begins: s cannot go on with a number.
  predicate Delimited(s: string) {
    s != "" && !IsNumberChar(s[0])
  }

  lemma NumberBack<N>(lib: Libc<N>, n: N, rest: string, d: nat)
    requires Readable(lib, n) && Delimited(rest)
    ensures ParseValue(lib, NumberText(lib, n) + rest, d) == Parsed(Number(n), rest)
  {
    var t := NumberText(lib, n);
    var s := t + rest;
    assert s == [t[0]] + (t[1..] + rest);
    NoWord(t[0], t[1..] + rest);
    hide StartsWith, NumberText;
    NumberCharsAre(s, |t|, 63);
    assert s[..|t|] == t;
    assert s[|t|..] == rest;
  }

  lemma StringBack<N>(lib: Libc<N>, t: string, rest: string, d: nat)
    requires NulFree(t)
    ensures ParseValue(lib, Quoted(t) + rest, d) == Parsed(String(t), rest)
  {
    hide ParseString;
    QuotedIsParsed(t, rest);
    assert (Quoted(t) + rest)[0] == '\"';
  }

  lemma WordBack<N>(lib: Libc<N>, word: string, rest: string, d: nat)
    requires word == "null" || word == "true" || word == "false"
    ensures ParseValue(lib, word + rest, d) == Parsed(if word == "null" then Null else Bool(word == "true"), rest)
  {
    var s := word + rest;
    assert s[..|word|] == word && s[|word|..] == rest;
    assert s[0] == word[0];
  }

  // ----- white space

  lemma {:induction false} SkipTabs(n: nat, s: string)
    requires s != ""
    ensures SkipWs(Tabs(n) + s) == SkipWs(s)
  {
    if n == 0 {
      assert Tabs(n) + s == s;
    } else {
      var t := Tabs(n) + s;
      assert t[1..] == Tabs(n - 1) + s;
      SkipTabs(n - 1, s);
    }
  }

  lemma SkipOne(c: char, s: string)
    requires s != "" && c <= ' '
    ensures SkipWs([c] + s) == SkipWs(s)
  {
    assert ([c] + s)[1..] == s;
  }

  // The first character of a printed value.
  predicate Opens(s: string) {
    s != "" && s[0] > ' ' && s[0] != ']' && s[0] != '}'
  }

  lemma TextOpens<N>(lib: Libc<N>, fmt: bool, v: Value<N>, k: nat)
    requires Clean(lib, v)
    ensures Opens(Text(lib, fmt, v, k))
  {}

  // ----- values

  function Expected<T>(fits: bool, value: T, rest: string): Parsed<T> {
    if fits then Parsed(value, rest) else Failed
  }

  lemma {:induction false} ValueBack<N>(lib: Libc<N>, fmt: bool, v: Value<N>, k: nat, rest: string, d: nat)
    requires Clean(lib, v) && Delimited(rest) && d <= NESTING_LIMIT
    ensures ParseValue(lib, Text(lib, fmt, v, k) + rest, d) == Expected(d + Height(v) <= NESTING_LIMIT, v, rest)
    decreases v, 1
  {
    match v
    case Null => WordBack(lib, "null", rest, d);
    case Bool(b) => WordBack(lib, if b then "true" else "false", rest, d);
    case Number(n) => NumberBack(lib, n, rest, d);
    case String(s) => StringBack(lib, s, rest, d);
    case Array(items) => ArrayBack(lib, fmt, items, k, rest, d);
    case Object(members) => ObjectBack(lib, fmt, members, k, rest, d);
  }

  lemma NoWord(c: char, t: string)
    requires c != 'n' && c != 't' && c != 'f'
    ensures !StartsWith([c] + t, "null") && !StartsWith([c] + t, "true") && !StartsWith([c] + t, "false")
  {
    assert ([c] + t)[0] == c && "null"[0] == 'n' && "true"[0] == 't' && "false"[0] == 'f';
  }

  lemma ParseArrayText<N>(lib: Libc<N>, t: string, d: nat)
    requires Opens(SkipWs(t))
    ensures ParseValue(lib, "[" + t, d) ==
      if d >= NESTING_LIMIT || ParseItems(lib, SkipWs(t), d + 1).Failed? then Failed
      else Parsed(Array(ParseItems(lib, SkipWs(t), d + 1).value), ParseItems(lib, SkipWs(t), d + 1).rest)
  {
    hide ParseItems;
    NoWord('[', t);
    assert ("[" + t)[1..] == t;
  }

  lemma {:induction false} ArrayBack<N>(lib: Libc<N>, fmt: bool, items: seq<Value<N>>, k: nat, rest: string, d: nat)
    requires CleanItems(lib, items) && Delimited(rest) && d <= NESTING_LIMIT
    ensures ParseValue(lib, Text(lib, fmt, Array(items), k) + rest, d)
         == Expected(d + 1 + ItemsHeight(items) <= NESTING_LIMIT, Array(items), rest)
    decreases items, 1
  {
    hide ParseItems, ItemsText;
    if items == [] {
      EmptyArrayBack(lib, rest, d);
      EmptyItemsText(lib, fmt, k + 1);
      assert Text(lib, fmt, Array(items), k) + rest == "[]" + rest;
    } else {
      var t := ItemsText(lib, fmt, items, k + 1) + ("]" + rest);
      assert Text(lib, fmt, Array(items), k) + rest == "[" + t;
      ItemsOpen(lib, fmt, items, k + 1, "]" + rest);
      ParseArrayText(lib, t, d);
      if d < NESTING_LIMIT {
        ItemsBack(lib, fmt, items, k + 1, rest, d + 1);
      }
    }
  }

  lemma EmptyItemsText<N>(lib: Libc<N>, fmt: bool, k: nat)
    ensures ItemsText(lib, fmt, [], k) == ""
  {}

  lemma EmptyArrayBack<N>(lib: Libc<N>, rest: string, d: nat)
    ensures ParseValue(lib, "[]" + rest, d) == Expected(d < NESTING_LIMIT, Array([]), rest)
  {
    assert ("[]" + rest)[1..] == "]" + rest && ("]" + rest)[1..] == rest;
    assert SkipWs("]" + rest) == "]" + rest;
  }

  lemma ItemsOpen<N>(lib: Libc<N>, fmt: bool, items: seq<Value<N>>, k: nat, rest: string)
    requires items != [] && CleanItems(lib, items)
    ensures Opens(ItemsText(lib, fmt, items, k) + rest)
    ensures SkipWs(ItemsText(lib, fmt, items, k) + rest) == ItemsText(lib, fmt, items, k) + rest
  {
    hide Text;
    TextOpens(lib, fmt, items[0], k);
  }

  // What ParseItems makes of one item and what follows it.
  lemma ItemStep<N>(lib: Libc<N>, s: string, v: Value<N>, more: string, d: nat)
    requires Opens(s) && more != "" && ParseValue(lib, s, d) == Parsed(v, more)
    ensures SkipWs(more)[0] == ']' ==> ParseItems(lib, s, d) == Parsed([v], SkipWs(more)[1..])
    ensures SkipWs(more)[0] == ',' && ParseItems(lib, SkipWs(more)[1..], d).Failed? ==> ParseItems(lib, s, d).Failed?
    ensures SkipWs(more)[0] == ',' && ParseItems(lib, SkipWs(more)[1..], d).Parsed? ==>
      ParseItems(lib, s, d) == Parsed([v] + ParseItems(lib, SkipWs(more)[1..], d).value,
                                      ParseItems(lib, SkipWs(more)[1..], d).rest)
  {
    hide ParseValue;
  }

  lemma ItemFails<N>(lib: Libc<N>, s: string, d: nat)
    requires Opens(s) && ParseValue(lib, s, d).Failed?
    ensures ParseItems(lib, s, d).Failed?
  {
    hide ParseValue;
  }

  // White space in front of an item does not matter.
  lemma ItemsAfterWs<N>(lib: Libc<N>, s: string, d: nat)
    requires s != ""
    ensures ParseItems(lib, " " + s, d) == ParseItems(lib, s, d)
  {
    hide ParseValue;
    SkipOne(' ', s);
  }

  lemma {:induction false} ItemsBack<N>(lib: Libc<N>, fmt: bool, items: seq<Value<N>>, k: nat, rest: string, d: nat)
    requires items != [] && CleanItems(lib, items) && Delimited(rest) && d <= NESTING_LIMIT
    ensures ParseItems(lib, ItemsText(lib, fmt, items, k) + ("]" + rest), d)
         == Expected(d + ItemsHeight(items) <= NESTING_LIMIT, items, rest)
    decreases items, 0
  {
    hide ParseItems, ParseValue, Text;
    var v, end := items[0], "]" + rest;
    var text := Text(lib, fmt, v, k);
    var more := if |items| == 1 then end
                else (if fmt then ", " else ",") + (ItemsText(lib, fmt, items[1..], k) + end);
    var s := text + more;
    assert s == ItemsText(lib, fmt, items, k) + end;
    TextOpens(lib, fmt, v, k);
    assert Opens(s);
    ValueBack(lib, fmt, v, k, more, d);
    if d + Height(v) > NESTING_LIMIT {
      ItemFails(lib, s, d);
    } else {
      ItemStep(lib, s, v, more, d);
      if |items| == 1 {
        assert end[1..] == rest && items == [v];
      } else {
        var tail := ItemsText(lib, fmt, items[1..], k) + end;
        ItemsBack(lib, fmt, items[1..], k, rest, d);
        ItemsAfterWs(lib, tail, d);
        assert more[1..] == if fmt then " " + tail else tail;
        assert items == [v] + items[1..];
      }
    }
  }

  // ----- objects

  lemma ParseObjectText<N>(lib: Libc<N>, t: string, d: nat)
    requires Opens(SkipWs(t))
    ensures ParseValue(lib, "{" + t, d) ==
      if d >= NESTING_LIMIT || ParseMembers(lib, SkipWs(t), d + 1).Failed? then Failed
      else Parsed(Object(ParseMembers(lib, SkipWs(t), d + 1).value), ParseMembers(lib, SkipWs(t), d + 1).rest)
  {
    hide ParseMembers;
    NoWord('{', t);
    assert ("{" + t)[1..] == t;
  }

  lemma EmptyMembersText<N>(lib: Libc<N>, fmt: bool, k: nat)
    ensures MembersText<N>(lib, fmt, [], k) == ""
  {}

  lemma EmptyObjectBack<N>(lib: Libc<N>, ws: string, rest: string, d: nat)
    requires SkipWs(ws + ("}" + rest)) == "}" + rest
    ensures ParseValue(lib, "{" + (ws + ("}" + rest)), d) == Expected(d < NESTING_LIMIT, Object([]), rest)
  {
    NoWord('{', ws + ("}" + rest));
    hide StartsWith, SkipWs;
    assert ("{" + (ws + ("}" + rest)))[1..] == ws + ("}" + rest) && ("}" + rest)[1..] == rest;
  }

  lemma {:induction false} ObjectBack<N>(lib: Libc<N>, fmt: bool, members: seq<Member<N>>, k: nat, rest: string, d: nat)
    requires CleanMembers(lib, members) && Delimited(rest) && d <= NESTING_LIMIT
    ensures ParseValue(lib, Text(lib, fmt, Object(members), k) + rest, d)
         == Expected(d + 1 + MembersHeight(members) <= NESTING_LIMIT, Object(members), rest)
    decreases members, 3
  {
    hide ParseMembers, MembersText, ParseValue, SkipWs;
    var end := (if fmt then Tabs(k) else "") + ("}" + rest);
    var t := MembersText(lib, fmt, members, k + 1) + end;
    var t' := if fmt then "\n" + t else t;
    assert Text(lib, fmt, Object(members), k) + rest == "{" + t';
    SkipOne('\n', t);
    EndOpens(fmt, k, rest);
    if members == [] {
      EmptyMembersText(lib, fmt, k + 1);
      assert t == end && t' == (if fmt then "\n" + Tabs(k) else "") + ("}" + rest);
      EmptyObjectBack(lib, if fmt then "\n" + Tabs(k) else "", rest, d);
    } else {
      MembersSkip(lib, fmt, members, k + 1, end);
      ParseObjectText(lib, t', d);
      if d < NESTING_LIMIT {
        MembersBack(lib, fmt, members, k + 1, k, rest, d + 1);
        MembersAfterWs(lib, t, d + 1);
      }
    }
  }

  lemma EndOpens(fmt: bool, k: nat, rest: string)
    ensures SkipWs((if fmt then Tabs(k) else "") + ("}" + rest)) == "}" + rest
    ensures SkipWs("}" + rest) == "}" + rest
  {
    SkipTabs(k, "}" + rest);
    assert "" + ("}" + rest) == "}" + rest;
  }

  lemma MembersSkip<N>(lib: Libc<N>, fmt: bool, members: seq<Member<N>>, k: nat, end: string)
    requires members != []
    ensures Opens(SkipWs(MembersText(lib, fmt, members, k) + end))
  {
    hide Text, EscapeAll, Tabs;
    var text := MembersText(lib, fmt, members, k) + end;
    var t := if fmt then text[k..] else text;
    assert text == (if fmt then Tabs(k) else "") + t;
    SkipTabs(k, t);
    assert t[0] == '\"';
  }

  lemma {:induction false} SkipWsTwice(s: string)
    ensures SkipWs(SkipWs(s)) == SkipWs(s)
  {
    if |s| > 1 && s[0] <= ' ' {
      SkipWsTwice(s[1..]);
    }
  }

  lemma MembersAfterWs<N>(lib: Libc<N>, s: string, d: nat)
    ensures ParseMembers(lib, SkipWs(s), d) == ParseMembers(lib, s, d)
  {
    hide ParseString, ParseValue;
    SkipWsTwice(s);
  }

  // A member and what is between it and the next.
  lemma MemberBack<N>(lib: Libc<N>, fmt: bool, m: Member<N>, k: nat, more: string, d: nat)
    requires NulFree(m.name) && Clean(lib, m.value) && d <= NESTING_LIMIT && Delimited(more)
    requires ParseValue(lib, Text(lib, fmt, m.value, k) + more, d)
          == Expected(d + Height(m.value) <= NESTING_LIMIT, m.value, more)
    ensures ParseMember(lib, Quoted(m.name) + ((if fmt then ":\t" else ":") + (Text(lib, fmt, m.value, k) + more)), d)
         == Expected(d + Height(m.value) <= NESTING_LIMIT, m, more)
  {
    hide ParseString, ParseValue, Text;
    var value := Text(lib, fmt, m.value, k) + more;
    var t := (if fmt then ":\t" else ":") + value;
    QuotedIsParsed(m.name, t);
    TextOpens(lib, fmt, m.value, k);
    assert t[1..] == if fmt then "\t" + value else value;
    SkipOne('\t', value);
    assert (Quoted(m.name) + t)[0] == '\"';
  }

  lemma MemberStep<N>(lib: Libc<N>, s: string, m: Member<N>, more: string, d: nat)
    requires more != "" && ParseMember(lib, s, d) == Parsed(m, more)
    ensures SkipWs(more)[0] == '}' ==> ParseMembers(lib, s, d) == Parsed([m], SkipWs(more)[1..])
    ensures SkipWs(more)[0] == ',' && ParseMembers(lib, SkipWs(more)[1..], d).Failed? ==>
      ParseMembers(lib, s, d).Failed?
    ensures SkipWs(more)[0] == ',' && ParseMembers(lib, SkipWs(more)[1..], d).Parsed? ==>
      ParseMembers(lib, s, d) == Parsed([m] + ParseMembers(lib, SkipWs(more)[1..], d).value,
                                        ParseMembers(lib, SkipWs(more)[1..], d).rest)
  {
    hide ParseMember;
  }

  lemma MemberFails<N>(lib: Libc<N>, s: string, d: nat)
    requires ParseMember(lib, s, d).Failed?
    ensures ParseMembers(lib, s, d).Failed?
  {
    hide ParseMember;
  }

  // What follows a member's value: a comma and the next members, or the end of the object.
  function AfterMember<N(==)>(lib: Libc<N>, fmt: bool, members: seq<Member<N>>, k: nat, end: string): string {
    (if members == [] then "" else ",") + ((if fmt then "\n" else "") + (MembersText(lib, fmt, members, k) + end))
  }

  lemma Regroup(a: string, b: string, c: string, d: string, e: string, f: string, g: string, h: string)
    ensures a + b + c + d + e + f + g + h == a + (b + (c + (d + (e + (f + (g + h))))))
  {}

  lemma FirstMember<N>(lib: Libc<N>, fmt: bool, members: seq<Member<N>>, k: nat, end: string)
    requires members != []
    ensures MembersText(lib, fmt, members, k) + end ==
      (if fmt then Tabs(k) else "") + (Quoted(members[0].name)
        + ((if fmt then ":\t" else ":")
          + (Text(lib, fmt, members[0].value, k) + AfterMember(lib, fmt, members[1..], k, end))))
  {
    hide Text, Quoted, Tabs;
    var m := members[0];
    Regroup(if fmt then Tabs(k) else "", Quoted(m.name), if fmt then ":\t" else ":", Text(lib, fmt, m.value, k),
            if |members| == 1 then "" else ",", if fmt then "\n" else "", MembersText(lib, fmt, members[1..], k), end);
  }

  lemma {:induction false} MembersBack<N>(lib: Libc<N>, fmt: bool, members: seq<Member<N>>, k: nat, k': nat,
                                          rest: string, d: nat)
    requires members != [] && CleanMembers(lib, members) && Delimited(rest) && d <= NESTING_LIMIT
    ensures ParseMembers(lib, MembersText(lib, fmt, members, k) + ((if fmt then Tabs(k') else "") + ("}" + rest)), d)
         == Expected(d + MembersHeight(members) <= NESTING_LIMIT, members, rest)
    decreases members, 2
  {
    hide ParseMember, ParseMembers, ParseValue, MembersText, Text, SkipWs, Tabs, Quoted;
    var m, end := members[0], (if fmt then Tabs(k') else "") + ("}" + rest);
    var more := AfterMember(lib, fmt, members[1..], k, end);
    var tail := (if fmt then "\n" else "") + (MembersText(lib, fmt, members[1..], k) + end);
    var s := Quoted(m.name) + ((if fmt then ":\t" else ":") + (Text(lib, fmt, m.value, k) + more));
    FirstMember(lib, fmt, members, k, end);
    SkipToMember(fmt, k, s, m);
    MembersAfterWs(lib, MembersText(lib, fmt, members, k) + end, d);
    if |members| == 1 {
      AfterLast(lib, fmt, k, k', rest);
    } else {
      AfterComma(lib, fmt, members[1..], k, end);
    }
    ValueBack(lib, fmt, m.value, k, more, d);
    MemberBack(lib, fmt, m, k, more, d);
    if d + Height(m.value) > NESTING_LIMIT {
      MemberFails(lib, s, d);
    } else {
      MemberStep(lib, s, m, more, d);
      if |members| == 1 {
        assert members == [m];
      } else {
        MembersBack(lib, fmt, members[1..], k, k', rest, d);
        MembersAfterWs(lib, MembersText(lib, fmt, members[1..], k) + end, d);
        MembersAfterWs(lib, tail, d);
        assert members == [m] + members[1..];
      }
    }
  }

  lemma SkipToMember<N>(fmt: bool, k: nat, s: string, m: Member<N>)
    requires Quoted(m.name) <= s
    ensures SkipWs((if fmt then Tabs(k) else "") + s) == s
  {
    assert s[0] == Quoted(m.name)[0] == '\"';
    SkipTabs(k, s);
    assert "" + s == s;
  }

  lemma AfterLast<N>(lib: Libc<N>, fmt: bool, k: nat, k': nat, rest: string)
    ensures var more := AfterMember<N>(lib, fmt, [], k, (if fmt then Tabs(k') else "") + ("}" + rest));
            Delimited(more) && SkipWs(more) == "}" + rest && SkipWs(more)[1..] == rest
  {
    hide Tabs;
    var end := (if fmt then Tabs(k') else "") + ("}" + rest);
    EmptyMembersText(lib, fmt, k);
    EndOpens(fmt, k', rest);
    SkipOne('\n', end);
    assert AfterMember<N>(lib, fmt, [], k, end) == if fmt then "\n" + end else "}" + rest;
  }

  lemma AfterComma<N>(lib: Libc<N>, fmt: bool, members: seq<Member<N>>, k: nat, end: string)
    requires members != [] && end != ""
    ensures var text := MembersText(lib, fmt, members, k) + end;
            var more, tail := AfterMember(lib, fmt, members, k, end), (if fmt then "\n" else "") + text;
            && Delimited(more) && SkipWs(more) == more && more[0] == ','
            && more[1..] == tail && SkipWs(tail) == SkipWs(text)
  {
    hide MembersText;
    var text := MembersText(lib, fmt, members, k) + end;
    SkipOne('\n', text);
    assert "" + text == text;
  }

  // ----- whole texts

  lemma SkipEnd()
    ensures SkipWs("\0") == "\0"
  {}

  // cJSON_Print and cJSON_PrintUnformatted give a text that is parsed to the same value when it
  // is not nested too deep, and is refused otherwise. The whole text is used up.
  lemma PrintedIsParsed<N>(lib: Libc<N>, fmt: bool, v: Value<N>, requireEnd: bool)
    requires Clean(lib, v)
    ensures Parse(lib, Text(lib, fmt, v, 0), requireEnd) == if Height(v) <= NESTING_LIMIT then Some(v) else None
  {
    hide ParseValue, Text;
    var s := Text(lib, fmt, v, 0) + "\0";
    TextOpens(lib, fmt, v, 0);
    TextIsNotBom(lib, fmt, v);
    ValueBack(lib, fmt, v, 0, "\0", 0);
    SkipEnd();
  }

  lemma TextIsNotBom<N>(lib: Libc<N>, fmt: bool, v: Value<N>)
    requires Clean(lib, v)
    ensures SkipBom(Text(lib, fmt, v, 0) + "\0") == Text(lib, fmt, v, 0) + "\0"
  {
    var s := Text(lib, fmt, v, 0);
    assert s[0] != BOM[0] by {
      match v
      case Array(_) => assert s[0] == '[';
      case Object(_) => assert s[0] == '{';
      case String(_) => assert s[0] == '\"';
      case _ =>
    }
  }
}
