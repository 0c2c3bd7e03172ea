// The texts that the parser of cJSON.c accepts, as a grammar: every value with its layout. The parser takes just
// these texts, and gives the value that is written.

module JsonGrammar {
  import opened JsonString
  import opened JsonText
  import opened JsonRoundTrip
  import opened JsonComments
  import opened Options

  // A value as it is written. body is what is between the quotes of a string; blank is what is between the brackets
  // of an empty array or object.
  datatype Writing =
    | Word(word: string)
    | Num(text: string)
    | Str(body: string)
    | Arr(slots: seq<Slot>, blank: string)
    | Obj(fields: seq<Field>, blank: string)

  datatype Slot = Slot(before: string, w: Writing, after: string)

  datatype Field = Field(before: string, name: string, behind: string, gap: string, w: Writing, after: string)

  // White space, which for this parser is every character up to the space.
  predicate IsBlank(s: string) {
    forall i :: 0 <= i < |s| ==> s[i] <= ' '
  }

  // A string body ends at the closing quote, and its escapes are right.
  predicate IsBody(b: string) {
    Closing(b + "\"") == Some(|b|) && Unescape(b).Some?
  }

  function BodyValue(b: string): string
    requires IsBody(b)
  {
    CString(Unescape(b).value)
  }

  predicate IsNum<N>(lib: Libc<N>, t: string) {
    && 0 < |t| <= 63 && (t[0] == '-' || '0' <= t[0] <= '9')
    && (forall i :: 0 <= i < |t| ==> IsNumberChar(t[i]))
    && lib.scan(t).used == |t|
  }

  predicate Valid<N>(lib: Libc<N>, w: Writing) {
    match w
    case Word(word) => word == "null" || word == "true" || word == "false"
    case Num(t) => IsNum(lib, t)
    case Str(b) => IsBody(b)
    case Arr(slots, blank) => IsBlank(blank) && ValidSlots(lib, slots)
    case Obj(fields, blank) => IsBlank(blank) && ValidFields(lib, fields)
  }

  predicate ValidSlots<N>(lib: Libc<N>, slots: seq<Slot>) {
    slots == []
    || (IsBlank(slots[0].before) && Valid(lib, slots[0].w) && IsBlank(slots[0].after) && ValidSlots(lib, slots[1..]))
  }

  predicate ValidFields<N>(lib: Libc<N>, fields: seq<Field>) {
    fields == []
    || (var f := fields[0];
        && IsBlank(f.before) && IsBody(f.name) && IsBlank(f.behind) && IsBlank(f.gap) && Valid(lib, f.w)
        && IsBlank(f.after) && ValidFields(lib, fields[1..]))
  }

  function Shown(w: Writing): string {
    match w
    case Word(word) => word
    case Num(t) => t
    case Str(b) => "\"" + b + "\""
    case Arr(slots, blank) => "[" + ((if slots == [] then blank else SlotsShown(slots)) + "]")
    case Obj(fields, blank) => "{" + ((if fields == [] then blank else FieldsShown(fields)) + "}")
  }

  function SlotsShown(slots: seq<Slot>): string {
    if slots == [] then ""
    else
      slots[0].before + (Shown(slots[0].w) + (slots[0].after
      + if |slots| == 1 then "" else "," + SlotsShown(slots[1..])))
  }

  function FieldShown(f: Field): string {
    f.before + ("\"" + f.name + "\"" + (f.behind + (":" + (f.gap + Shown(f.w)))))
  }

  function FieldsShown(fields: seq<Field>): string {
    if fields == [] then ""
    else
      FieldShown(fields[0]) + (fields[0].after + if |fields| == 1 then "" else "," + FieldsShown(fields[1..]))
  }

  function Meant<N>(lib: Libc<N>, w: Writing): Value<N>
    requires Valid(lib, w)
  {
    match w
    case Word(word) => if word == "null" then Null else Bool(word == "true")
    case Num(t) => Number(lib.scan(t).n)
    case Str(b) => String(BodyValue(b))
    case Arr(slots, _) => Array(SlotsMeant(lib, slots))
    case Obj(fields, _) => Object(FieldsMeant(lib, fields))
  }

  function SlotsMeant<N>(lib: Libc<N>, slots: seq<Slot>): seq<Value<N>>
    requires ValidSlots(lib, slots)
  {
    if slots == [] then [] else [Meant(lib, slots[0].w)] + SlotsMeant(lib, slots[1..])
  }

  function FieldsMeant<N>(lib: Libc<N>, fields: seq<Field>): seq<Member<N>>
    requires ValidFields(lib, fields)
  {
    if fields == [] then []
    else [Member(BodyValue(fields[0].name), Meant(lib, fields[0].w))] + FieldsMeant(lib, fields[1..])
  }

  // How deep the brackets are nested.
  function Depth(w: Writing): nat {
    match w
    case Arr(slots, _) => 1 + SlotsDepth(slots)
    case Obj(fields, _) => 1 + FieldsDepth(fields)
    case _ => 0
  }

  function SlotsDepth(slots: seq<Slot>): nat {
    if slots == [] then 0
    else
      var a, b := Depth(slots[0].w), SlotsDepth(slots[1..]);
      if a < b then b else a
  }

  function FieldsDepth(fields: seq<Field>): nat {
    if fields == [] then 0
    else
      var a, b := Depth(fields[0].w), FieldsDepth(fields[1..]);
      if a < b then b else a
  }

  // ----- what is written is parsed

  lemma {:induction false} BlankSkipped(ws: string, s: string)
    requires IsBlank(ws) && s != "" && s[0] > ' '
    ensures SkipWs(ws + s) == s
  {
    if ws == "" {
      assert ws + s == s;
    } else {
      BlankSkipped(ws[1..], s);
      assert (ws + s)[1..] == ws[1..] + s;
    }
  }

  lemma BlankDelimits(ws: string, s: string)
    requires IsBlank(ws) && Delimited(s)
    ensures Delimited(ws + s)
  {
    assert ws + s != "" && (ws + s)[0] == if ws == "" then s[0] else ws[0];
  }

  lemma BodyIsParsed(b: string, rest: string)
    requires IsBody(b)
    ensures ParseString("\"" + b + "\"" + rest) == Parsed(BodyValue(b), rest)
  {
    hide Closing, Unescape, CString;
    var t := "\"" + b + "\"" + rest;
    ClosingStays(b + "\"", rest);
    assert t[1..] == b + "\"" + rest && t[1..1 + |b|] == b && t[|b| + 2..] == rest;
  }

  lemma ShownOpens<N>(lib: Libc<N>, w: Writing)
    requires Valid(lib, w)
    ensures Opens(Shown(w))
  {}

  lemma {:induction false} ValueWritten<N>(lib: Libc<N>, w: Writing, rest: string, d: nat)
    requires Valid(lib, w) && Delimited(rest) && d <= NESTING_LIMIT
    ensures ParseValue(lib, Shown(w) + rest, d) == Expected(d + Depth(w) <= NESTING_LIMIT, Meant(lib, w), rest)
    decreases w, 1
  {
    match w
    case Word(word) => WordBack(lib, word, rest, d);
    case Num(t) => NumWritten(lib, t, rest, d);
    case Str(b) => StrWritten(lib, b, rest, d);
    case Arr(slots, blank) => ArrWritten(lib, slots, blank, rest, d);
    case Obj(fields, blank) => ObjWritten(lib, fields, blank, rest, d);
  }

  lemma NumWritten<N>(lib: Libc<N>, t: string, rest: string, d: nat)
    requires IsNum(lib, t) && Delimited(rest)
    ensures ParseValue(lib, t + rest, d) == Parsed(Number(lib.scan(t).n), rest)
  {
    var s := t + rest;
    assert s == [t[0]] + (t[1..] + rest);
    NoWord(t[0], t[1..] + rest);
    hide StartsWith;
    NumberCharsAre(s, |t|, 63);
    assert s[..|t|] == t && s[|t|..] == rest;
  }

  lemma StrWritten<N>(lib: Libc<N>, b: string, rest: string, d: nat)
    requires IsBody(b)
    ensures ParseValue(lib, "\"" + b + "\"" + rest, d) == Parsed(String(BodyValue(b)), rest)
  {
    hide ParseString, IsBody;
    BodyIsParsed(b, rest);
    var s := "\"" + b + "\"" + rest;
    assert s[0] == '\"' && s == ['\"'] + (b + "\"" + rest);
    NoWord('\"', b + "\"" + rest);
  }

  lemma {:induction false} ArrWritten<N>(lib: Libc<N>, slots: seq<Slot>, blank: string, rest: string, d: nat)
    requires IsBlank(blank) && ValidSlots(lib, slots) && Delimited(rest) && d <= NESTING_LIMIT
    ensures var w := Arr(slots, blank);
      ParseValue(lib, Shown(w) + rest, d) == Expected(d + Depth(w) <= NESTING_LIMIT, Meant(lib, w), rest)
    decreases slots, 1
  {
    hide ParseItems, SlotsShown, ParseValue, SkipWs;
    var end := "]" + rest;
    if slots == [] {
      assert Shown(Arr(slots, blank)) + rest == "[" + (blank + end);
      EmptyArrWritten(lib, blank, rest, d);
    } else {
      var t := SlotsShown(slots) + end;
      assert Shown(Arr(slots, blank)) + rest == "[" + t;
      SlotsOpen(lib, slots, end);
      ParseArrayText(lib, t, d);
      ItemsAfterSkip(lib, t, d + 1);
      if d < NESTING_LIMIT {
        SlotsWritten(lib, slots, rest, d + 1);
      }
    }
  }

  lemma EmptyArrWritten<N>(lib: Libc<N>, blank: string, rest: string, d: nat)
    requires IsBlank(blank)
    ensures ParseValue(lib, "[" + (blank + ("]" + rest)), d) == Expected(d < NESTING_LIMIT, Array([]), rest)
  {
    hide SkipWs, StartsWith;
    var t := blank + ("]" + rest);
    NoWord('[', t);
    BlankSkipped(blank, "]" + rest);
    assert ("[" + t)[1..] == t && ("]" + rest)[1..] == rest;
  }

  lemma ItemsAfterSkip<N>(lib: Libc<N>, s: string, d: nat)
    ensures ParseItems(lib, SkipWs(s), d) == ParseItems(lib, s, d)
  {
    hide ParseValue;
    SkipWsTwice(s);
  }

  // What follows the value of a slot.
  function AfterSlot(slots: seq<Slot>, end: string): string
    requires slots != []
  {
    if |slots| == 1 then end else "," + (SlotsShown(slots[1..]) + end)
  }

  lemma SlotsSplit(slots: seq<Slot>, end: string)
    requires slots != []
    ensures SlotsShown(slots) + end
         == slots[0].before + (Shown(slots[0].w) + (slots[0].after + AfterSlot(slots, end)))
  {
    hide Shown, SlotsShown;
    SlotsUnfold(slots);
    var more := if |slots| == 1 then "" else "," + SlotsShown(slots[1..]);
    JoinedEnd(|slots| == 1, SlotsShown(slots[1..]), end);
    Regroup4(slots[0].before, Shown(slots[0].w), slots[0].after, more, end);
  }

  lemma SlotsUnfold(slots: seq<Slot>)
    requires slots != []
    ensures SlotsShown(slots) ==
      slots[0].before
      + (Shown(slots[0].w) + (slots[0].after + if |slots| == 1 then "" else "," + SlotsShown(slots[1..])))
  {
    hide Shown;
  }

  lemma JoinedEnd(last: bool, more: string, end: string)
    ensures (if last then "" else "," + more) + end == if last then end else "," + (more + end)
  {}

  lemma Regroup4(a: string, b: string, c: string, d: string, e: string)
    ensures a + (b + (c + d)) + e == a + (b + (c + (d + e)))
  {
    Assoc3(a, b + (c + d), e);
    Assoc3(b, c + d, e);
    Assoc3(c, d, e);
  }

  lemma Assoc3(a: string, b: string, c: string)
    ensures a + b + c == a + (b + c)
  {}

  lemma SlotsOpen<N>(lib: Libc<N>, slots: seq<Slot>, end: string)
    requires slots != [] && ValidSlots(lib, slots)
    ensures SkipWs(SlotsShown(slots) + end) == Shown(slots[0].w) + (slots[0].after + AfterSlot(slots, end))
    ensures Opens(SkipWs(SlotsShown(slots) + end))
  {
    hide Shown, SlotsShown, SkipWs, AfterSlot;
    SlotsSplit(slots, end);
    ShownOpens(lib, slots[0].w);
    BlankSkipped(slots[0].before, Shown(slots[0].w) + (slots[0].after + AfterSlot(slots, end)));
  }

  lemma {:induction false} SlotsWritten<N>(lib: Libc<N>, slots: seq<Slot>, rest: string, d: nat)
    requires slots != [] && ValidSlots(lib, slots) && Delimited(rest) && d <= NESTING_LIMIT
    ensures ParseItems(lib, SlotsShown(slots) + ("]" + rest), d)
         == Expected(d + SlotsDepth(slots) <= NESTING_LIMIT, SlotsMeant(lib, slots), rest)
    decreases slots, 0
  {
    hide ParseItems, ParseValue, Shown, SlotsShown, SkipWs;
    var end := "]" + rest;
    var w, more := slots[0].w, slots[0].after + AfterSlot(slots, end);
    SlotsOpen(lib, slots, end);
    ItemsAfterSkip(lib, SlotsShown(slots) + end, d);
    AfterDelimited(slots, end);
    BlankDelimits(slots[0].after, AfterSlot(slots, end));
    ValueWritten(lib, w, more, d);
    var s := Shown(w) + more;
    if d + Depth(w) > NESTING_LIMIT {
      ItemFails(lib, s, d);
    } else {
      ItemStep(lib, s, Meant(lib, w), more, d);
      BlankSkipped(slots[0].after, AfterSlot(slots, end));
      if |slots| == 1 {
        assert end[1..] == rest && slots[1..] == [];
        assert AfterSlot(slots, end) == end && SlotsDepth(slots[1..]) == 0;
        assert SlotsMeant(lib, slots) == [Meant(lib, w)];
        assert ParseItems(lib, s, d) == Parsed([Meant(lib, w)], rest);
      } else {
        SlotsWritten(lib, slots[1..], rest, d);
        assert AfterSlot(slots, end)[1..] == SlotsShown(slots[1..]) + end;
        assert d + SlotsDepth(slots) <= NESTING_LIMIT <==> d + SlotsDepth(slots[1..]) <= NESTING_LIMIT;
        assert SlotsMeant(lib, slots) == [Meant(lib, w)] + SlotsMeant(lib, slots[1..]);
      }
    }
  }

  lemma AfterDelimited(slots: seq<Slot>, end: string)
    requires slots != [] && end != "" && end[0] == ']'
    ensures Delimited(AfterSlot(slots, end)) && AfterSlot(slots, end)[0] == if |slots| == 1 then ']' else ','
  {}

  lemma {:induction false} ObjWritten<N>(lib: Libc<N>, fields: seq<Field>, blank: string, rest: string, d: nat)
    requires IsBlank(blank) && ValidFields(lib, fields) && Delimited(rest) && d <= NESTING_LIMIT
    ensures var w := Obj(fields, blank);
      ParseValue(lib, Shown(w) + rest, d) == Expected(d + Depth(w) <= NESTING_LIMIT, Meant(lib, w), rest)
    decreases fields, 1
  {
    hide ParseMembers, FieldsShown, ParseValue, SkipWs;
    var end := "}" + rest;
    if fields == [] {
      assert Shown(Obj(fields, blank)) + rest == "{" + (blank + end);
      BlankSkipped(blank, end);
      EmptyObjectBack(lib, blank, rest, d);
    } else {
      var t := FieldsShown(fields) + end;
      assert Shown(Obj(fields, blank)) + rest == "{" + t;
      FieldsOpen(lib, fields, end);
      ParseObjectText(lib, t, d);
      MembersAfterWs(lib, t, d + 1);
      if d < NESTING_LIMIT {
        FieldsWritten(lib, fields, rest, d + 1);
      }
    }
  }

  function AfterField(fields: seq<Field>, end: string): string
    requires fields != []
  {
    if |fields| == 1 then end else "," + (FieldsShown(fields[1..]) + end)
  }

  lemma FieldsSplit(fields: seq<Field>, end: string)
    requires fields != []
    ensures FieldsShown(fields) + end == FieldShown(fields[0]) + (fields[0].after + AfterField(fields, end))
  {
    hide FieldShown, FieldsShown;
    FieldsUnfold(fields);
    var more := if |fields| == 1 then "" else "," + FieldsShown(fields[1..]);
    JoinedEnd(|fields| == 1, FieldsShown(fields[1..]), end);
    Assoc3(FieldShown(fields[0]), fields[0].after + more, end);
    Assoc3(fields[0].after, more, end);
  }

  lemma FieldsUnfold(fields: seq<Field>)
    requires fields != []
    ensures FieldsShown(fields) ==
      FieldShown(fields[0]) + (fields[0].after + if |fields| == 1 then "" else "," + FieldsShown(fields[1..]))
  {
    hide FieldShown;
  }

  // The parts of a field and what follows it.
  lemma FieldSplit(f: Field, more: string)
    ensures FieldShown(f) + more
         == f.before + ("\"" + f.name + "\"" + (f.behind + (":" + (f.gap + (Shown(f.w) + more)))))
  {
    hide Shown;
    Regroup6(f.before, "\"" + f.name + "\"", f.behind, ":", f.gap, Shown(f.w), more);
  }

  lemma Regroup6(a: string, b: string, c: string, d: string, e: string, f: string, g: string)
    ensures a + (b + (c + (d + (e + f)))) + g == a + (b + (c + (d + (e + (f + g)))))
  {
    Assoc3(a, b + (c + (d + (e + f))), g);
    Assoc3(b, c + (d + (e + f)), g);
    Assoc3(c, d + (e + f), g);
    Assoc3(d, e + f, g);
    Assoc3(e, f, g);
  }

  lemma FieldsOpen<N>(lib: Libc<N>, fields: seq<Field>, end: string)
    requires fields != [] && ValidFields(lib, fields)
    ensures Opens(SkipWs(FieldsShown(fields) + end))
  {
    hide Shown, FieldsShown, FieldShown, SkipWs, AfterField, IsBody, Valid;
    var f := fields[0];
    FieldsSplit(fields, end);
    var more := f.after + AfterField(fields, end);
    FieldSplit(f, more);
    var t := "\"" + f.name + "\"" + (f.behind + (":" + (f.gap + (Shown(f.w) + more))));
    assert t[0] == '\"';
    BlankSkipped(f.before, t);
  }

  lemma FieldWritten<N>(lib: Libc<N>, f: Field, more: string, d: nat)
    requires IsBlank(f.before) && IsBody(f.name) && IsBlank(f.behind) && IsBlank(f.gap) && Valid(lib, f.w)
    requires ParseValue(lib, Shown(f.w) + more, d) == Expected(d + Depth(f.w) <= NESTING_LIMIT, Meant(lib, f.w), more)
    ensures ParseMember(lib, FieldShown(f) + more, d)
         == Expected(d + Depth(f.w) <= NESTING_LIMIT, Member(BodyValue(f.name), Meant(lib, f.w)), more)
  {
    hide ParseString, ParseValue, Shown, FieldShown, SkipWs, IsBody, Valid, Meant, Depth;
    var value := Shown(f.w) + more;
    var behind := ":" + (f.gap + value);
    var t := "\"" + f.name + "\"" + (f.behind + behind);
    FieldSplit(f, more);
    BlankSkipped(f.before, t);
    BodyIsParsed(f.name, f.behind + behind);
    BlankSkipped(f.behind, behind);
    assert behind[1..] == f.gap + value;
    ShownOpens(lib, f.w);
    BlankSkipped(f.gap, value);
  }

  lemma {:induction false} FieldsWritten<N>(lib: Libc<N>, fields: seq<Field>, rest: string, d: nat)
    requires fields != [] && ValidFields(lib, fields) && Delimited(rest) && d <= NESTING_LIMIT
    ensures ParseMembers(lib, FieldsShown(fields) + ("}" + rest), d)
         == Expected(d + FieldsDepth(fields) <= NESTING_LIMIT, FieldsMeant(lib, fields), rest)
    decreases fields, 0
  {
    hide ParseMembers, ParseMember, ParseValue, Shown, FieldShown, FieldsShown, SkipWs, IsBody;
    var end := "}" + rest;
    var f, more := fields[0], fields[0].after + AfterField(fields, end);
    FieldsSplit(fields, end);
    AfterFieldDelimited(fields, end);
    BlankDelimits(f.after, AfterField(fields, end));
    ValueWritten(lib, f.w, more, d);
    FieldWritten(lib, f, more, d);
    var s, m := FieldShown(f) + more, Member(BodyValue(f.name), Meant(lib, f.w));
    if d + Depth(f.w) > NESTING_LIMIT {
      MemberFails(lib, s, d);
    } else {
      MemberStep(lib, s, m, more, d);
      BlankSkipped(f.after, AfterField(fields, end));
      if |fields| == 1 {
        assert end[1..] == rest && fields[1..] == [];
        assert AfterField(fields, end) == end && FieldsDepth(fields[1..]) == 0;
        assert FieldsMeant(lib, fields) == [m];
        assert ParseMembers(lib, s, d) == Parsed([m], rest);
      } else {
        FieldsWritten(lib, fields[1..], rest, d);
        assert AfterField(fields, end)[1..] == FieldsShown(fields[1..]) + end;
        assert d + FieldsDepth(fields) <= NESTING_LIMIT <==> d + FieldsDepth(fields[1..]) <= NESTING_LIMIT;
        assert FieldsMeant(lib, fields) == [m] + FieldsMeant(lib, fields[1..]);
      }
    }
  }

  lemma AfterFieldDelimited(fields: seq<Field>, end: string)
    requires fields != [] && end != "" && end[0] == '}'
    ensures Delimited(AfterField(fields, end)) && AfterField(fields, end)[0] == if |fields| == 1 then '}' else ','
  {}

  // ----- what is parsed is written so

  lemma {:induction false} BlankOf(s: string) returns (ws: string)
    ensures IsBlank(ws) && s == ws + SkipWs(s)
  {
    if |s| > 1 && s[0] <= ' ' {
      var more := BlankOf(s[1..]);
      ws := [s[0]] + more;
    } else {
      ws := "";
    }
  }

  lemma {:induction false} ClosingOfFront(s: string)
    requires Closing(s).Some?
    ensures var n := Closing(s).value; s[n] == '\"' && Closing(s[..n] + "\"") == Some(n)
  {
    var n := Closing(s).value;
    if s[0] == '\"' {
      assert s[..n] + "\"" == "\"";
    } else {
      var step := if s[0] == '\\' then 2 else 1;
      ClosingOfFront(s[step..]);
      var t := s[..n] + "\"";
      assert t[step..] == s[step..][..n - step] + "\"";
    }
  }

  lemma BodyOf(s: string) returns (b: string)
    requires ParseString(s).Parsed?
    ensures IsBody(b) && s == "\"" + b + "\"" + ParseString(s).rest && ParseString(s).value == BodyValue(b)
  {
    hide Closing, Unescape, CString;
    var n := Closing(s[1..]).value;
    ClosingOfFront(s[1..]);
    b := s[1..1 + n];
    assert s[1..][..n] == b && s[1..][n] == s[n + 1];
    assert s == [s[0]] + b + [s[n + 1]] + s[n + 2..];
  }

  lemma {:induction false} NumberCharsFront(s: string, n: nat)
    ensures var t := NumberChars(s, n);
      && |t| <= n && |t| <= |s| && s[..|t|] == t && (forall i :: 0 <= i < |t| ==> IsNumberChar(t[i]))
      && (|t| < n && |t| < |s| ==> !IsNumberChar(s[|t|]))
  {
    if n != 0 && s != "" && IsNumberChar(s[0]) {
      NumberCharsFront(s[1..], n - 1);
    }
  }

  lemma NumOf<N>(lib: Libc<N>, s: string) returns (w: Writing)
    requires s != "" && (s[0] == '-' || '0' <= s[0] <= '9')
    requires ParseNumber(lib, s).Parsed? && Delimited(ParseNumber(lib, s).rest)
    ensures Valid(lib, w) && s == Shown(w) + ParseNumber(lib, s).rest && ParseNumber(lib, s).value == Meant(lib, w)
    ensures Depth(w) == 0
  {
    var digits := NumberChars(s, 63);
    NumberCharsFront(s, 63);
    var used := lib.scan(digits).used;
    forall k | 0 <= k < |digits| ensures IsNumberChar(s[k]) {
      assert s[..|digits|][k] == s[k];
    }
    assert used == |digits|;
    w := Num(digits);
  }

  lemma WordOf<N>(lib: Libc<N>, s: string, word: string, d: nat) returns (w: Writing)
    requires word == "null" || word == "true" || word == "false"
    requires StartsWith(s, word)
    ensures Valid(lib, w) && Depth(w) == 0
    ensures ParseValue(lib, s, d).Parsed? && s == Shown(w) + ParseValue(lib, s, d).rest
    ensures ParseValue(lib, s, d).value == Meant(lib, w)
  {
    w := Word(word);
    assert s == word + s[|word|..];
    WordBack(lib, word, s[|word|..], d);
  }

  // What parsing a value has found.
  predicate IsWritten<N(==)>(lib: Libc<N>, w: Writing, s: string, v: Value<N>, rest: string, d: nat) {
    Valid(lib, w) && s == Shown(w) + rest && v == Meant(lib, w) && d + Depth(w) <= NESTING_LIMIT
  }

  lemma {:induction false} ValueOf<N>(lib: Libc<N>, s: string, d: nat) returns (w: Writing)
    requires ParseValue(lib, s, d).Parsed? && Delimited(ParseValue(lib, s, d).rest) && d <= NESTING_LIMIT
    ensures IsWritten(lib, w, s, ParseValue(lib, s, d).value, ParseValue(lib, s, d).rest, d)
    decreases |s|, 1
  {
    hide StartsWith, ParseString, ParseNumber, ParseArray, ParseObject;
    if StartsWith(s, "null") {
      w := WordOf(lib, s, "null", d);
    } else if StartsWith(s, "false") {
      w := WordOf(lib, s, "false", d);
    } else if StartsWith(s, "true") {
      w := WordOf(lib, s, "true", d);
    } else if s[0] == '\"' {
      var b := BodyOf(s);
      w := Str(b);
    } else if s[0] == '-' || '0' <= s[0] <= '9' {
      w := NumOf(lib, s);
    } else if s[0] == '[' {
      w := ArrOf(lib, s, d);
    } else {
      w := ObjOf(lib, s, d);
    }
  }

  lemma {:induction false} ArrOf<N>(lib: Libc<N>, s: string, d: nat) returns (w: Writing)
    requires s != "" && s[0] == '[' && ParseArray(lib, s, d).Parsed?
    requires Delimited(ParseArray(lib, s, d).rest) && d <= NESTING_LIMIT
    ensures IsWritten(lib, w, s, Array(ParseArray(lib, s, d).value), ParseArray(lib, s, d).rest, d)
    decreases |s|, 0
  {
    hide ParseItems, SkipWs, IsWritten, SlotsShown, ValidSlots, SlotsMeant, SlotsDepth;
    var blank := BlankOf(s[1..]);
    var t, rest := SkipWs(s[1..]), ParseArray(lib, s, d).rest;
    assert s == "[" + (blank + t);
    if t != "" && t[0] == ']' {
      w := Arr([], blank);
      assert t == "]" + rest;
      EmptyArrIs(lib, blank, rest, d);
    } else {
      var slots := SlotsOf(lib, t, d + 1);
      SlotsMoved(lib, slots, blank);
      slots := [slots[0].(before := blank + slots[0].before)] + slots[1..];
      w := Arr(slots, "");
      assert blank + t == SlotsShown(slots) + ("]" + rest);
      ArrIs(lib, slots, rest, d);
    }
  }

  lemma EmptyArrIs<N>(lib: Libc<N>, blank: string, rest: string, d: nat)
    requires IsBlank(blank) && d < NESTING_LIMIT
    ensures IsWritten(lib, Arr([], blank), "[" + (blank + ("]" + rest)), Array([]), rest, d)
  {
    assert "[" + (blank + "]") + rest == "[" + (blank + ("]" + rest));
  }

  lemma ArrIs<N>(lib: Libc<N>, slots: seq<Slot>, rest: string, d: nat)
    requires slots != [] && ValidSlots(lib, slots) && d + 1 + SlotsDepth(slots) <= NESTING_LIMIT
    ensures IsWritten(lib, Arr(slots, ""), "[" + (SlotsShown(slots) + ("]" + rest)),
                      Array(SlotsMeant(lib, slots)), rest, d)
  {
    hide SlotsShown, SlotsMeant, ValidSlots, SlotsDepth;
    assert "[" + (SlotsShown(slots) + "]") + rest == "[" + (SlotsShown(slots) + ("]" + rest));
  }

  lemma EmptyObjIs<N>(lib: Libc<N>, blank: string, rest: string, d: nat)
    requires IsBlank(blank) && d < NESTING_LIMIT
    ensures IsWritten(lib, Obj([], blank), "{" + (blank + ("}" + rest)), Object([]), rest, d)
  {
    assert "{" + (blank + "}") + rest == "{" + (blank + ("}" + rest));
  }

  lemma ObjIs<N>(lib: Libc<N>, fields: seq<Field>, rest: string, d: nat)
    requires fields != [] && ValidFields(lib, fields) && d + 1 + FieldsDepth(fields) <= NESTING_LIMIT
    ensures IsWritten(lib, Obj(fields, ""), "{" + (FieldsShown(fields) + ("}" + rest)),
                      Object(FieldsMeant(lib, fields)), rest, d)
  {
    hide FieldsShown, FieldsMeant, ValidFields, FieldsDepth;
    assert "{" + (FieldsShown(fields) + "}") + rest == "{" + (FieldsShown(fields) + ("}" + rest));
  }

  // More white space in front of the first slot.
  lemma SlotsMoved<N>(lib: Libc<N>, slots: seq<Slot>, blank: string)
    requires slots != [] && ValidSlots(lib, slots) && IsBlank(blank)
    ensures var more := [slots[0].(before := blank + slots[0].before)] + slots[1..];
      && ValidSlots(lib, more) && SlotsShown(more) == blank + SlotsShown(slots)
      && SlotsMeant(lib, more) == SlotsMeant(lib, slots) && SlotsDepth(more) == SlotsDepth(slots)
  {
    hide Shown, Valid, Meant, Depth;
    var more := [slots[0].(before := blank + slots[0].before)] + slots[1..];
    assert more[1..] == slots[1..];
    assert IsBlank(blank + slots[0].before);
  }

  lemma {:induction false} SlotsOf<N>(lib: Libc<N>, s: string, d: nat) returns (slots: seq<Slot>)
    requires ParseItems(lib, s, d).Parsed? && d <= NESTING_LIMIT
    ensures slots != [] && ValidSlots(lib, slots) && s == SlotsShown(slots) + ("]" + ParseItems(lib, s, d).rest)
    ensures SlotsMeant(lib, slots) == ParseItems(lib, s, d).value && d + SlotsDepth(slots) <= NESTING_LIMIT
    decreases |s|, 2
  {
    hide ParseValue, SkipWs, Shown, Valid, Meant, Depth;
    var before := BlankOf(s);
    var p := ParseValue(lib, SkipWs(s), d);
    var after := BlankOf(p.rest);
    var t, rest := SkipWs(p.rest), ParseItems(lib, s, d).rest;
    BlankDelimits(after, t);
    var w := ValueOf(lib, SkipWs(s), d);
    var slot := Slot(before, w, after);
    if t[0] == ',' {
      var more := SlotsOf(lib, t[1..], d);
      slots := [slot] + more;
      assert slots[1..] == more;
      assert t == "," + t[1..];
    } else {
      slots := [slot];
      assert slots[1..] == [];
      assert t == "]" + rest;
    }
    SlotsSplit(slots, "]" + rest);
    assert AfterSlot(slots, "]" + rest) == t;
  }

  lemma {:induction false} ObjOf<N>(lib: Libc<N>, s: string, d: nat) returns (w: Writing)
    requires s != "" && s[0] == '{' && ParseObject(lib, s, d).Parsed?
    requires Delimited(ParseObject(lib, s, d).rest) && d <= NESTING_LIMIT
    ensures IsWritten(lib, w, s, Object(ParseObject(lib, s, d).value), ParseObject(lib, s, d).rest, d)
    decreases |s|, 0
  {
    hide ParseMembers, SkipWs, IsWritten, FieldsShown, ValidFields, FieldsMeant, FieldsDepth;
    var blank := BlankOf(s[1..]);
    var t, rest := SkipWs(s[1..]), ParseObject(lib, s, d).rest;
    assert s == "{" + (blank + t);
    if t != "" && t[0] == '}' {
      w := Obj([], blank);
      assert t == "}" + rest;
      EmptyObjIs(lib, blank, rest, d);
    } else {
      var fields := FieldsOf(lib, t, d + 1);
      FieldsMoved(lib, fields, blank);
      fields := [fields[0].(before := blank + fields[0].before)] + fields[1..];
      w := Obj(fields, "");
      assert blank + t == FieldsShown(fields) + ("}" + rest);
      ObjIs(lib, fields, rest, d);
    }
  }

  lemma FieldsMoved<N>(lib: Libc<N>, fields: seq<Field>, blank: string)
    requires fields != [] && ValidFields(lib, fields) && IsBlank(blank)
    ensures var more := [fields[0].(before := blank + fields[0].before)] + fields[1..];
      && ValidFields(lib, more) && FieldsShown(more) == blank + FieldsShown(fields)
      && FieldsMeant(lib, more) == FieldsMeant(lib, fields) && FieldsDepth(more) == FieldsDepth(fields)
  {
    hide Shown, Valid, Meant, Depth, IsBody, FieldShown;
    var f := fields[0];
    var g := f.(before := blank + f.before);
    var more := [g] + fields[1..];
    assert more[1..] == fields[1..];
    assert IsBlank(g.before);
    FieldMoved(f, blank);
    FieldsUnfold(fields);
    FieldsUnfold(more);
    hide FieldsShown;
    assert blank + FieldShown(f) + (f.after + (if |fields| == 1 then "" else "," + FieldsShown(fields[1..])))
        == blank + (FieldShown(f) + (f.after + if |fields| == 1 then "" else "," + FieldsShown(fields[1..])));
  }

  lemma FieldMoved(f: Field, blank: string)
    ensures FieldShown(f.(before := blank + f.before)) == blank + FieldShown(f)
  {
    hide Shown;
    var more := "\"" + f.name + "\"" + (f.behind + (":" + (f.gap + Shown(f.w))));
    assert blank + f.before + more == blank + (f.before + more);
  }

  // One member, with what is between its name and its value.
  lemma {:induction false} FieldOf<N>(lib: Libc<N>, s: string, d: nat) returns (f: Field)
    requires ParseMember(lib, s, d).Parsed? && Delimited(ParseMember(lib, s, d).rest) && d <= NESTING_LIMIT
    ensures IsBlank(f.before) && IsBody(f.name) && IsBlank(f.behind) && IsBlank(f.gap) && Valid(lib, f.w)
    ensures f.after == ""
    ensures s == FieldShown(f) + ParseMember(lib, s, d).rest && d + Depth(f.w) <= NESTING_LIMIT
    ensures ParseMember(lib, s, d).value == Member(BodyValue(f.name), Meant(lib, f.w))
    decreases |s|, 2
  {
    hide ParseValue, ParseString, SkipWs, Shown, Valid, Meant, Depth, IsBody;
    var before := BlankOf(s);
    var p := ParseString(SkipWs(s));
    var name := BodyOf(SkipWs(s));
    var behind := BlankOf(p.rest);
    var t, rest := SkipWs(p.rest), ParseMember(lib, s, d).rest;
    var gap := BlankOf(t[1..]);
    assert t == ":" + t[1..];
    var w := ValueOf(lib, SkipWs(t[1..]), d);
    f := Field(before, name, behind, gap, w, "");
    FieldSplit(f, rest);
  }

  lemma {:induction false} FieldsOf<N>(lib: Libc<N>, s: string, d: nat) returns (fields: seq<Field>)
    requires ParseMembers(lib, s, d).Parsed? && d <= NESTING_LIMIT
    ensures fields != [] && ValidFields(lib, fields) && s == FieldsShown(fields) + ("}" + ParseMembers(lib, s, d).rest)
    ensures FieldsMeant(lib, fields) == ParseMembers(lib, s, d).value && d + FieldsDepth(fields) <= NESTING_LIMIT
    decreases |s|, 3
  {
    hide ParseMember, SkipWs, Shown, Valid, Meant, Depth, FieldShown, IsBody;
    var p := ParseMember(lib, s, d);
    var after := BlankOf(p.rest);
    var t, rest := SkipWs(p.rest), ParseMembers(lib, s, d).rest;
    BlankDelimits(after, t);
    var f := FieldOf(lib, s, d);
    ShownWithout(f, after);
    f := f.(after := after);
    if t[0] == ',' {
      var more := FieldsOf(lib, t[1..], d);
      fields := [f] + more;
      assert fields[1..] == more;
      assert t == "," + t[1..];
    } else {
      fields := [f];
      assert fields[1..] == [];
      assert t == "}" + rest;
    }
    FieldsSplit(fields, "}" + rest);
    assert AfterField(fields, "}" + rest) == t;
  }

  lemma ShownWithout(f: Field, after: string)
    ensures FieldShown(f.(after := after)) == FieldShown(f)
  {
    hide Shown;
  }

  // ----- whole texts

  // What is left of a text behind a byte order mark. It is not looked for in a text of three characters.
  function WithoutBom(text: string): string {
    if |text| > 3 && StartsWith(text, BOM) then text[3..] else text
  }

  lemma BomSkipped(text: string)
    ensures SkipBom(text + "\0") == WithoutBom(text) + "\0"
  {
    var s := text + "\0";
    assert |text| >= 3 ==> s[..3] == text[..3];
    assert |text| >= 3 ==> s[3..] == text[3..] + "\0";
  }

  // The text is this value, with white space around it.
  ghost predicate Reads<N>(lib: Libc<N>, text: string, before: string, w: Writing, after: string) {
    && WithoutBom(text) == before + Shown(w) + after
    && IsBlank(before) && IsBlank(after) && Valid(lib, w) && Depth(w) <= NESTING_LIMIT
  }

  lemma {:induction false} BlankToEnd(ws: string)
    requires IsBlank(ws) && '\0' !in ws
    ensures SkipWs(ws + "\0") == "\0"
  {
    if ws == "" {
      assert ws + "\0" == "\0";
    } else {
      BlankToEnd(ws[1..]);
      assert (ws + "\0")[1..] == ws[1..] + "\0";
    }
  }

  // Whatever is written by the grammar is parsed, as what it means.
  lemma WrittenIsParsed<N>(lib: Libc<N>, text: string, before: string, w: Writing, after: string)
    requires Reads(lib, text, before, w, after) && '\0' !in after
    ensures Parse(lib, text, true) == Some(Meant(lib, w))
  {
    hide ParseValue, SkipWs, Shown, Valid, Meant, Depth, SkipBom, WithoutBom;
    BomSkipped(text);
    var rest := after + "\0";
    var s := Shown(w) + rest;
    assert WithoutBom(text) + "\0" == before + s;
    ShownOpens(lib, w);
    BlankSkipped(before, s);
    BlankDelimits(after, "\0");
    ValueWritten(lib, w, rest, 0);
    BlankToEnd(after);
  }

  // And whatever is parsed is written by the grammar.
  lemma ParsedIsWritten<N>(lib: Libc<N>, text: string) returns (before: string, w: Writing, after: string)
    requires Parse(lib, text, true).Some? && '\0' !in text
    ensures Reads(lib, text, before, w, after) && Parse(lib, text, true) == Some(Meant(lib, w)) && '\0' !in after
  {
    hide ParseValue, SkipWs, Shown, Valid, Meant, Depth, SkipBom;
    BomSkipped(text);
    var s := WithoutBom(text) + "\0";
    before := BlankOf(s);
    var rest := ParseValue(lib, SkipWs(s), 0).rest;
    var ws := BlankOf(rest);
    BlankDelimits(ws, SkipWs(rest));
    w := ValueOf(lib, SkipWs(s), 0);
    assert s == before + Shown(w) + ws + SkipWs(rest);
    NulIsLast(text, before + Shown(w) + ws, SkipWs(rest));
    after := ws;
  }

  // The NUL that the parser ends at is the one behind the text.
  lemma NulIsLast(text: string, front: string, back: string)
    requires '\0' !in text && WithoutBom(text) + "\0" == front + back && StartsWith(back, "\0")
    ensures front == WithoutBom(text) && '\0' !in front
  {
    var t := WithoutBom(text);
    assert forall i :: 0 <= i < |t| ==> t[i] in text;
    assert (front + back)[|front|] == '\0';
    assert |front| == |t|;
    assert (front + back)[..|front|] == front && (t + "\0")[..|t|] == t;
  }

  // The parser takes just the texts of the grammar, and gives the value that is written.
  lemma ParsesIff<N>(lib: Libc<N>, text: string, v: Value<N>)
    requires '\0' !in text
    ensures Parse(lib, text, true) == Some(v) <==>
      exists before, w, after :: Reads(lib, text, before, w, after) && Meant(lib, w) == v
  {
    hide Parse, Shown, Valid, Meant, Depth, WithoutBom;
    if Parse(lib, text, true) == Some(v) {
      var before, w, after := ParsedIsWritten(lib, text);
    }
    forall before, w, after | Reads(lib, text, before, w, after) && Meant(lib, w) == v
      ensures Parse(lib, text, true) == Some(v)
    {
      NulNotBehind(text, before + Shown(w), after);
      WrittenIsParsed(lib, text, before, w, after);
    }
  }

  lemma NulNotBehind(text: string, front: string, after: string)
    requires '\0' !in text && WithoutBom(text) == front + after
    ensures '\0' !in after
  {
    var t := WithoutBom(text);
    assert forall i :: 0 <= i < |t| ==> t[i] in text;
    assert forall i :: 0 <= i < |after| ==> after[i] == t[|front| + i];
  }
}
