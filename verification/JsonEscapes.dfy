// All the ways to write a string in JSON, as RFC 8259 has them in section 7, and what parse_string of cJSON.c
// makes of them.

module JsonEscapes {
  import opened Options
  import opened JsonString
  import opened JsonText

  // One character of a string: as it is, by the i-th short escape, by four hexadecimal digits, or by the eight of
  // a surrogate pair. upper says which digits are written in upper case.
  datatype Unit =
    | Raw(c: char)
    | Short(i: nat)
    | Code(cp: nat, upper: seq<bool>)
    | Surrogates(cp: nat, upper: seq<bool>)

  // What the short escapes stand for, and their letters.
  const MEANT := ['\"', '\\', '/', 8 as char, 12 as char, '\n', '\r', '\t']
  const LETTERS := "\"\\/bfnrt"

  predicate Valid(u: Unit) {
    match u
    case Raw(c) => Plain(c)
    case Short(i) => i < 8
    case Code(cp, upper) => |upper| == 4 && cp < 0x1_0000 && IsScalar(cp)
    case Surrogates(cp, upper) => |upper| == 8 && 0x1_0000 <= cp < 0x11_0000
  }

  function Digit(n: nat, upper: bool): char
    requires n < 16
  {
    (if upper then "0123456789ABCDEF" else "0123456789abcdef")[n]
  }

  // n in four digits.
  function Digits(n: nat, upper: seq<bool>): (s: string)
    requires n < 0x1_0000 && |upper| == 4
    ensures |s| == 4
  {
    [Digit(n / 0x1000, upper[0]), Digit(n / 0x100 % 16, upper[1]),
     Digit(n / 16 % 16, upper[2]), Digit(n % 16, upper[3])]
  }

  function High(cp: nat): nat
    requires 0x1_0000 <= cp < 0x11_0000
  {
    0xd800 + (cp - 0x1_0000) / 0x400
  }

  function Low(cp: nat): nat
    requires 0x1_0000 <= cp < 0x11_0000
  {
    0xdc00 + (cp - 0x1_0000) % 0x400
  }

  function Spelled(u: Unit): string
    requires Valid(u)
  {
    match u
    case Raw(c) => [c]
    case Short(i) => ['\\', LETTERS[i]]
    case Code(cp, upper) => "\\u" + Digits(cp, upper)
    case Surrogates(cp, upper) => "\\u" + Digits(High(cp), upper[..4]) + ("\\u" + Digits(Low(cp), upper[4..]))
  }

  function Meant(u: Unit): string
    requires Valid(u)
  {
    match u
    case Raw(c) => [c]
    case Short(i) => [MEANT[i]]
    case Code(cp, _) => Utf8(cp)
    case Surrogates(cp, _) => Utf8(cp)
  }

  // An escape stands for its own code point, in UTF-8.
  lemma EscapeIsCodePoint(u: Unit)
    requires Valid(u) && (u.Code? || u.Surrogates?)
    ensures FromUtf8(Meant(u)) == Some(u.cp)
  {
    Utf8IsDecoded(u.cp);
  }

  // ----- one unit is read

  lemma DigitValue(n: nat, upper: bool)
    requires n < 16
    ensures HexValue(Digit(n, upper)) == Some(n) && Plain(Digit(n, upper))
  {}

  lemma DigitsValue(n: nat, upper: seq<bool>)
    requires n < 0x1_0000 && |upper| == 4
    ensures Hex4(Digits(n, upper)) == n
    ensures forall i :: 0 <= i < 4 ==> Plain(Digits(n, upper)[i])
  {
    hide Digit, HexValue;
    DigitValue(n / 0x1000, upper[0]);
    DigitValue(n / 0x100 % 16, upper[1]);
    DigitValue(n / 16 % 16, upper[2]);
    DigitValue(n % 16, upper[3]);
    Base16Digits(n);
  }

  lemma Base16Digits(n: nat)
    ensures n == n / 0x1000 * 0x1000 + n / 0x100 % 16 * 0x100 + n / 16 % 16 * 16 + n % 16
  {
    var n1 := n / 16;
    var n2 := n1 / 16;
    assert n2 == n / 0x100 && n2 / 16 == n / 0x1000;
  }

  // The second pass reads a unit as what it means, whatever follows it.
  lemma UnitIsRead(u: Unit, b: string)
    requires Valid(u)
    ensures Next(Spelled(u) + b) == Literal(Meant(u), |Spelled(u)|)
  {
    hide Utf8, Hex4, Digits;
    var t := Spelled(u) + b;
    match u
    case Raw(c) =>
    case Short(i) => ShortIsRead(i);
    case Code(cp, upper) =>
      DigitsValue(cp, upper);
      assert t[2..6] == Digits(cp, upper);
    case Surrogates(cp, upper) =>
      DigitsValue(High(cp), upper[..4]);
      DigitsValue(Low(cp), upper[4..]);
      assert t[2..6] == Digits(High(cp), upper[..4]) && t[8..12] == Digits(Low(cp), upper[4..]);
      PairIsUnique(cp, High(cp), Low(cp));
  }

  lemma ShortIsRead(i: nat)
    requires i < 8
    ensures LETTERS[i] != 'u' && Letter(LETTERS[i]) == Some(MEANT[i])
  {}

  // ----- whole strings are read

  predicate AllValid(us: seq<Unit>) {
    forall i :: 0 <= i < |us| ==> Valid(us[i])
  }

  function SpelledAll(us: seq<Unit>): string
    requires AllValid(us)
  {
    if us == [] then "" else Spelled(us[0]) + SpelledAll(us[1..])
  }

  function MeantAll(us: seq<Unit>): string
    requires AllValid(us)
  {
    if us == [] then "" else Meant(us[0]) + MeantAll(us[1..])
  }

  lemma UnitIsClosed(u: Unit, s: string)
    requires Valid(u) && Closing(s).Some?
    ensures Closing(Spelled(u) + s) == Some(Closing(s).value + |Spelled(u)|)
  {
    hide Closing, Digits;
    match u
    case Raw(c) => ClosingPlain(c, s);
    case Short(i) => ClosingPair(LETTERS[i], s);
    case Code(cp, upper) => DigitsClosed(cp, upper, s);
    case Surrogates(cp, upper) =>
      var low := "\\u" + Digits(Low(cp), upper[4..]);
      DigitsClosed(Low(cp), upper[4..], s);
      DigitsClosed(High(cp), upper[..4], low + s);
      assert Spelled(u) + s == "\\u" + Digits(High(cp), upper[..4]) + (low + s);
  }

  lemma DigitsClosed(n: nat, upper: seq<bool>, s: string)
    requires n < 0x1_0000 && |upper| == 4 && Closing(s).Some?
    ensures Closing("\\u" + Digits(n, upper) + s) == Some(Closing(s).value + 6)
  {
    hide Closing, Digits;
    DigitsValue(n, upper);
    var t := "\\u" + Digits(n, upper) + s;
    assert t[2..6] == Digits(n, upper) && t[6..] == s;
    assert t[2] == t[2..6][0] && t[3] == t[2..6][1] && t[4] == t[2..6][2] && t[5] == t[2..6][3];
    ClosingHex(t);
  }

  lemma {:induction false} AllClosed(us: seq<Unit>, rest: string)
    requires AllValid(us)
    ensures Closing(SpelledAll(us) + "\"" + rest) == Some(|SpelledAll(us)|)
  {
    hide Spelled;
    if us == [] {
      assert SpelledAll(us) + "\"" + rest == "\"" + rest;
    } else {
      hide Closing;
      AllClosed(us[1..], rest);
      UnitIsClosed(us[0], SpelledAll(us[1..]) + "\"" + rest);
      Assoc(Spelled(us[0]), SpelledAll(us[1..]), "\"", rest);
    }
  }

  lemma {:induction false} AllRead(us: seq<Unit>)
    requires AllValid(us)
    ensures Unescape(SpelledAll(us)) == Some(MeantAll(us))
  {
    hide Spelled, Meant, Next;
    if us != [] {
      var b := SpelledAll(us[1..]);
      AllRead(us[1..]);
      UnitIsRead(us[0], b);
      SpelledIsSome(us[0]);
      assert (Spelled(us[0]) + b)[|Spelled(us[0])|..] == b;
    }
  }

  lemma SpelledIsSome(u: Unit)
    requires Valid(u)
    ensures Spelled(u) != ""
  {}

  // Every spelling of a string is parsed as the string, up to a NUL in it.
  lemma SpelledIsParsed(us: seq<Unit>, rest: string)
    requires AllValid(us)
    ensures ParseString("\"" + SpelledAll(us) + "\"" + rest) == Parsed(CString(MeantAll(us)), rest)
  {
    hide Closing, Unescape, SpelledAll, CString;
    var b, t := SpelledAll(us), "\"" + SpelledAll(us) + "\"" + rest;
    AllClosed(us, rest);
    AllRead(us);
    assert t[1..] == b + "\"" + rest;
    assert t[1..1 + |b|] == b && t[|b| + 2..] == rest;
  }

  // ----- nothing else is read

  // Four digits of which one is none, or a backslash in front of the closing quote: here cJSON.c is not strict.
  predicate IsLoose(b: string) {
    b == "\\" || (|b| >= 6 && b[0] == '\\' && b[1] == 'u' && exists i :: 2 <= i < 6 && HexValue(b[i]).None?)
  }

  lemma DigitOf(c: char) returns (n: nat, upper: bool)
    requires HexValue(c).Some?
    ensures n < 16 && c == Digit(n, upper) && HexValue(c) == Some(n)
  {
    n, upper := HexValue(c).value, 'A' <= c <= 'F';
  }

  lemma DigitsOf(s: string) returns (n: nat, upper: seq<bool>)
    requires |s| == 4 && forall i :: 0 <= i < 4 ==> HexValue(s[i]).Some?
    ensures n < 0x1_0000 && |upper| == 4 && s == Digits(n, upper) && Hex4(s) == n
  {
    hide HexValue, Digit;
    var n0, u0 := DigitOf(s[0]);
    var n1, u1 := DigitOf(s[1]);
    var n2, u2 := DigitOf(s[2]);
    var n3, u3 := DigitOf(s[3]);
    n, upper := n0 * 0x1000 + n1 * 0x100 + n2 * 16 + n3, [u0, u1, u2, u3];
    NibblesOf(n0, n1, n2, n3);
  }

  lemma NibblesOf(n0: nat, n1: nat, n2: nat, n3: nat)
    requires n0 < 16 && n1 < 16 && n2 < 16 && n3 < 16
    ensures var n := n0 * 0x1000 + n1 * 0x100 + n2 * 16 + n3;
      n / 0x1000 == n0 && n / 0x100 % 16 == n1 && n / 16 % 16 == n2 && n % 16 == n3
  {
    var n := n0 * 0x1000 + n1 * 0x100 + n2 * 16 + n3;
    assert n / 16 == n0 * 0x100 + n1 * 16 + n2;
    assert n / 0x100 == n0 * 16 + n1;
  }

  // What the second pass takes is a unit, but for what is loose.
  lemma ReadIsUnit(b: string) returns (u: Unit)
    requires b != "" && b[0] != '\"' && !IsLoose(b) && Next(b).length > 0
    ensures Valid(u) && |Spelled(u)| <= |b| && b[..|Spelled(u)|] == Spelled(u)
  {
    if b[0] != '\\' {
      u := Raw(b[0]);
    } else if b[1] != 'u' {
      u := ShortOf(b[1]);
      assert b[..2] == [b[0], b[1]];
    } else {
      u := CodeOf(b);
    }
  }

  lemma ShortOf(c: char) returns (u: Unit)
    requires Letter(c).Some?
    ensures u.Short? && Valid(u) && LETTERS[u.i] == c
  {
    u := Short(if c == '\"' then 0 else if c == '\\' then 1 else if c == '/' then 2 else if c == 'b' then 3
               else if c == 'f' then 4 else if c == 'n' then 5 else if c == 'r' then 6 else 7);
  }

  lemma CodeOf(b: string) returns (u: Unit)
    requires |b| >= 2 && b[0] == '\\' && b[1] == 'u' && !IsLoose(b) && Next(b).length > 0
    ensures Valid(u) && |Spelled(u)| <= |b| && b[..|Spelled(u)|] == Spelled(u)
  {
    hide Hex4, HexValue, Digits, Utf8;
    assert forall i :: 0 <= i < 4 ==> b[2..6][i] == b[i + 2];
    var n, upper := DigitsOf(b[2..6]);
    if 0xd800 <= n < 0xdc00 {
      LowIsDigits(b[8..12]);
      var n', upper' := DigitsOf(b[8..12]);
      u := Surrogates(Pair(n, n'), upper + upper');
      PairIsUnique(u.cp, n, n');
      assert u.upper[..4] == upper && u.upper[4..] == upper';
      assert b[..12] == "\\u" + b[2..6] + ("\\u" + b[8..12]);
    } else {
      u := Code(n, upper);
      assert b[..6] == "\\u" + b[2..6];
    }
  }

  lemma LowIsDigits(s: string)
    requires |s| == 4 && Hex4(s) > 0
    ensures forall i :: 0 <= i < 4 ==> HexValue(s[i]).Some?
  {}

  // ----- what is printed

  // RFC 8259 does not allow a control character as it is.
  predicate IsStrict(u: Unit) {
    Valid(u) && (u.Raw? ==> u.c >= ' ')
  }

  // A character is printed in its shortest spelling, and with lower case digits where that is a code.
  lemma EscapeIsShortest(c: char, u: Unit)
    requires c < 0x80 as char && IsStrict(u) && Meant(u) == [c]
    ensures |Escape(c)| <= |Spelled(u)|
  {
    if u.Short? {
      assert MEANT[u.i] == c;
    }
  }

  lemma EscapeIsSpelled(c: char) returns (u: Unit)
    ensures IsStrict(u) && Escape(c) == Spelled(u) && (c < 0x80 as char ==> Meant(u) == [c])
    ensures u.Code? ==> u.upper == [false, false, false, false]
  {
    hide Digits, HexDigit;
    if c == '\"' || c == '\\' {
      u := Short(if c == '\"' then 0 else 1);
    } else if c >= ' ' {
      u := Raw(c);
    } else if c == 8 as char || c == 12 as char || c == '\n' || c == '\r' || c == '\t' {
      u := Short(if c == 8 as char then 3 else if c == 12 as char then 4 else if c == '\n' then 5
                 else if c == '\r' then 6 else 7);
    } else {
      u := Code(c as nat, [false, false, false, false]);
      LowDigits(c as nat);
    }
  }

  lemma LowDigits(n: nat)
    requires n < 32
    ensures Digits(n, [false, false, false, false]) == ['0', '0', HexDigit(n / 16), HexDigit(n % 16)]
  {
    assert n / 0x1000 == 0 && n / 0x100 % 16 == 0 && n / 16 % 16 == n / 16;
  }

  // The layout of an array with two items.
  lemma PrintedArray<N>(lib: Libc<N>, fmt: bool, a: Value<N>, b: Value<N>, depth: nat)
    ensures Text(lib, fmt, Array([a, b]), depth) ==
      "[" + (Text(lib, fmt, a, depth + 1) + (if fmt then ", " else ",") + Text(lib, fmt, b, depth + 1)) + "]"
  {
    hide NumberText, Quoted;
    assert [a, b][1..] == [b];
    OneItem(lib, fmt, b, depth + 1);
    ManyItems(lib, fmt, [a, b], depth + 1);
  }

  lemma OneItem<N>(lib: Libc<N>, fmt: bool, a: Value<N>, depth: nat)
    ensures ItemsText(lib, fmt, [a], depth) == Text(lib, fmt, a, depth)
  {
    hide Text;
  }

  lemma ManyItems<N>(lib: Libc<N>, fmt: bool, items: seq<Value<N>>, depth: nat)
    requires |items| > 1
    ensures ItemsText(lib, fmt, items, depth) ==
      Text(lib, fmt, items[0], depth) + (if fmt then ", " else ",") + ItemsText(lib, fmt, items[1..], depth)
  {
    hide Text;
  }

  // The layout of an object with one member: with formatting on a line of its own, with a tab for each level.
  lemma PrintedObject<N>(lib: Libc<N>, m: Member<N>, depth: nat)
    ensures Text(lib, false, Object([m]), depth) ==
      "{" + (Quoted(m.name) + ":" + Text(lib, false, m.value, depth + 1)) + "}"
    ensures Text(lib, true, Object([m]), depth) ==
      "{\n" + (Tabs(depth + 1) + Quoted(m.name) + ":\t" + Text(lib, true, m.value, depth + 1) + "\n")
      + Tabs(depth) + "}"
  {
    OneMember(lib, false, m, depth + 1);
    OneMember(lib, true, m, depth + 1);
    Unfold(lib, false, [m], depth);
    Unfold(lib, true, [m], depth);
    hide Text, MembersText, Tabs;
    var t := Quoted(m.name) + ":" + Text(lib, false, m.value, depth + 1);
    assert "{" + t + "" + "}" == "{" + t + "}";
  }

  lemma OneMember<N>(lib: Libc<N>, fmt: bool, m: Member<N>, depth: nat)
    ensures MembersText(lib, fmt, [m], depth) ==
      if fmt then Tabs(depth) + Quoted(m.name) + ":\t" + Text(lib, true, m.value, depth) + "\n"
      else Quoted(m.name) + ":" + Text(lib, false, m.value, depth)
  {
    hide Text, Tabs, Quoted;
    assert [m][1..] == [];
    assert MembersText(lib, fmt, [], depth) == "";
    var t := Quoted(m.name) + ":" + Text(lib, false, m.value, depth);
    assert "" + Quoted(m.name) + ":" + Text(lib, false, m.value, depth) + "" + "" + "" == t;
  }

  lemma Unfold<N>(lib: Libc<N>, fmt: bool, members: seq<Member<N>>, depth: nat)
    ensures Text(lib, fmt, Object(members), depth) ==
      (if fmt then "{\n" else "{") + MembersText(lib, fmt, members, depth + 1) + (if fmt then Tabs(depth) else "") + "}"
  {
    hide MembersText, Tabs;
  }
}
