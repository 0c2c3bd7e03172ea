// String literals of cJSON.c: escaping for print, and the two passes of parse_string.

module JsonString {
  import opened Options

  // ----- print_string_ptr

  function HexDigit(n: nat): char
    requires n < 16
  {
    "0123456789abcdef"[n]
  }

  // One character as it is printed: control characters, quotes and backslashes are escaped.
  function Escape(c: char): string {
    if c == '\\' then "\\\\"
    else if c == '\"' then "\\\""
    else if c > 31 as char then [c]
    else if c == 8 as char then "\\b"
    else if c == 12 as char then "\\f"
    else if c == '\n' then "\\n"
    else if c == '\r' then "\\r"
    else if c == '\t' then "\\t"
    else "\\u00" + [HexDigit(c as nat / 16), HexDigit(c as nat % 16)]
  }

  function EscapeAll(s: string): string {
    if s == "" then "" else Escape(s[0]) + EscapeAll(s[1..])
  }

  function Quoted(s: string): string {
    "\"" + EscapeAll(s) + "\""
  }

  // ----- parse_hex4 and utf16_literal_to_utf8

  function HexValue(c: char): Option<nat> {
    if '0' <= c <= '9' then Some(c as nat - '0' as nat)
    else if 'A' <= c <= 'F' then Some(10 + c as nat - 'A' as nat)
    else if 'a' <= c <= 'f' then Some(10 + c as nat - 'a' as nat)
    else None
  }

  // A bad digit makes the whole value zero.
  function Hex4(s: string): (h: nat)
    requires |s| == 4
    ensures h < 0x1_0000
  {
    var d0, d1, d2, d3 := HexValue(s[0]), HexValue(s[1]), HexValue(s[2]), HexValue(s[3]);
    if d0.Some? && d1.Some? && d2.Some? && d3.Some? then
      d0.value * 0x1000 + d1.value * 0x100 + d2.value * 0x10 + d3.value
    else 0
  }

  // Code points above 0x10ffff do not occur.
  function Utf8(cp: nat): (s: string)
    requires cp < 0x11_0000
    ensures 1 <= |s| <= 4
  {
    if cp < 0x80 then [cp as char]
    else if cp < 0x800 then [(0xc0 + cp / 0x40) as char, Tail(cp)]
    else if cp < 0x1_0000 then [(0xe0 + cp / 0x1000) as char, Tail(cp / 0x40), Tail(cp)]
    else [(0xf0 + cp / 0x4_0000) as char, Tail(cp / 0x1000), Tail(cp / 0x40), Tail(cp)]
  }

  function Tail(cp: nat): char {
    (0x80 + cp % 0x40) as char
  }

  // length is the number of characters the literal takes; zero is a failure.
  datatype Literal = Literal(out: string, length: nat)

  const BAD := Literal("", 0)

  function Pair(first: nat, second: nat): (cp: nat)
    requires 0xd800 <= first < 0xdc00 && 0xdc00 <= second < 0xe000
    ensures 0x1_0000 <= cp < 0x11_0000
  {
    0x1_0000 + (first - 0xd800) * 0x400 + (second - 0xdc00)
  }

  // b starts with \u and ends where the string literal does.
  function Utf16(b: string): (l: Literal)
    ensures l.length > 0 ==> l.length <= |b| && 2 * |l.out| <= l.length && 6 <= l.length
  {
    if |b| < 6 then BAD
    else
      var first := Hex4(b[2..6]);
      if 0xdc00 <= first < 0xe000 then BAD
      else if 0xd800 <= first < 0xdc00 then
        if |b| < 12 || b[6] != '\\' || b[7] != 'u' then BAD
        else
          var second := Hex4(b[8..12]);
          if second < 0xdc00 || 0xe000 <= second then BAD else Literal(Utf8(Pair(first, second)), 12)
      else Literal(Utf8(first), 6)
  }

  // ----- parse_string

  function Letter(c: char): Option<char> {
    if c == 'b' then Some(8 as char)
    else if c == 'f' then Some(12 as char)
    else if c == 'n' then Some('\n')
    else if c == 'r' then Some('\r')
    else if c == 't' then Some('\t')
    else if c == '\"' || c == '\\' || c == '/' then Some(c)
    else None
  }

  // The first pass: the position of the closing quote. s starts behind the opening quote.
  function Closing(s: string): (r: Option<nat>)
    ensures r.Some? ==> r.value < |s|
  {
    if s == "" then None
    else if s[0] == '\"' then Some(0)
    else
      var step := if s[0] == '\\' then 2 else 1;
      if |s| < step then None
      else
        match Closing(s[step..])
        case None => None
        case Some(n) => Some(n + step)
  }

  function Before(out: string, r: Option<string>): Option<string> {
    if r.None? then None else Some(out + r.value)
  }

  lemma BeforeNothing(r: Option<string>)
    ensures Before("", r) == r
  {
    assert r.Some? ==> "" + r.value == r.value;
  }

  lemma BeforeBoth(a: string, b: string, r: Option<string>)
    ensures Before(a + b, r) == Before(a, Before(b, r))
  {
    assert r.Some? ==> a + b + r.value == a + (b + r.value);
  }

  // One step of the second pass: what it writes, and how far it moves; zero is a failure. The
  // closing quote, which ends the body, is looked at when the body ends in an odd backslash.
  function Next(b: string): (l: Literal)
    requires b != ""
    ensures l.length > 0 ==> l.length <= |b| + 1
  {
    if b[0] != '\\' then Literal([b[0]], 1)
    else
      var c := if |b| == 1 then '\"' else b[1];
      if c == 'u' then Utf16(b)
      else if Letter(c).Some? then Literal([Letter(c).value], 2)
      else BAD
  }

  function Unescape(b: string): Option<string>
    decreases |b|
  {
    if b == "" then Some("")
    else
      var l := Next(b);
      if l.length == 0 then None
      else Before(l.out, Unescape(if l.length >= |b| then "" else b[l.length..]))
  }

  // A C string ends at its first NUL, which \u0000 and bad hexadecimal digits write.
  function CString(s: string): string {
    if s == "" || s[0] == '\0' then "" else [s[0]] + CString(s[1..])
  }

  datatype Parsed<+T> = Parsed(value: T, rest: string) | Failed

  function ParseString(s: string): (r: Parsed<string>)
    ensures r.Parsed? ==> |r.rest| < |s|
  {
    if s == "" || s[0] != '\"' then Failed
    else
      match Closing(s[1..])
      case None => Failed
      case Some(n) =>
        match Unescape(s[1..1 + n])
        case None => Failed
        case Some(t) => Parsed(CString(t), s[n + 2..])
  }

  // ----- printed strings are read back

  predicate NulFree(s: string) {
    forall i :: 0 <= i < |s| ==> s[i] != '\0'
  }

  predicate Plain(c: char) {
    c != '\"' && c != '\\'
  }

  lemma ClosingUnfold(t: string)
    requires t != "" && t[0] != '\"'
    ensures Plain(t[0]) && Closing(t[1..]).Some? ==> Closing(t) == Some(Closing(t[1..]).value + 1)
    ensures t[0] == '\\' && |t| > 1 && Closing(t[2..]).Some? ==> Closing(t) == Some(Closing(t[2..]).value + 2)
  {}

  lemma ClosingPlain(c: char, s: string)
    requires Plain(c) && Closing(s).Some?
    ensures Closing([c] + s) == Some(Closing(s).value + 1)
  {
    hide Closing;
    var t := [c] + s;
    assert t[1..] == s;
    ClosingUnfold(t);
  }

  lemma ClosingPair(c: char, s: string)
    requires Closing(s).Some?
    ensures Closing(['\\', c] + s) == Some(Closing(s).value + 2)
  {
    hide Closing;
    var t := ['\\', c] + s;
    assert t[2..] == s;
    ClosingUnfold(t);
  }

  lemma HexDigitIsPlain(n: nat)
    requires n < 16
    ensures HexDigit(n) != '\"' && HexDigit(n) != '\\' && HexValue(HexDigit(n)) == Some(n)
  {}

  lemma EscapeShape(c: char)
    ensures var e := Escape(c);
            || (e == [c] && Plain(c))
            || (|e| == 2 && e == ['\\', e[1]])
            || (|e| == 6 && e == ['\\', 'u', '0', '0', e[4], e[5]] && Plain(e[4]) && Plain(e[5]))
  {
    if |Escape(c)| == 6 {
      HexDigitIsPlain(c as nat / 16);
      HexDigitIsPlain(c as nat % 16);
    }
  }

  lemma ClosingAt(t: string, i: nat)
    requires i < |t| && Plain(t[i]) && Closing(t[i + 1..]).Some?
    ensures Closing(t[i..]) == Some(Closing(t[i + 1..]).value + 1)
  {
    hide Closing;
    assert t[i..][1..] == t[i + 1..];
    ClosingUnfold(t[i..]);
  }

  lemma ClosingHex(t: string)
    requires |t| >= 6 && t[0] == '\\' && Plain(t[2]) && Plain(t[3]) && Plain(t[4]) && Plain(t[5])
    requires Closing(t[6..]).Some?
    ensures Closing(t) == Some(Closing(t[6..]).value + 6)
  {
    hide Closing;
    ClosingAt(t, 5);
    ClosingAt(t, 4);
    ClosingAt(t, 3);
    ClosingAt(t, 2);
    ClosingUnfold(t);
  }

  lemma ClosingEscape(c: char, s: string)
    requires Closing(s).Some?
    ensures Closing(Escape(c) + s) == Some(Closing(s).value + |Escape(c)|)
  {
    hide Closing, Escape;
    EscapeShape(c);
    var e := Escape(c);
    if |e| == 6 {
      assert (e + s)[6..] == s;
      ClosingHex(e + s);
    } else if |e| == 2 {
      ClosingPair(e[1], s);
    } else {
      ClosingPlain(c, s);
    }
  }

  lemma Assoc(a: string, b: string, c: string, d: string)
    ensures a + b + c + d == a + (b + c + d)
  {}

  lemma {:induction false} ClosingEscaped(s: string, rest: string)
    ensures Closing(EscapeAll(s) + "\"" + rest) == Some(|EscapeAll(s)|)
  {
    hide Escape;
    if s == "" {
      assert EscapeAll(s) + "\"" + rest == "\"" + rest;
    } else {
      hide Closing;
      ClosingEscaped(s[1..], rest);
      ClosingEscape(s[0], EscapeAll(s[1..]) + "\"" + rest);
      Assoc(Escape(s[0]), EscapeAll(s[1..]), "\"", rest);
    }
  }

  lemma NextEscape(c: char, b: string)
    requires c != '\0'
    ensures Next(Escape(c) + b) == Literal([c], |Escape(c)|)
  {
    var e := Escape(c);
    if |e| == 6 {
      HexDigitIsPlain(c as nat / 16);
      HexDigitIsPlain(c as nat % 16);
      assert (e + b)[2..6] == e[2..];
      assert Hex4(e[2..]) == c as nat / 16 * 16 + c as nat % 16;
    }
  }

  lemma {:induction false} UnescapeEscaped(s: string)
    requires NulFree(s)
    ensures Unescape(EscapeAll(s)) == Some(s)
  {
    if s != "" {
      var b := EscapeAll(s[1..]);
      NextEscape(s[0], b);
      UnescapeEscaped(s[1..]);
      assert (Escape(s[0]) + b)[|Escape(s[0])|..] == b;
      assert [s[0]] + s[1..] == s;
    }
  }

  lemma {:induction false} CStringWhole(s: string)
    requires NulFree(s)
    ensures CString(s) == s
  {
    if s != "" {
      CStringWhole(s[1..]);
    }
  }

  // A printed string is read back, whatever follows it.
  lemma QuotedIsParsed(s: string, rest: string)
    requires NulFree(s)
    ensures ParseString(Quoted(s) + rest) == Parsed(s, rest)
  {
    hide Closing, Unescape, EscapeAll, CString;
    var t := Quoted(s) + rest;
    ClosingEscaped(s, rest);
    UnescapeEscaped(s);
    CStringWhole(s);
    assert t[1..] == EscapeAll(s) + "\"" + rest;
    assert t[1..1 + |EscapeAll(s)|] == EscapeAll(s);
    assert t[|EscapeAll(s)| + 2..] == rest;
  }

  // ----- UTF-16 literals become UTF-8

  // A code point that is not half of a surrogate pair.
  predicate IsScalar(cp: nat) {
    cp < 0xd800 || 0xe000 <= cp < 0x11_0000
  }

  predicate IsTail(c: char) {
    0x80 as char <= c < 0xc0 as char
  }

  // The code point that s is in UTF-8, by RFC 3629, sections 3 and 4: the marks of the later
  // octets are right, no form is longer than needed, and surrogates are left out.
  function FromUtf8(s: string): Option<nat> {
    if s == "" || exists i :: 0 < i < |s| && !IsTail(s[i]) then None
    else
      var b := s[0] as nat;
      if |s| == 1 then (if b < 0x80 then Some(b) else None)
      else
        var t := s[1] as nat - 0x80;
        if |s| == 2 then (if 0xc0 <= b < 0xe0 then AtLeast((b - 0xc0) * 0x40 + t, 0x80) else None)
        else
          var u := s[2] as nat - 0x80;
          if |s| == 3 then (if 0xe0 <= b < 0xf0 then AtLeast((b - 0xe0) * 0x1000 + t * 0x40 + u, 0x800) else None)
          else if |s| == 4 then
            var v := s[3] as nat - 0x80;
            if 0xf0 <= b < 0xf8 then AtLeast((b - 0xf0) * 0x4_0000 + t * 0x1000 + u * 0x40 + v, 0x1_0000) else None
          else None
  }

  function AtLeast(cp: nat, least: nat): Option<nat> {
    if least <= cp && IsScalar(cp) then Some(cp) else None
  }

  lemma FromOne(l: nat)
    requires l < 0x80
    ensures FromUtf8([l as char]) == Some(l)
  {}

  lemma FromTwo(h: nat, l: nat)
    requires h < 0x20 && l < 0x40
    ensures FromUtf8([(0xc0 + h) as char, (0x80 + l) as char]) == AtLeast(h * 0x40 + l, 0x80)
  {}

  lemma FromThree(h: nat, m: nat, l: nat)
    requires h < 0x10 && m < 0x40 && l < 0x40
    ensures FromUtf8([(0xe0 + h) as char, (0x80 + m) as char, (0x80 + l) as char])
         == AtLeast(h * 0x1000 + m * 0x40 + l, 0x800)
  {}

  lemma FromFour(h: nat, n: nat, m: nat, l: nat)
    requires h < 8 && n < 0x40 && m < 0x40 && l < 0x40
    ensures FromUtf8([(0xf0 + h) as char, (0x80 + n) as char, (0x80 + m) as char, (0x80 + l) as char])
         == AtLeast(h * 0x4_0000 + n * 0x1000 + m * 0x40 + l, 0x1_0000)
  {}

  lemma Base64Digits(cp: nat)
    ensures cp == cp / 0x40 * 0x40 + cp % 0x40
    ensures cp == cp / 0x1000 * 0x1000 + cp / 0x40 % 0x40 * 0x40 + cp % 0x40
    ensures cp == cp / 0x4_0000 * 0x4_0000 + cp / 0x1000 % 0x40 * 0x1000 + cp / 0x40 % 0x40 * 0x40 + cp % 0x40
  {
    var q1 := cp / 0x40;
    var q2 := q1 / 0x40;
    assert q2 == cp / 0x1000 && q2 / 0x40 == cp / 0x4_0000;
  }

  // What is written for a code point is its UTF-8.
  lemma Utf8IsDecoded(cp: nat)
    requires cp < 0x11_0000
    ensures FromUtf8(Utf8(cp)) == if IsScalar(cp) then Some(cp) else None
  {
    hide FromUtf8;
    Base64Digits(cp);
    if cp < 0x80 {
      FromOne(cp);
    } else if cp < 0x800 {
      FromTwo(cp / 0x40, cp % 0x40);
    } else if cp < 0x1_0000 {
      FromThree(cp / 0x1000, cp / 0x40 % 0x40, cp % 0x40);
    } else {
      FromFour(cp / 0x4_0000, cp / 0x1000 % 0x40, cp / 0x40 % 0x40, cp % 0x40);
    }
  }

  // The surrogates are refused, so that an escape that is taken always becomes UTF-8.
  lemma LiteralIsUtf8(b: string)
    ensures Utf16(b).length > 0 ==> FromUtf8(Utf16(b).out).Some?
  {
    hide FromUtf8, Utf8;
    if |b| >= 6 {
      var first := Hex4(b[2..6]);
      if first < 0xd800 || 0xe000 <= first {
        Utf8IsDecoded(first);
      } else if first < 0xdc00 && |b| >= 12 && b[6] == '\\' && b[7] == 'u' {
        var second := Hex4(b[8..12]);
        if 0xdc00 <= second < 0xe000 {
          Utf8IsDecoded(Pair(first, second));
        }
      }
    }
  }

  // Every code point above 0xffff has exactly one surrogate pair.
  lemma PairIsUnique(cp: nat, first: nat, second: nat)
    requires 0x1_0000 <= cp < 0x11_0000
    requires 0xd800 <= first < 0xdc00 && 0xdc00 <= second < 0xe000
    ensures Pair(first, second) == cp
       <==> first == 0xd800 + (cp - 0x1_0000) / 0x400 && second == 0xdc00 + (cp - 0x1_0000) % 0x400
  {}
}
