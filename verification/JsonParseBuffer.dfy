// The parser of cJSON.c: a buffer with an offset that moves forward, and a nesting depth.

module JsonParseBuffer {
  import opened JsonString
  import opened JsonText
  import opened Options

  // ----- the space parse_string takes for its output

  // The escape sequences the first pass counts in a string literal.
  function Skips(b: string): nat {
    if b == "" then 0
    else if b[0] == '\\' && |b| > 1 then 1 + Skips(b[2..])
    else Skips(b[1..])
  }

  // After a bad \u sequence the second pass can be out of step with the first. It still meets
  // as many escape sequences as the first, or one less.
  lemma {:induction false} SkipsOutOfStep(b: string)
    requires b != ""
    ensures Skips(b[1..]) <= Skips(b) <= Skips(b[1..]) + 1
  {
    if |b| > 1 && b[0] == '\\' && b[1] == '\\' {
      SkipsOutOfStep(b[1..]);
      if |b| > 2 {
        SkipsOutOfStep(b[2..]);
        assert b[1..][2..] == b[2..][1..];
      }
      assert b[1..][1..] == b[2..];
    } else if |b| > 1 && b[0] == '\\' {
      assert b[1..][1..] == b[2..];
    }
  }

  lemma SkipsPlain(b: string, k: nat)
    requires k <= |b| && forall i :: 0 <= i < k ==> b[i] != '\\'
    ensures Skips(b) == Skips(b[k..])
    decreases k
  {
    if k == 0 {
      assert b[0..] == b;
    } else {
      SkipsPlain(b[1..], k - 1);
      assert b[1..][k - 1..] == b[k..];
    }
  }

  lemma SkipsAhead(b: string, k: nat)
    requires k <= |b|
    ensures Skips(b) <= Skips(b[k..]) + k
    decreases k
  {
    if k == 0 {
      assert b[0..] == b;
    } else {
      SkipsOutOfStep(b);
      SkipsAhead(b[1..], k - 1);
      assert b[1..][k - 1..] == b[k..];
    }
  }

  lemma SkipsAtMost(b: string)
    ensures Skips(b) <= |b|
  {
    SkipsAhead(b, |b|);
  }

  lemma SkipsPair(b: string)
    requires |b| > 1 && b[0] == '\\'
    ensures Skips(b) == 1 + Skips(b[2..])
  {}

  lemma HexIsPlain(s: string)
    requires |s| == 4 && Hex4(s) != 0
    ensures forall i :: 0 <= i < 4 ==> s[i] != '\\'
  {
    assert HexValue('\\').None?;
    assert HexValue(s[0]).Some? && HexValue(s[1]).Some? && HexValue(s[2]).Some? && HexValue(s[3]).Some?;
  }

  lemma LiteralShape(b: string)
    requires Utf16(b).length > 0
    ensures var l := Utf16(b);
            || (l.length == 6 <= |b| && |l.out| <= 3 && (Hex4(b[2..6]) == 0 ==> |l.out| == 1))
            || (l.length == 12 <= |b| && |l.out| <= 4 && b[6] == '\\' && Hex4(b[2..6]) != 0 && Hex4(b[8..12]) != 0)
  {
    hide Hex4;
  }

  // A \u sequence writes no more than the first pass counted for the characters it takes.
  lemma LiteralFits(b: string)
    requires |b| > 1 && b[0] == '\\' && Utf16(b).length > 0
    ensures var l := Utf16(b); l.length <= |b| && |l.out| + Skips(b) <= l.length + Skips(b[l.length..])
  {
    hide Hex4, Utf16;
    var l := Utf16(b);
    LiteralShape(b);
    SkipsPair(b);
    assert b[2..][4..] == b[6..];
    if Hex4(b[2..6]) == 0 {
      SkipsAhead(b[2..], 4);
    } else {
      HexIsPlain(b[2..6]);
      SkipsPlain(b[2..], 4);
      if l.length == 12 {
        SecondFits(b);
      }
    }
  }

  lemma SecondFits(b: string)
    requires |b| >= 12 && b[6] == '\\' && Hex4(b[8..12]) != 0
    ensures Skips(b[6..]) == 1 + Skips(b[12..])
  {
    hide Hex4;
    HexIsPlain(b[8..12]);
    SkipsPair(b[6..]);
    assert b[6..][2..] == b[8..] && b[8..][4..] == b[12..];
    SkipsPlain(b[8..], 4);
  }

  // One step of the second pass, in the same way.
  lemma NextFits(b: string)
    requires b != "" && Next(b).length > 0
    ensures var l := Next(b);
            && |l.out| + Skips(b) <= l.length + (if l.length <= |b| then Skips(b[l.length..]) else 0)
            && |l.out| + Skips(b) <= |b| + 1
  {
    if Next(b).length <= |b| {
      SkipsAtMost(b[Next(b).length..]);
    }
    hide Utf16;
    if b[0] != '\\' {
      SkipsPlain(b, 1);
    } else if |b| > 1 {
      SkipsPair(b);
      if b[1] == 'u' {
        LiteralFits(b);
      }
    } else {
      assert b[1..] == "";
    }
  }

  // ----- parse_string in steps

  // The first pass: where the string literal ends, and how many escape sequences it has.
  method FindClosing(content: string, start: nat) returns (ok: bool, end: nat, skipped: nat)
    requires start <= |content|
    ensures ok <==> Closing(content[start..]).Some?
    ensures ok ==> end == start + Closing(content[start..]).value && end < |content| && content[end] == '\"'
    ensures ok ==> skipped == Skips(content[start..end])
  {
    hide Closing, Skips;
    end, skipped := start, 0;
    while end < |content| && content[end] != '\"'
      invariant start <= end <= |content|
      invariant Scanned(content, start, end, skipped)
    {
      ClosingStep(content, end);
      if content[end] == '\\' {
        if end + 1 >= |content| {
          return false, end, skipped;
        }
        skipped, end := skipped + 1, end + 1;
      }
      end := end + 1;
    }
    ok := end < |content|;
    ClosingHere(content, end);
    assert ok ==> content[start..][..end - start] == content[start..end];
  }

  // The first pass has gone from start to i.
  ghost predicate Scanned(content: string, start: nat, i: nat, skipped: nat)
    requires start <= i <= |content|
  {
    var s, t := content[start..], content[i..];
    && (Closing(s).Some? <==> Closing(t).Some?)
    && (Closing(t).Some? ==>
          && start + Closing(s).value == i + Closing(t).value
          && skipped + Skips(t[..Closing(t).value]) == Skips(s[..Closing(s).value]))
  }

  lemma ClosingHere(content: string, i: nat)
    requires i <= |content| && (i < |content| ==> content[i] == '\"')
    ensures Closing(content[i..]) == if i < |content| then Some(0) else None
    ensures Skips(content[i..][..0]) == 0
  {}

  lemma ClosingStep(content: string, i: nat)
    requires i < |content| && content[i] != '\"'
    ensures var step := if content[i] == '\\' then 2 else 1;
            if i + step > |content| then Closing(content[i..]).None?
            else
              var s, t := content[i..], content[i + step..];
              && (Closing(s).Some? <==> Closing(t).Some?)
              && (Closing(s).Some? ==>
                    && Closing(s).value == step + Closing(t).value
                    && Skips(s[..Closing(s).value]) == step - 1 + Skips(t[..Closing(t).value]))
  {
    var step, s := if content[i] == '\\' then 2 else 1, content[i..];
    if i + step <= |content| {
      var t := content[i + step..];
      assert s[step..] == t;
      if Closing(s).Some? {
        assert s[..Closing(s).value][step..] == t[..Closing(t).value];
      }
    }
  }

  function Nibbles(s: string, i: nat): nat
    requires |s| == 4 && i <= 4 && forall j :: 0 <= j < i ==> HexValue(s[j]).Some?
  {
    if i == 0 then 0 else (Nibbles(s, i - 1) + HexValue(s[i - 1]).value) * (if i < 4 then 16 else 1)
  }

  lemma BadDigit(s: string, i: nat)
    requires |s| == 4 && i < 4 && HexValue(s[i]).None?
    ensures Hex4(s) == 0
  {
    hide HexValue;
  }

  lemma NibblesAreHex4(s: string)
    requires |s| == 4 && forall j :: 0 <= j < 4 ==> HexValue(s[j]).Some?
    ensures Nibbles(s, 4) == Hex4(s)
  {
    hide HexValue;
    var d0, d1, d2, d3 := HexValue(s[0]).value, HexValue(s[1]).value, HexValue(s[2]).value, HexValue(s[3]).value;
    assert Nibbles(s, 1) == d0 * 16;
    assert Nibbles(s, 2) == (d0 * 16 + d1) * 16;
    assert Nibbles(s, 3) == ((d0 * 16 + d1) * 16 + d2) * 16;
  }

  // parse_hex4
  method ParseHex4(s: string) returns (h: nat)
    requires |s| == 4
    ensures h == Hex4(s)
  {
    hide HexValue;
    h := 0;
    for i := 0 to 4
      invariant forall j :: 0 <= j < i ==> HexValue(s[j]).Some?
      invariant h == Nibbles(s, i)
    {
      var d := HexValue(s[i]);
      if d.None? {
        BadDigit(s, i);
        return 0;
      }
      h := h + d.value;
      if i < 3 {
        h := h * 16;
      }
    }
    NibblesAreHex4(s);
  }

  function Shifted(cp: nat, k: nat): nat {
    if k == 0 then cp else Shifted(cp, k - 1) / 0x40
  }

  lemma ShiftedBy(cp: nat)
    ensures Shifted(cp, 1) == cp / 0x40 && Shifted(cp, 2) == cp / 0x1000 && Shifted(cp, 3) == cp / 0x4_0000
  {
    var q1 := cp / 0x40;
    var q2 := q1 / 0x40;
    var q3 := q2 / 0x40;
    assert Shifted(cp, 1) == q1 && Shifted(cp, 2) == q2 && Shifted(cp, 3) == q3;
    var r1, r2, r3 := cp % 0x40, q1 % 0x40, q2 % 0x40;
    assert cp == q2 * 0x1000 + (r2 * 0x40 + r1) && cp == q3 * 0x4_0000 + (r3 * 0x1000 + r2 * 0x40 + r1);
  }

  // The bytes of UTF-8 text, by their places.
  lemma Utf8At(cp: nat, j: nat)
    requires cp < 0x11_0000 && j < |Utf8(cp)|
    ensures 0 < j ==> Utf8(cp)[j] == Tail(Shifted(cp, |Utf8(cp)| - 1 - j))
    ensures var n := |Utf8(cp)|;
            var mark := if n == 1 then 0 else if n == 2 then 0xc0 else if n == 3 then 0xe0 else 0xf0;
            mark + Shifted(cp, n - 1) < 0x100 && Utf8(cp)[0] == (mark + Shifted(cp, n - 1)) as char
  {
    ShiftedBy(cp);
  }

  // The encoding loop of utf16_literal_to_utf8, from the last byte to the first.
  method WriteUtf8(output: array<char>, at: nat, cp: nat) returns (end: nat)
    requires cp < 0x11_0000 && at + |Utf8(cp)| <= output.Length
    modifies output
    ensures end == at + |Utf8(cp)| && output[..end] == old(output[..at]) + Utf8(cp)
  {
    hide Utf8, Tail;
    var n, mark := 1, 0;
    if cp < 0x80 {
    } else if cp < 0x800 {
      n, mark := 2, 0xc0;
    } else if cp < 0x1_0000 {
      n, mark := 3, 0xe0;
    } else {
      n, mark := 4, 0xf0;
    }
    Utf8Length(cp);
    var c, pos := cp, n - 1;
    while pos > 0
      invariant 0 <= pos < n && c == Shifted(cp, n - 1 - pos)
      invariant output[..at] == old(output[..at])
      invariant forall j :: pos < j < n ==> output[at + j] == Utf8(cp)[j]
    {
      Utf8At(cp, pos);
      output[at + pos] := Tail(c);
      c, pos := c / 0x40, pos - 1;
    }
    Utf8At(cp, 0);
    output[at] := (mark + c) as char;
    end := at + n;
    assert output[at..end] == Utf8(cp);
    assert output[..at] == old(output[..at]);
    SplitAt(output[..end], at);
    assert output[..end][..at] == output[..at] && output[..end][at..] == output[at..end];
  }

  lemma SplitAt(s: string, at: nat)
    requires at <= |s|
    ensures s == s[..at] + s[at..]
  {}

  lemma Utf8Length(cp: nat)
    requires cp < 0x11_0000
    ensures |Utf8(cp)| == if cp < 0x80 then 1 else if cp < 0x800 then 2 else if cp < 0x1_0000 then 3 else 4
  {}

  lemma Slice(s: string, p: nat, end: nat, i: nat, j: nat)
    requires p <= end <= |s| && i <= j <= end - p
    ensures s[p..end][i..j] == s[p + i..p + j]
  {
    var t := s[p..end];
    assert forall k :: i <= k < j ==> t[k] == s[p + k];
  }

  // utf16_literal_to_utf8
  method Utf16ToUtf8(content: string, p: nat, end: nat, output: array<char>, at: nat) returns (length: nat, at': nat)
    requires p <= end <= |content| && at + |Utf16(content[p..end]).out| <= output.Length
    modifies output
    ensures length == Utf16(content[p..end]).length && at <= at' <= output.Length
    ensures length > 0 ==> output[..at'] == old(output[..at]) + Utf16(content[p..end]).out
  {
    hide Hex4, Utf8;
    length, at' := 0, at;
    if end - p < 6 {
      return;
    }
    ghost var b := content[p..end];
    var first := ParseHex4(content[p + 2..p + 6]);
    Slice(content, p, end, 2, 6);
    if 0xdc00 <= first <= 0xdfff {
      return;
    }
    var cp := first;
    length := 6;
    if 0xd800 <= first <= 0xdbff {
      length := 0;
      if end - (p + 6) < 6 || content[p + 6] != '\\' || content[p + 7] != 'u' {
        return;
      }
      var second := ParseHex4(content[p + 8..p + 12]);
      Slice(content, p, end, 8, 12);
      if second < 0xdc00 || second > 0xdfff {
        return;
      }
      length, cp := 12, Pair(first, second);
    }
    assert Utf16(b) == Literal(Utf8(cp), length);
    at' := WriteUtf8(output, at, cp);
  }

  // One character or escape sequence of the second pass.
  method UnescapeNext(content: string, p: nat, end: nat, output: array<char>, at: nat) returns (length: nat, at': nat)
    requires p < end < |content| && content[end] == '\"' && at <= output.Length
    requires Next(content[p..end]).length > 0 ==> at + |Next(content[p..end]).out| <= output.Length
    modifies output
    ensures length == Next(content[p..end]).length && at <= at' <= output.Length
    ensures length > 0 ==> output[..at'] == old(output[..at]) + Next(content[p..end]).out
  {
    hide Utf16;
    ghost var before := output[..at];
    at' := at;
    if content[p] != '\\' {
      output[at] := content[p];
      at', length := at + 1, 1;
    } else if content[p + 1] == 'u' {
      LiteralOut(content[p..end]);
      length, at' := Utf16ToUtf8(content, p, end, output, at);
      return;
    } else if Letter(content[p + 1]).Some? {
      output[at] := Letter(content[p + 1]).value;
      at', length := at + 1, 2;
    } else {
      return 0, at;
    }
    assert output[..at'] == before + [output[at]];
  }

  lemma LiteralOut(b: string)
    ensures Utf16(b).length == 0 ==> Utf16(b).out == ""
  {}

  lemma UnescapeUnfold(b: string)
    requires b != ""
    ensures var l := Next(b);
            Unescape(b) == if l.length == 0 then None
                           else Before(l.out, Unescape(if l.length >= |b| then "" else b[l.length..]))
  {}

  // The part of the body that the second pass has not reached.
  function Left(content: string, p: nat, end: nat): string
    requires end <= |content|
  {
    if p < end then content[p..end] else ""
  }

  lemma LeftFits(content: string, p: nat, end: nat)
    requires end <= |content|
    ensures Skips(Left(content, p, end)) <= if p < end then end - p else 0
  {
    SkipsAtMost(Left(content, p, end));
  }

  // One step of the second pass, from p to p'.
  lemma PassStep(content: string, p: nat, end: nat)
    requires p < end <= |content|
    ensures Left(content, p, end) == content[p..end]
    ensures var l := Next(content[p..end]);
            var left, left' := Left(content, p, end), Left(content, p + l.length, end);
            && Unescape(left) == (if l.length == 0 then None else Before(l.out, Unescape(left')))
            && (l.length > 0 ==> p + l.length <= end + 1 && |l.out| + Skips(left) <= l.length + Skips(left'))
  {
    hide Next, Skips;
    var b := content[p..end];
    var l := Next(b);
    UnescapeUnfold(b);
    if l.length > 0 {
      NextFits(b);
      NothingLeft();
      assert Left(content, p + l.length, end) == if l.length >= |b| then "" else b[l.length..];
    }
  }

  // The second pass. The output has exactly the space that the first pass allows for.
  method UnescapeBody(content: string, start: nat, end: nat, skipped: nat) returns (r: Option<string>)
    requires start <= end < |content| && content[end] == '\"' && skipped == Skips(content[start..end])
    ensures r == Unescape(content[start..end])
  {
    NothingLeft();
    hide Next, Skips, Unescape, Left, Before;
    ghost var goal := Unescape(content[start..end]);
    LeftStart(content, start, end);
    LeftFits(content, start, end);
    var output := new char[end - (start - 1) - skipped + 1];
    var p, at := start, 0;
    BeforeNothing(goal);
    while p < end
      invariant start <= p <= end + 1 && at < output.Length
      invariant at + skipped <= p - start + Skips(Left(content, p, end))
      invariant goal == Before(output[..at], Unescape(Left(content, p, end)))
      decreases end - p
    {
      PassStep(content, p, end);
      ghost var l, before := Next(content[p..end]), output[..at];
      LeftFits(content, p + l.length, end);
      BeforeBoth(before, l.out, Unescape(Left(content, p + l.length, end)));
      BeforeNone(before);
      var length;
      length, at := UnescapeNext(content, p, end, output, at);
      if length == 0 {
        return None;
      }
      p := p + length;
    }
    LeftEnd(content, p, end);
    ghost var text := output[..at];
    output[at] := '\0';
    assert output[..at] == text;
    r := Some(output[..at]);
  }

  lemma LeftStart(content: string, start: nat, end: nat)
    requires start <= end <= |content|
    ensures Left(content, start, end) == content[start..end]
  {}

  lemma LeftEnd(content: string, p: nat, end: nat)
    requires end <= p && end <= |content|
    ensures Unescape(Left(content, p, end)) == Some("")
  {}

  lemma BeforeNone(s: string)
    ensures Before(s, None) == None
  {}

  lemma NothingLeft()
    ensures Unescape("") == Some("") && Skips("") == 0 && forall s: string :: Before(s, Some("")) == Some(s)
  {
    forall s: string ensures Before(s, Some("")) == Some(s) {
      assert s + "" == s;
    }
  }

  // ----- the buffer

  // What is parsed behind values that were parsed before.
  function Behind<T>(values: seq<T>, r: Parsed<seq<T>>): Parsed<seq<T>> {
    if r.Failed? then Failed else Parsed(values + r.value, r.rest)
  }

  lemma BehindNothing<T>(r: Parsed<seq<T>>)
    ensures Behind([], r) == r
  {
    assert r.Parsed? ==> [] + r.value == r.value;
  }

  lemma BehindBehind<T>(a: seq<T>, b: seq<T>, r: Parsed<seq<T>>)
    ensures Behind(a, Behind(b, r)) == Behind(a + b, r)
  {
    assert r.Parsed? ==> a + (b + r.value) == a + b + r.value;
  }

  lemma ItemsUnfold<N>(lib: Libc<N>, s: string, d: nat)
    ensures var r := JsonText.ParseValue(lib, SkipWs(s), d);
            ParseItems(lib, s, d) ==
              if r.Failed? then Failed
              else
                var t := SkipWs(r.rest);
                if t != "" && t[0] == ',' then Behind([r.value], ParseItems(lib, t[1..], d))
                else if t != "" && t[0] == ']' then Parsed([r.value], t[1..])
                else Failed
  {
    hide JsonText.ParseValue;
  }

  lemma MembersUnfold<N>(lib: Libc<N>, s: string, d: nat)
    ensures var r := ParseMember(lib, s, d);
            ParseMembers(lib, s, d) ==
              if r.Failed? then Failed
              else
                var t := SkipWs(r.rest);
                if t != "" && t[0] == ',' then Behind([r.value], ParseMembers(lib, t[1..], d))
                else if t != "" && t[0] == '}' then Parsed([r.value], t[1..])
                else Failed
  {
    hide ParseMember;
  }

  class ParseBuffer {
    const content: string
    var offset: nat
    var depth: nat

    constructor (text: string)
      ensures Valid() && Rest() == text + "\0" && offset == 0 && depth == 0
    {
      content, offset, depth := text + "\0", 0, 0;
    }

    ghost predicate Valid()
      reads this
    {
      offset < |content| && content[|content| - 1] == '\0'
    }

    ghost function Rest(): string
      requires Valid()
      reads this
    {
      content[offset..]
    }

    // A parsing method has returned r where the specification says p.
    ghost predicate Did<T>(r: Option<T>, p: Parsed<T>)
      reads this
    {
      if r.None? then p.Failed? else Valid() && p == Parsed(r.value, Rest())
    }

    predicate At(c: char)
      reads this
    {
      offset < |content| && content[offset] == c
    }

    predicate AtWord(word: string)
      reads this
    {
      offset + |word| <= |content| && content[offset..offset + |word|] == word
    }

    lemma AtWordStarts(word: string)
      requires Valid()
      ensures AtWord(word) <==> StartsWith(Rest(), word)
      ensures AtWord(word) && '\0' !in word ==>
        offset + |word| < |content| && Rest()[|word|..] == content[offset + |word|..]
    {
      if offset + |word| <= |content| {
        assert Rest()[..|word|] == content[offset..offset + |word|];
        if offset + |word| == |content| && word != "" && AtWord(word) {
          assert word[|word| - 1] == '\0';
        }
      }
    }

    lemma AtNulStarts()
      requires Valid()
      ensures At('\0') <==> StartsWith(Rest(), "\0")
    {
      assert Rest()[..1] == [content[offset]];
    }

    // buffer_skip_whitespace
    method SkipWhitespace()
      requires Valid()
      modifies this`offset
      ensures Valid() && Rest() == SkipWs(old(Rest()))
    {
      while offset < |content| && content[offset] <= ' '
        invariant offset <= |content|
        invariant SkipWs(old(Rest())) == SkipWs(content[if offset < |content| then offset else |content| - 1..])
      {
        assert content[offset..][1..] == content[offset + 1..];
        offset := offset + 1;
      }
      if offset == |content| {
        offset := offset - 1;
      }
    }

    // skip_utf8_bom
    method SkipUtf8Bom()
      requires Valid() && offset == 0
      modifies this`offset
      ensures Valid() && Rest() == SkipBom(old(Rest()))
    {
      AtWordStarts(BOM);
      assert content[0..] == content;
      if offset + 4 < |content| && AtWord(BOM) {
        offset := 3;
      }
    }

    // parse_string
    method ParseString() returns (r: Option<string>)
      requires Valid()
      modifies this`offset
      ensures Did(r, JsonString.ParseString(old(Rest())))
    {
      hide Closing, Unescape, CString, Skips;
      if !At('\"') {
        return None;
      }
      ghost var s := Rest();
      assert s[1..] == content[offset + 1..];
      var ok, end, skipped := FindClosing(content, offset + 1);
      if !ok {
        return None;
      }
      ghost var n := Closing(s[1..]).value;
      Slice(content, offset, |content|, 1, 1 + n);
      assert s[1..1 + n] == content[offset + 1..end];
      var t := UnescapeBody(content, offset + 1, end, skipped);
      if t.None? {
        return None;
      }
      assert s[end - offset + 1..] == content[end + 1..];
      offset := end + 1;
      r := Some(CString(t.value));
    }

    // The loop of parse_number that copies characters.
    method CopyNumber() returns (digits: string)
      requires Valid()
      ensures digits == NumberChars(Rest(), 63) && offset + |digits| < |content|
    {
      hide NumberChars;
      digits := "";
      var i := 0;
      while i < 63 && offset + i < |content| && IsNumberChar(content[offset + i])
        invariant 0 <= i <= 63 && offset + i < |content| && digits == content[offset..offset + i]
        invariant forall j :: 0 <= j < i ==> IsNumberChar(digits[j])
      {
        digits := digits + [content[offset + i]];
        i := i + 1;
      }
      assert Rest()[..i] == digits;
      NumberCharsAre(Rest(), i, 63);
    }

    // parse_number
    method ParseNumber<N>(lib: Libc<N>) returns (r: Option<Value<N>>)
      requires Valid()
      modifies this`offset
      ensures Did(r, JsonText.ParseNumber(lib, old(Rest())))
    {
      hide NumberChars;
      var digits := CopyNumber();
      var scan := lib.scan(digits);
      if scan.used == 0 || scan.used > |digits| {
        return None;
      }
      assert Rest()[scan.used..] == content[offset + scan.used..];
      offset := offset + scan.used;
      r := Some(Number(scan.n));
    }

    // Goes to the first item of an array or the first member of an object.
    method Open()
      requires Valid() && offset + 1 < |content|
      modifies this
      ensures Valid() && depth == old(depth) + 1 && Rest() == SkipWs(old(Rest())[1..])
    {
      depth := depth + 1;
      assert Rest()[1..] == content[offset + 1..];
      offset := offset + 1;
      SkipWhitespace();
    }

    // Skips one character, which is not the last.
    method Step()
      requires Valid() && offset + 1 < |content|
      modifies this`offset
      ensures Valid() && Rest() == old(Rest())[1..]
    {
      assert Rest()[1..] == content[offset + 1..];
      offset := offset + 1;
    }

    lemma NotLast(c: char)
      requires Valid() && At(c) && c != '\0'
      ensures offset + 1 < |content| && Rest() != "" && Rest()[0] == c
    {}

    // One round of the loop of parse_array: from the bracket or comma to behind the item. more is
    // where the item ends.
    method ParseItem<N>(lib: Libc<N>) returns (r: Option<Value<N>>, ghost more: string)
      requires Valid() && offset + 1 < |content|
      modifies this
      ensures r.None? ==> JsonText.ParseValue(lib, SkipWs(old(Rest())[1..]), old(depth)).Failed?
      ensures r.Some? ==> JsonText.ParseValue(lib, SkipWs(old(Rest())[1..]), old(depth)) == Parsed(r.value, more)
      ensures r.Some? ==> Valid() && depth == old(depth) && Rest() == SkipWs(more) && offset > old(offset)
      decreases |content| - offset, 0
    {
      hide JsonText.ParseValue, SkipWs;
      more := "";
      Step();
      SkipWhitespace();
      r := ParseValue(lib);
      if r.Some? {
        more := Rest();
        SkipWhitespace();
      }
    }

    // The loop of parse_array, from the bracket on.
    method ParseItems<N>(lib: Libc<N>) returns (r: Option<seq<Value<N>>>)
      requires Valid() && offset + 1 < |content| && depth > 0
      modifies this
      ensures Did(r, JsonText.ParseItems(lib, old(Rest())[1..], old(depth)))
      ensures r.Some? ==> depth == old(depth) - 1
      decreases |content| - offset, 1
    {
      hide JsonText.ParseValue, JsonText.ParseItems, SkipWs;
      ghost var s, d := Rest()[1..], depth;
      var items := [];
      BehindNothing(JsonText.ParseItems(lib, s, d));
      while true
        invariant Valid() && offset + 1 < |content| && depth == d && offset >= old(offset)
        invariant JsonText.ParseItems(lib, s, d) == Behind(items, JsonText.ParseItems(lib, Rest()[1..], d))
        decreases |content| - offset
      {
        ItemsUnfold(lib, Rest()[1..], d);
        var v, more := ParseItem(lib);
        if v.None? {
          return None;
        }
        BehindBehind(items, [v.value], JsonText.ParseItems(lib, SkipWs(more)[1..], d));
        items := items + [v.value];
        if !At(',') {
          break;
        }
        NotLast(',');
      }
      if !At(']') {
        return None;
      }
      NotLast(']');
      Step();
      depth := depth - 1;
      r := Some(items);
    }

    // parse_array
    method ParseArray<N>(lib: Libc<N>) returns (r: Option<seq<Value<N>>>)
      requires Valid() && At('[')
      modifies this
      ensures Did(r, JsonText.ParseArray(lib, old(Rest()), old(depth)))
      ensures r.Some? ==> depth == old(depth)
      decreases |content| - offset, 2
    {
      hide JsonText.ParseItems, SkipWs;
      if depth >= NESTING_LIMIT {
        return None;
      }
      NotLast('[');
      Open();
      if At(']') {
        NotLast(']');
        Step();
        depth := depth - 1;
        return Some([]);
      }
      ghost var s := Rest();
      assert content[offset - 1..][1..] == s;
      offset := offset - 1;
      r := ParseItems(lib);
    }

    // One round of the loop of parse_object: from the brace or comma to behind the member.
    method ParseMember<N>(lib: Libc<N>) returns (r: Option<Member<N>>, ghost more: string)
      requires Valid() && offset + 1 < |content|
      modifies this
      ensures r.None? ==> JsonText.ParseMember(lib, old(Rest())[1..], old(depth)).Failed?
      ensures r.Some? ==> JsonText.ParseMember(lib, old(Rest())[1..], old(depth)) == Parsed(r.value, more)
      ensures r.Some? ==> Valid() && depth == old(depth) && Rest() == SkipWs(more) && offset > old(offset)
      decreases |content| - offset, 0
    {
      hide JsonText.ParseValue, SkipWs, JsonString.ParseString;
      more, r := "", None;
      Step();
      SkipWhitespace();
      var name := ParseString();
      if name.None? {
        return;
      }
      SkipWhitespace();
      if !At(':') {
        return;
      }
      NotLast(':');
      Step();
      SkipWhitespace();
      var v := ParseValue(lib);
      if v.None? {
        return;
      }
      more := Rest();
      SkipWhitespace();
      r := Some(Member(name.value, v.value));
    }

    // The loop of parse_object, from the brace on.
    method ParseMembers<N>(lib: Libc<N>) returns (r: Option<seq<Member<N>>>)
      requires Valid() && offset + 1 < |content| && depth > 0
      modifies this
      ensures Did(r, JsonText.ParseMembers(lib, old(Rest())[1..], old(depth)))
      ensures r.Some? ==> depth == old(depth) - 1
      decreases |content| - offset, 1
    {
      hide JsonText.ParseMember, JsonText.ParseMembers, SkipWs;
      ghost var s, d := Rest()[1..], depth;
      var members := [];
      BehindNothing(JsonText.ParseMembers(lib, s, d));
      while true
        invariant Valid() && offset + 1 < |content| && depth == d && offset >= old(offset)
        invariant JsonText.ParseMembers(lib, s, d) == Behind(members, JsonText.ParseMembers(lib, Rest()[1..], d))
        decreases |content| - offset
      {
        MembersUnfold(lib, Rest()[1..], d);
        var m, more := ParseMember(lib);
        if m.None? {
          return None;
        }
        BehindBehind(members, [m.value], JsonText.ParseMembers(lib, SkipWs(more)[1..], d));
        members := members + [m.value];
        if !At(',') {
          break;
        }
        NotLast(',');
      }
      if !At('}') {
        return None;
      }
      NotLast('}');
      Step();
      depth := depth - 1;
      r := Some(members);
    }

    // parse_object
    method ParseObject<N>(lib: Libc<N>) returns (r: Option<seq<Member<N>>>)
      requires Valid() && At('{')
      modifies this
      ensures Did(r, JsonText.ParseObject(lib, old(Rest()), old(depth)))
      ensures r.Some? ==> depth == old(depth)
      decreases |content| - offset, 2
    {
      hide JsonText.ParseMembers, SkipWs;
      if depth >= NESTING_LIMIT {
        return None;
      }
      NotLast('{');
      Open();
      if At('}') {
        NotLast('}');
        Step();
        depth := depth - 1;
        return Some([]);
      }
      ghost var s := Rest();
      assert content[offset - 1..][1..] == s;
      offset := offset - 1;
      r := ParseMembers(lib);
    }

    // Skips a word of letters.
    method Skip(word: string)
      requires Valid() && AtWord(word) && '\0' !in word
      modifies this`offset
      ensures Valid() && Rest() == old(Rest())[|word|..]
    {
      AtWordStarts(word);
      offset := offset + |word|;
    }

    // parse_value
    method ParseValue<N>(lib: Libc<N>) returns (r: Option<Value<N>>)
      requires Valid()
      modifies this
      ensures Did(r, JsonText.ParseValue(lib, old(Rest()), old(depth)))
      ensures r.Some? ==> depth == old(depth)
      decreases |content| - offset, 3
    {
      hide JsonText.ParseArray, JsonText.ParseObject, JsonText.ParseNumber, JsonString.ParseString, StartsWith, AtWord;
      AtWordStarts("null");
      AtWordStarts("false");
      AtWordStarts("true");
      if AtWord("null") {
        Skip("null");
        return Some(Null);
      }
      if AtWord("false") {
        Skip("false");
        return Some(Bool(false));
      }
      if AtWord("true") {
        Skip("true");
        return Some(Bool(true));
      }
      if At('\"') {
        var t := ParseString();
        return if t.None? then None else Some(String(t.value));
      }
      if At('-') || '0' <= content[offset] <= '9' {
        r := ParseNumber(lib);
        return;
      }
      if At('[') {
        var items := ParseArray(lib);
        return if items.None? then None else Some(Array(items.value));
      }
      if At('{') {
        var members := ParseObject(lib);
        return if members.None? then None else Some(Object(members.value));
      }
      r := None;
    }
  }

  // cJSON_ParseWithOpts
  method ParseWithOpts<N>(lib: Libc<N>, text: string, requireEnd: bool) returns (r: Option<Value<N>>)
    ensures r == Parse(lib, text, requireEnd)
  {
    hide JsonText.ParseValue, SkipWs, SkipBom, StartsWith, ParseBuffer.Rest, ParseBuffer.Valid;
    var buffer := new ParseBuffer(text);
    buffer.SkipUtf8Bom();
    buffer.SkipWhitespace();
    r := buffer.ParseValue(lib);
    if r.Some? && requireEnd {
      var ended := ReachesEnd(buffer);
      if !ended {
        r := None;
      }
    }
  }

  // The check for require_null_terminated.
  method ReachesEnd(buffer: ParseBuffer) returns (ended: bool)
    requires buffer.Valid()
    modifies buffer`offset
    ensures ended <==> StartsWith(SkipWs(old(buffer.Rest())), "\0")
  {
    hide SkipWs, StartsWith;
    buffer.SkipWhitespace();
    buffer.AtNulStarts();
    ended := buffer.At('\0');
  }
}
