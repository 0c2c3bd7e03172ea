// Quoting the paths of a patch, and unquoting in place: buffer.c.

module Quoting {
  import opened Bytes
  import opened GitBuffer
  import opened Options

  const QUOTE: byte := '"' as int
  const BACKSLASH: byte := '\\' as int

  // ----- quoting

  // The letters of the characters from \a to \r, in their order.
  const WHITESPACE := "abtnvfr"

  predicate NeedsEscape(c: byte) {
    c == QUOTE || c == BACKSLASH || c < ' ' as int || c > '~' as int
  }

  // Three octal digits.
  function Octal(c: byte): bytes {
    ['0' as int + c / 64, '0' as int + c / 8 % 8, '0' as int + c % 8]
  }

  function QuoteByte(c: byte): bytes {
    if 7 <= c <= 13 then [BACKSLASH, WHITESPACE[c - 7] as int]
    else if c == QUOTE || c == BACKSLASH then [BACKSLASH, c]
    else if NeedsEscape(c) then [BACKSLASH] + Octal(c)
    else [c]
  }

  function QuoteBody(s: bytes): bytes {
    if s == [] then [] else QuoteByte(s[0]) + QuoteBody(s[1..])
  }

  // A byte above 127 is negative as a char, and so is below the space.
  predicate NeedsQuotes(s: bytes) {
    s != [] && (s[0] == '!' as int || exists i :: 0 <= i < |s| && NeedsEscape(s[i]))
  }

  function Quote(s: bytes): bytes {
    if NeedsQuotes(s) then [QUOTE] + QuoteBody(s) + [QUOTE] else s
  }

  // ----- unquoting

  function Letter(c: byte): Option<byte> {
    if c == QUOTE || c == BACKSLASH then Some(c)
    else if c == 'a' as int then Some(7)
    else if c == 'b' as int then Some(8)
    else if c == 't' as int then Some(9)
    else if c == 'n' as int then Some(10)
    else if c == 'v' as int then Some(11)
    else if c == 'f' as int then Some(12)
    else if c == 'r' as int then Some(13)
    else None
  }

  predicate IsOctal(c: byte) {
    '0' as int <= c <= '7' as int
  }

  function OctalValue(a: byte, b: byte, c: byte): byte
    requires '0' as int <= a <= '3' as int && IsOctal(b) && IsOctal(c)
  {
    (a - '0' as int) * 64 + (b - '0' as int) * 8 + (c - '0' as int)
  }

  function Cons(c: byte, r: Option<bytes>): Option<bytes> {
    if r.Some? then Some([c] + r.value) else None
  }

  // What is between the quotes. A quote in it needs no backslash.
  function UnquoteBody(s: bytes): Option<bytes> {
    if s == [] then Some([])
    else if s[0] != BACKSLASH then Cons(s[0], UnquoteBody(s[1..]))
    else if |s| == 1 then None
    else if Letter(s[1]).Some? then Cons(Letter(s[1]).value, UnquoteBody(s[2..]))
    else if '0' as int <= s[1] <= '3' as int && |s| >= 4 && IsOctal(s[2]) && IsOctal(s[3]) then
      Cons(OctalValue(s[1], s[2], s[3]), UnquoteBody(s[4..]))
    else None
  }

  // git__isspace
  predicate IsSpace(c: byte) {
    c == ' ' as int || 9 <= c <= 13
  }

  function RTrim(s: bytes): (t: bytes)
    ensures |t| <= |s| && t == s[..|t|]
  {
    if s != [] && IsSpace(s[|s| - 1]) then RTrim(s[..|s| - 1]) else s
  }

  predicate IsQuoted(s: bytes) {
    |s| >= 2 && s[0] == QUOTE && s[|s| - 1] == QUOTE
  }

  function Unquote(s: bytes): Option<bytes> {
    var t := RTrim(s);
    if IsQuoted(t) then UnquoteBody(t[1..|t| - 1]) else None
  }

  // ----- the round trip

  lemma ByteRoundTrip(c: byte, more: bytes)
    ensures UnquoteBody(QuoteByte(c) + more) == Cons(c, UnquoteBody(more))
  {
    hide IsSpace;
    var s := QuoteByte(c) + more;
    if 7 <= c <= 13 || c == QUOTE || c == BACKSLASH {
      assert s[2..] == more;
      assert Letter(s[1]) == Some(c);
    } else if NeedsEscape(c) {
      assert s[4..] == more;
      OctalRoundTrip(c);
    } else {
      assert s[1..] == more;
    }
  }

  lemma OctalRoundTrip(c: byte)
    ensures var o := Octal(c);
            && '0' as int <= o[0] <= '3' as int && IsOctal(o[1]) && IsOctal(o[2])
            && OctalValue(o[0], o[1], o[2]) == c && Letter(o[0]).None?
  {
    var x: int := c;
    assert x / 8 == x / 64 * 8 + x / 8 % 8;
  }

  lemma {:induction false} BodyRoundTrip(s: bytes)
    ensures UnquoteBody(QuoteBody(s)) == Some(s)
  {
    hide UnquoteBody, QuoteByte;
    if s == [] {
      NothingUnquoted();
    } else {
      BodyRoundTrip(s[1..]);
      ByteRoundTrip(s[0], QuoteBody(s[1..]));
      assert [s[0]] + s[1..] == s;
    }
  }

  lemma NothingUnquoted()
    ensures UnquoteBody([]) == Some([])
  {}

  // What is quoted comes back, and only a quoted text starts with a quote.
  lemma QuoteRoundTrip(s: bytes)
    ensures NeedsQuotes(s) ==> Unquote(Quote(s)) == Some(s)
    ensures Quote(s) != [] && Quote(s)[0] == QUOTE <==> NeedsQuotes(s)
  {
    hide QuoteBody, UnquoteBody;
    var q := [QUOTE] + QuoteBody(s) + [QUOTE];
    BodyRoundTrip(s);
    assert q[1..|q| - 1] == QuoteBody(s);
    if !NeedsQuotes(s) && s != [] {
      assert !NeedsEscape(s[0]);
    }
  }

  // The way a path of a patch is read: unquoted when it starts with a quote.
  function ReadPath(s: bytes): Option<bytes> {
    var t := RTrim(s);
    if t != [] && t[0] == QUOTE then Unquote(t) else Some(t)
  }

  // A path comes back in just this case: it is quoted, or does not end in a space.
  lemma PathComesBack(s: bytes)
    ensures ReadPath(Quote(s)) == Some(s) <==> NeedsQuotes(s) || s == [] || !IsSpace(s[|s| - 1])
  {
    hide QuoteBody, Unquote, RTrim;
    QuoteRoundTrip(s);
    if NeedsQuotes(s) {
      TrimStep(Quote(s));
    } else {
      TrimStep(s);
      if s != [] && IsSpace(s[|s| - 1]) {
        TrimStarts(s);
      }
    }
  }

  // A path that is lost: the space at its end is trimmed.
  lemma SpaceIsLost()
    ensures var path := ['a' as int, ' ' as int]; Quote(path) == path && ReadPath(path) == Some(['a' as int])
  {
    var path: bytes := ['a' as int, ' ' as int];
    assert !NeedsQuotes(path);
    assert path[..1] == ['a' as int];
    assert RTrim(path) == RTrim(path[..1]) == path[..1];
  }

  lemma TrimStep(s: bytes)
    ensures s == [] || !IsSpace(s[|s| - 1]) ==> RTrim(s) == s
    ensures s != [] && IsSpace(s[|s| - 1]) ==> |RTrim(s)| < |s|
  {}

  lemma TrimStarts(s: bytes)
    ensures var t := RTrim(s); t != [] ==> t[0] == s[0]
  {}

  // No two texts are quoted alike.
  lemma QuoteIsInjective(a: bytes, b: bytes)
    requires Quote(a) == Quote(b)
    ensures a == b
  {
    hide NeedsQuotes, Unquote;
    QuoteRoundTrip(a);
    QuoteRoundTrip(b);
  }

  // A quoted text is printable, on one line.
  lemma {:induction false} QuotedIsPrintable(s: bytes)
    ensures forall c :: c in QuoteBody(s) ==> ' ' as int <= c <= '~' as int
  {
    if s != [] {
      QuotedIsPrintable(s[1..]);
      var c := s[0];
      assert forall x :: x in QuoteByte(c) ==> ' ' as int <= x <= '~' as int;
    }
  }

  // ----- the loops

  lemma {:induction false} PlainBody(s: bytes, n: nat)
    requires n <= |s| && forall k :: 0 <= k < n ==> !NeedsEscape(s[k])
    ensures QuoteBody(s) == s[..n] + QuoteBody(s[n..])
  {
    hide NeedsEscape, QuoteByte;
    if n == 0 {
      assert s[0..] == s;
    } else {
      PlainByte(s[0]);
      PlainBody(s[1..], n - 1);
      assert s[..n] == [s[0]] + s[1..][..n - 1] && s[1..][n - 1..] == s[n..];
    }
  }

  lemma PlainByte(c: byte)
    requires !NeedsEscape(c)
    ensures QuoteByte(c) == [c]
  {}

  lemma BodyStep(before: bytes, s: bytes)
    requires s != []
    ensures before + QuoteBody(s) == before + QuoteByte(s[0]) + QuoteBody(s[1..])
  {
    hide QuoteByte;
  }

  lemma BodyEnd(before: bytes)
    ensures before + QuoteBody([]) == before
  {}

  // git_buf_quote
  method QuoteBuffer(buf: Buffer)
    requires buf.Valid()
    modifies buf
    ensures buf.Valid() && (buf.ptr == old(buf.ptr) || fresh(buf.ptr))
    ensures buf.Contents() == Quote(old(buf.Contents()))
  {
    hide QuoteBody, QuoteByte, NeedsEscape, NeedsQuotes;
    ghost var s := buf.Contents();
    var quote, i := FindSpecial(buf);
    if !quote {
      return;
    }
    var quoted := new Buffer();
    quoted.Putc(QUOTE);
    quoted.Put(buf.ptr[..i]);
    PlainBody(s, i);
    assert quoted.Contents() == [QUOTE] + s[..i];
    Regroup([QUOTE], s[..i], QuoteBody(s[i..]));
    PutRest(quoted, buf, i);
    quoted.Putc(QUOTE);
    buf.ptr, buf.asize, buf.size := quoted.ptr, quoted.asize, quoted.size;
  }

  method PutRest(quoted: Buffer, buf: Buffer, start: nat)
    requires buf.Valid() && quoted.Valid() && quoted != buf && quoted.ptr != buf.ptr && start <= buf.size
    modifies quoted, quoted.ptr
    ensures quoted.Valid() && (quoted.ptr == old(quoted.ptr) || fresh(quoted.ptr))
    ensures quoted.Contents() == old(quoted.Contents()) + QuoteBody(buf.Contents()[start..])
  {
    hide QuoteBody, QuoteByte;
    ghost var s, before := buf.Contents(), quoted.Contents();
    var i := start;
    while i < buf.size
      invariant start <= i <= buf.size && buf.Contents() == s
      invariant quoted.Valid() && (quoted.ptr == old(quoted.ptr) || fresh(quoted.ptr))
      invariant before + QuoteBody(s[start..]) == quoted.Contents() + QuoteBody(s[i..])
    {
      BodyStep(quoted.Contents(), s[i..]);
      assert s[i..][1..] == s[i + 1..];
      PutQuoted(quoted, buf.ptr[i]);
      i := i + 1;
    }
    BodyEnd(quoted.Contents());
    assert s[i..] == [];
  }

  // Where the first character is that needs quoting; at the start for an exclamation mark there.
  method FindSpecial(buf: Buffer) returns (quote: bool, i: nat)
    requires buf.Valid()
    ensures quote <==> NeedsQuotes(buf.Contents())
    ensures i <= buf.size && forall k :: 0 <= k < i ==> !NeedsEscape(buf.Contents()[k])
  {
    hide NeedsEscape;
    quote := buf.size > 0 && buf.ptr[0] == '!' as int;
    i := 0;
    while !quote && i < buf.size
      invariant 0 <= i <= buf.size
      invariant forall k :: 0 <= k < i ==> !NeedsEscape(buf.ptr[k])
      invariant quote <==> buf.size > 0 && buf.ptr[0] == '!' as int
    {
      if NeedsEscape(buf.ptr[i]) {
        quote := true;
        assert buf.Contents()[i] == buf.ptr[i];
        break;
      }
      i := i + 1;
    }
  }

  method PutQuoted(quoted: Buffer, c: byte)
    requires quoted.Valid()
    modifies quoted, quoted.ptr
    ensures quoted.Valid() && (quoted.ptr == old(quoted.ptr) || fresh(quoted.ptr))
    ensures quoted.Contents() == old(quoted.Contents()) + QuoteByte(c)
  {
    ghost var before := quoted.Contents();
    if 7 <= c <= 13 {
      quoted.Putc(BACKSLASH);
      quoted.Putc(WHITESPACE[c - 7] as int);
      Regroup(before, [BACKSLASH], [WHITESPACE[c - 7] as int]);
    } else if c == QUOTE || c == BACKSLASH {
      quoted.Putc(BACKSLASH);
      quoted.Putc(c);
      Regroup(before, [BACKSLASH], [c]);
    } else if c != ' ' as int && (c < '!' as int || c > '~' as int) {
      quoted.Put([BACKSLASH] + Octal(c));
    } else {
      quoted.Putc(c);
    }
  }

  // git_buf_rtrim
  method RTrimBuffer(buf: Buffer)
    requires buf.Valid()
    modifies buf`size, buf.ptr
    ensures buf.Valid() && buf.Contents() == RTrim(old(buf.Contents()))
  {
    ghost var s := buf.Contents();
    while buf.size > 0
      invariant buf.size <= |s| && buf.ptr[..buf.size] == s[..buf.size] && RTrim(s) == RTrim(s[..buf.size])
      invariant buf.asize == 0 ==> buf.size == 0 && buf.ptr[0] == 0
    {
      ghost var t := s[..buf.size];
      if !IsSpace(buf.ptr[buf.size - 1]) {
        break;
      }
      assert t[..buf.size - 1] == s[..buf.size - 1];
      buf.size := buf.size - 1;
    }
    assert s[..buf.size] == buf.ptr[..buf.size];
    if buf.asize > buf.size {
      buf.Terminate();
    }
  }

  // What the next characters of the body stand for.
  datatype Step = Step(c: byte, length: nat) | Wrong

  function NextStep(s: bytes): (r: Step)
    requires s != []
    ensures r.Step? ==> 0 < r.length <= |s|
  {
    if s[0] != BACKSLASH then Step(s[0], 1)
    else if |s| == 1 then Wrong
    else if Letter(s[1]).Some? then Step(Letter(s[1]).value, 2)
    else if '0' as int <= s[1] <= '3' as int && |s| >= 4 && IsOctal(s[2]) && IsOctal(s[3]) then
      Step(OctalValue(s[1], s[2], s[3]), 4)
    else Wrong
  }

  lemma UnquoteStep(done: bytes, s: bytes)
    requires s != []
    ensures var r := NextStep(s);
            Prefixed(done, UnquoteBody(s)) ==
            if r.Wrong? then None else Prefixed(done + [r.c], UnquoteBody(s[r.length..]))
  {
    var r := NextStep(s);
    if r.Step? {
      assert UnquoteBody(s) == Cons(r.c, UnquoteBody(s[r.length..]));
      var more := UnquoteBody(s[r.length..]);
      if more.Some? {
        Regroup(done, [r.c], more.value);
      }
    }
  }

  // One character of the quoted text, of which the last quote is at end.
  method ReadStep(ptr: array<byte>, at: nat, end: nat) returns (ok: bool, ch: byte, next: nat)
    requires 0 < at < end && end + 1 < ptr.Length && ptr[end] == QUOTE
    ensures var r := NextStep(ptr[at..end]);
            (ok <==> r.Step?) && (ok ==> ch == r.c && next == at + r.length)
  {
    ghost var s := ptr[at..end];
    var size := end + 1;
    var j := at;
    ok := false;
    next := at;
    ch := ptr[j];
    if ch == BACKSLASH {
      if j == size - 2 {
        return;
      }
      j := j + 1;
      ch := ptr[j];
      if ch == QUOTE || ch == BACKSLASH {
      } else if Letter(ch).Some? {
        ch := Letter(ch).value;
      } else if '0' as int <= ch <= '3' as int {
        if j == size - 3 {
          return;
        }
        if !IsOctal(ptr[j + 1]) || !IsOctal(ptr[j + 2]) {
          return;
        }
        ch := OctalValue(ptr[j], ptr[j + 1], ptr[j + 2]);
        j := j + 2;
      } else {
        return;
      }
    }
    ok := true;
    next := j + 1;
  }

  lemma LastOff(unread: bytes, t: bytes, j: nat)
    requires j < |t| && unread == t[j..]
    ensures unread[..|t| - 1 - j] == t[j..|t| - 1] && unread[|t| - 1 - j] == t[|t| - 1]
  {}

  // One round of the loop of git_buf_unquote.
  method UnquoteNext(buf: Buffer, i: nat, j: nat, ghost t: bytes, ghost body: bytes) returns (good: bool, next: nat)
    requires buf.Valid() && i < j < buf.size - 1 && buf.size == |t| && t[|t| - 1] == QUOTE
    requires buf.ptr[j..buf.size] == t[j..]
    requires UnquoteBody(body) == Prefixed(buf.ptr[..i], UnquoteBody(t[j..|t| - 1]))
    modifies buf.ptr
    ensures buf.Valid()
    ensures !good ==> UnquoteBody(body) == None
    ensures good ==>
      && j < next <= buf.size - 1 && buf.ptr[next..buf.size] == t[next..]
      && UnquoteBody(body) == Prefixed(buf.ptr[..i + 1], UnquoteBody(t[next..|t| - 1]))
  {
    hide UnquoteBody, NextStep, Prefixed;
    var size := buf.size;
    ghost var rest, done := t[j..size - 1], buf.ptr[..i];
    UnquoteStep(done, rest);
    assert buf.ptr[j..size][..size - 1 - j] == buf.ptr[j..size - 1];
    LastOff(buf.ptr[j..size], t, j);
    var ch;
    good, ch, next := ReadStep(buf.ptr, j, size - 1);
    if !good {
      return;
    }
    assert rest[next - j..] == t[next..size - 1];
    assert buf.ptr[j..size][next - j..] == buf.ptr[next..size];
    buf.ptr[i] := ch;
    assert buf.ptr[..i + 1] == done + [ch];
  }

  // git_buf_unquote. The write index stays behind the read index.
  method UnquoteBuffer(buf: Buffer) returns (ok: bool)
    requires buf.Valid()
    modifies buf`size, buf.ptr
    ensures buf.Valid()
    ensures ok <==> Unquote(old(buf.Contents())).Some?
    ensures ok ==> Unquote(old(buf.Contents())) == Some(buf.Contents())
  {
    hide RTrim, UnquoteBody, NextStep, Prefixed;
    RTrimBuffer(buf);
    ghost var t := buf.Contents();
    var size := buf.size;
    ok := false;
    if size < 2 || buf.ptr[0] != QUOTE || buf.ptr[size - 1] != QUOTE {
      return;
    }
    ghost var body := t[1..size - 1];
    var i, j := 0, 1;
    assert t[j..size - 1] == body;
    PrefixedByNothing(UnquoteBody(body));
    assert buf.ptr[..0] == [];
    while j < size - 1
      invariant 0 <= i < j <= size - 1 && buf.size == size && buf.Valid()
      invariant buf.ptr[j..size] == t[j..]
      invariant UnquoteBody(body) == Prefixed(buf.ptr[..i], UnquoteBody(t[j..size - 1]))
    {
      var good, next := UnquoteNext(buf, i, j, t, body);
      if !good {
        return;
      }
      i, j := i + 1, next;
    }
    NothingUnquoted();
    assert t[j..size - 1] == [];
    PrefixedNone(buf.ptr[..i], UnquoteBody([]));
    assert buf.ptr[..i] + [] == buf.ptr[..i];
    buf.size := i;
    buf.Terminate();
    ok := true;
  }

  // Quoting in place, and unquoting what was quoted.
  method QuoteAndUnquote(buf: Buffer) returns (ok: bool)
    requires buf.Valid() && NeedsQuotes(buf.Contents())
    modifies buf, buf.ptr
    ensures ok && buf.Valid() && buf.Contents() == old(buf.Contents())
  {
    hide NeedsQuotes, Quote, Unquote;
    QuoteRoundTrip(buf.Contents());
    QuoteBuffer(buf);
    ok := UnquoteBuffer(buf);
  }
}
