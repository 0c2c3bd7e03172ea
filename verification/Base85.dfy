// The base 85 text of binary patches: buffer.c.

module Base85 {
  import opened Bytes
  import opened GitBuffer
  import opened Options

  // ----- digits and characters

  const SYMBOLS := "!#$%&()*+-;<=>?@^_`{|}~"

  // base85_encode
  function EncodeDigit(d: nat): (c: byte)
    requires d < 85
    ensures c < 128 && DecodeDigit(c) == Some(d)
  {
    if d < 10 then '0' as int + d
    else if d < 36 then 'A' as int + (d - 10)
    else if d < 62 then 'a' as int + (d - 36)
    else SYMBOLS[d - 62] as int
  }

  // base85_decode
  function DecodeDigit(c: byte): (d: Option<nat>)
    ensures d.Some? ==> d.value < 85
  {
    if '0' as int <= c <= '9' as int then Some(c - '0' as int)
    else if 'A' as int <= c <= 'Z' as int then Some(c - 'A' as int + 10)
    else if 'a' as int <= c <= 'z' as int then Some(c - 'a' as int + 36)
    else if c == 33 then Some(62)
    else if 35 <= c <= 38 then Some(c - 35 + 63)
    else if 40 <= c <= 43 then Some(c - 40 + 67)
    else if c == 45 then Some(71)
    else if 59 <= c <= 64 then Some(c - 59 + 72)
    else if 94 <= c <= 96 then Some(c - 94 + 78)
    else if 123 <= c <= 126 then Some(c - 123 + 81)
    else None
  }

  lemma DecodedDigitIsEncoded(c: byte)
    ensures DecodeDigit(c).Some? ==> EncodeDigit(DecodeDigit(c).value) == c
  {}

  // ----- blocks: four bytes and five digits

  // Byte k of a block, zero behind its end.
  function At(b: bytes, k: nat): byte {
    if k < |b| then b[k] else 0
  }

  function WordOf(b: bytes): nat {
    At(b, 0) * 0x1000000 + At(b, 1) * 0x10000 + At(b, 2) * 0x100 + At(b, 3)
  }

  function BytesOf(v: nat): (b: bytes)
    requires v < 0x1_0000_0000
    ensures |b| == 4 && WordOf(b) == v
  {
    var high, low := v / 0x10000, v % 0x10000;
    [high / 0x100, high % 0x100, low / 0x100, low % 0x100]
  }

  lemma WordOfIsSmall(b: bytes)
    ensures WordOf(b) < 0x1_0000_0000
  {}

  lemma BytesComeBack(a: byte, b: byte, c: byte, d: byte)
    ensures var v := a * 0x1000000 + b * 0x10000 + c * 0x100 + d;
            v < 0x1_0000_0000 && BytesOf(v) == [a, b, c, d]
  {
    var high: int, low: int := a as int * 0x100 + b, c as int * 0x100 + d;
    var v: int := high * 0x10000 + low;
    assert v / 0x10000 == high && v % 0x10000 == low;
  }

  // The digits of v, the most significant first.
  function Digits(v: nat, n: nat): (t: bytes)
    ensures |t| == n
  {
    if n == 0 then [] else Digits(v / 85, n - 1) + [EncodeDigit(v % 85)]
  }

  // What the characters stand for, when all of them are digits.
  function ValueOf(t: bytes): Option<nat> {
    if t == [] then Some(0)
    else
      var v, d := ValueOf(t[..|t| - 1]), DecodeDigit(t[|t| - 1]);
      if v.None? || d.None? then None else Some(v.value * 85 + d.value)
  }

  function Pow85(n: nat): nat {
    if n == 0 then 1 else 85 * Pow85(n - 1)
  }

  lemma {:induction false} DigitsHaveValue(v: nat, n: nat)
    requires v < Pow85(n)
    ensures ValueOf(Digits(v, n)) == Some(v)
  {
    if n > 0 {
      DigitsHaveValue(v / 85, n - 1);
      var t := Digits(v, n);
      assert t[..n - 1] == Digits(v / 85, n - 1);
    }
  }

  lemma {:induction false} ValueHasDigits(t: bytes)
    requires ValueOf(t).Some?
    ensures ValueOf(t).value < Pow85(|t|) && Digits(ValueOf(t).value, |t|) == t
  {
    if t != [] {
      var front := t[..|t| - 1];
      ValueHasDigits(front);
      DecodedDigitIsEncoded(t[|t| - 1]);
      var v, d := ValueOf(front).value, DecodeDigit(t[|t| - 1]).value;
      assert (v * 85 + d) / 85 == v && (v * 85 + d) % 85 == d;
    }
  }

  // ----- the whole text

  function Encode(data: bytes): bytes {
    if |data| <= 4 then (if data == [] then [] else Digits(WordOf(data), 5))
    else Digits(WordOf(data[..4]), 5) + Encode(data[4..])
  }

  // The value of a block that the decoder takes.
  function BlockValue(t: bytes): (r: Option<nat>)
    ensures r.Some? ==> r.value < 0x1_0000_0000
  {
    var v := ValueOf(t);
    if v.Some? && v.value < 0x1_0000_0000 then v else None
  }

  // The first n bytes that text stands for.
  function DecodeBlocks(text: bytes, n: nat): Option<bytes>
    decreases n
  {
    if n == 0 then Some([])
    else if |text| < 5 then None
    else
      var v := BlockValue(text[..5]);
      if v.None? then None
      else if n <= 4 then Some(BytesOf(v.value)[..n])
      else
        var more := DecodeBlocks(text[5..], n - 4);
        if more.None? then None else Some(BytesOf(v.value) + more.value)
  }

  function Decode(text: bytes, n: nat): Option<bytes> {
    if |text| % 5 != 0 || n > |text| * 4 / 5 then None else DecodeBlocks(text, n)
  }

  // The blocks that hold n bytes.
  function Blocks(n: nat): nat {
    n / 4 + (if n % 4 == 0 then 0 else 1)
  }

  lemma NothingIsBlocks()
    ensures Blocks(0) == 0
  {}

  lemma BlocksStep(n: nat)
    requires n > 0
    ensures Blocks(n) == 1 + Blocks(if n < 4 then 0 else n - 4)
  {}

  lemma {:induction false} EncodedLength(data: bytes)
    ensures |Encode(data)| == Blocks(|data|) * 5
  {
    hide Blocks, WordOf, Digits;
    if data != [] {
      BlocksStep(|data|);
    }
    NothingIsBlocks();
    if |data| > 4 {
      EncodedLength(data[4..]);
    }
  }

  lemma BlockRoundTrip(b: bytes)
    requires 0 < |b| <= 4
    ensures BlockValue(Digits(WordOf(b), 5)) == Some(WordOf(b))
    ensures WordOf(b) < 0x1_0000_0000 && BytesOf(WordOf(b))[..|b|] == b
  {
    hide Digits, ValueOf;
    assert Pow85(5) == 85 * (85 * (85 * (85 * (85 * Pow85(0)))));
    DigitsHaveValue(WordOf(b), 5);
    BytesComeBack(At(b, 0), At(b, 1), At(b, 2), At(b, 3));
  }

  lemma {:induction false} DecodeUndoesEncode(data: bytes)
    ensures Decode(Encode(data), |data|) == Some(data)
  {
    hide Digits, BlockValue, WordOf, BytesOf, Encode;
    EncodedLength(data);
    BlocksRoundTrip(data);
  }

  lemma {:induction false} BlocksRoundTrip(data: bytes)
    ensures DecodeBlocks(Encode(data), |data|) == Some(data)
  {
    hide Digits, BlockValue, WordOf, BytesOf;
    if data == [] {
    } else if |data| <= 4 {
      BlockRoundTrip(data);
      assert Encode(data)[..5] == Encode(data);
    } else {
      BlockRoundTrip(data[..4]);
      BlocksRoundTrip(data[4..]);
      var first := Digits(WordOf(data[..4]), 5);
      assert BytesOf(WordOf(data[..4]))[..4] == BytesOf(WordOf(data[..4]));
      assert Encode(data)[..5] == first && Encode(data)[5..] == Encode(data[4..]);
      assert data[..4] + data[4..] == data;
    }
  }

  predicate BlockIsLegal(text: bytes, k: nat)
    requires k * 5 + 5 <= |text|
  {
    var v := ValueOf(text[k * 5..k * 5 + 5]);
    v.Some? && v.value < 0x1_0000_0000
  }

  predicate BlocksAreLegal(text: bytes, blocks: nat)
    requires blocks * 5 <= |text|
  {
    forall k :: 0 <= k < blocks ==> BlockIsLegal(text, k)
  }

  lemma FirstBlockIsLegal(text: bytes, blocks: nat)
    requires 0 < blocks && blocks * 5 <= |text|
    ensures BlocksAreLegal(text, blocks)
            <==> BlockValue(text[..5]).Some? && BlocksAreLegal(text[5..], blocks - 1)
  {
    hide ValueOf;
    var rest := text[5..];
    assert text[0 * 5..0 * 5 + 5] == text[..5];
    assert BlockIsLegal(text, 0) <==> BlockValue(text[..5]).Some?;
    forall k | 0 <= k < blocks - 1 ensures BlockIsLegal(rest, k) <==> BlockIsLegal(text, k + 1) {
      assert rest[k * 5..k * 5 + 5] == text[(k + 1) * 5..(k + 1) * 5 + 5];
    }
    if BlocksAreLegal(rest, blocks - 1) && BlockIsLegal(text, 0) {
      forall k | 0 <= k < blocks ensures BlockIsLegal(text, k) {
        if k > 0 {
          assert BlockIsLegal(rest, k - 1);
        }
      }
    }
  }

  lemma {:induction false} AcceptedBlocks(text: bytes, n: nat)
    requires n * 5 <= |text| * 4 && |text| % 5 == 0
    ensures Blocks(n) * 5 <= |text|
    ensures DecodeBlocks(text, n).Some? <==> BlocksAreLegal(text, Blocks(n))
    ensures DecodeBlocks(text, n).Some? ==> |DecodeBlocks(text, n).value| == n
    decreases n
  {
    hide BlockValue, BlocksAreLegal, DecodeBlocks;
    DecodeFirst(text, n);
    if n == 0 {
      NoBlocks(text);
    } else {
      FirstBlockIsLegal(text, Blocks(n));
      if n <= 4 {
        DecodeFirst(text[5..], 0);
        NoBlocks(text[5..]);
      } else {
        AcceptedBlocks(text[5..], n - 4);
      }
    }
  }

  lemma DecodeFirst(text: bytes, n: nat)
    ensures n == 0 ==> DecodeBlocks(text, n) == Some([])
    ensures n > 0 && |text| >= 5 ==>
      var r, v := DecodeBlocks(text, n), BlockValue(text[..5]);
      var more := DecodeBlocks(text[5..], if n <= 4 then 0 else n - 4);
      && (r.Some? <==> v.Some? && more.Some?)
      && (r.Some? ==> |r.value| == (if n <= 4 then n else 4 + |more.value|))
  {
    hide BlockValue, BytesOf;
  }

  lemma NoBlocks(text: bytes)
    ensures BlocksAreLegal(text, 0)
  {}

  // The decoder takes a text in just this case: the length fits, and each block that holds some of
  // the bytes has five digits and a value of 32 bits. What comes behind these blocks is not looked at.
  lemma AcceptedTexts(text: bytes, n: nat)
    ensures Decode(text, n).Some? <==>
            |text| % 5 == 0 && n * 5 <= |text| * 4 && Blocks(n) * 5 <= |text| && BlocksAreLegal(text, Blocks(n))
    ensures Decode(text, n).Some? ==> |Decode(text, n).value| == n
  {
    hide DecodeBlocks, BlocksAreLegal;
    if |text| % 5 == 0 && n * 5 <= |text| * 4 {
      AcceptedBlocks(text, n);
    }
  }

  // Where whole blocks are asked for, only the text of the bytes that come out is accepted for them.
  lemma {:induction false} EncodeUndoesDecode(text: bytes, n: nat)
    requires n % 4 == 0 && Decode(text, n).Some?
    ensures Encode(Decode(text, n).value) == text[..n / 4 * 5]
    decreases n
  {
    hide Digits, ValueOf, WordOf, BytesOf;
    if n > 0 {
      var first := text[..5];
      ValueHasDigits(first);
      var v := ValueOf(first).value;
      var b := BytesOf(v);
      if n > 4 {
        EncodeUndoesDecode(text[5..], n - 4);
        AcceptedTexts(text[5..], n - 4);
        var more := Decode(text[5..], n - 4).value;
        assert (b + more)[..4] == b && (b + more)[4..] == more;
        assert first + text[5..][..(n - 4) / 4 * 5] == text[..n / 4 * 5];
      } else {
        assert b[..4] == b && text[..n / 4 * 5] == first;
      }
    }
  }

  // ----- the loops

  // The bytes of one block, from the top of the word down.
  method ReadWord(data: bytes, start: nat) returns (acc: nat, next: nat)
    requires start < |data|
    ensures next == if |data| - start < 4 then |data| else start + 4
    ensures acc == WordOf(data[start..next])
  {
    hide WordOf;
    acc := 0;
    next := start;
    WordOfNothing();
    assert data[start..start] == [];
    var i := 24;
    while i >= 0 && next < |data|
      invariant start <= next <= |data| && -8 <= i == 24 - 8 * (next - start)
      invariant acc == WordOf(data[start..next])
    {
      WordGrows(data[start..next], data[next]);
      assert data[start..next] + [data[next]] == data[start..next + 1];
      acc := acc + data[next] * Place(3 - i / 8);
      next := next + 1;
      i := i - 8;
    }
  }

  // What a bit of byte k counts.
  function Place(k: nat): nat {
    match k
    case 0 => 0x1000000
    case 1 => 0x10000
    case 2 => 0x100
    case _ => 1
  }

  lemma WordOfNothing()
    ensures WordOf([]) == 0
  {}

  lemma WordGrows(b: bytes, c: byte)
    requires |b| < 4
    ensures WordOf(b + [c]) == WordOf(b) + c * Place(|b|)
  {}

  // The characters of a word, from the last one up.
  method WriteDigits(word: nat) returns (t: array<byte>)
    requires word < 0x1_0000_0000
    ensures t.Length == 5 && fresh(t) && t[..] == Digits(word, 5)
  {
    t := new byte[5];
    var acc := word;
    var i := 5;
    while i > 0
      invariant 0 <= i <= 5
      invariant Digits(word, 5) == Digits(acc, i) + t[i..]
    {
      ghost var tail, before := t[i..], acc;
      i := i - 1;
      t[i] := EncodeDigit(acc % 85);
      acc := acc / 85;
      assert t[i..] == [EncodeDigit(before % 85)] + tail;
    }
  }

  // git_buf_encode_base85
  method EncodeBase85(buf: Buffer, data: bytes)
    requires buf.Valid()
    modifies buf, buf.ptr
    ensures buf.Valid() && (buf.ptr == old(buf.ptr) || fresh(buf.ptr))
    ensures buf.Contents() == old(buf.Contents()) + Encode(data)
  {
    hide Digits, Encode, WordOf, Blocks;
    ghost var before := buf.Contents();
    var blocks := Blocks(|data|);
    buf.EnsureSize(blocks * 5 + buf.size + 1);
    var ptr := buf.ptr;
    var at := 0;
    assert data[0..] == data;
    while at < |data|
      invariant buf.ptr == ptr && buf.asize == ptr.Length && at <= |data|
      invariant buf.size + 5 * Blocks(|data| - at) + 1 <= ptr.Length
      invariant ptr[..buf.size] + Encode(data[at..]) == before + Encode(data)
      decreases |data| - at
    {
      EncodeStep(ptr[..buf.size], data[at..]);
      BlocksStep(|data| - at);
      var acc, next := ReadWord(data, at);
      assert data[at..next] == data[at..][..next - at] && data[at..][next - at..] == data[next..];
      WordOfIsSmall(data[at..next]);
      var b85 := WriteDigits(acc);
      CopyDigits(buf, b85);
      at := next;
    }
    EncodeNothing();
    assert data[at..] == [];
    buf.Terminate();
  }

  method CopyDigits(buf: Buffer, b85: array<byte>)
    requires b85.Length == 5 && b85 != buf.ptr && buf.size + 5 <= buf.ptr.Length
    modifies buf`size, buf.ptr
    ensures buf.size == old(buf.size) + 5 && buf.ptr[..buf.size] == old(buf.ptr[..buf.size]) + b85[..]
  {
    ghost var written := buf.ptr[..buf.size];
    var i := 0;
    while i < 5
      invariant 0 <= i <= 5 && buf.size == |written| + i
      invariant buf.ptr[..buf.size] == written + b85[..i]
      invariant b85[..] == old(b85[..])
    {
      ghost var sofar := buf.ptr[..buf.size];
      buf.ptr[buf.size] := b85[i];
      buf.size := buf.size + 1;
      assert buf.ptr[..buf.size] == sofar + [b85[i]];
      i := i + 1;
    }
    assert b85[..5] == b85[..];
  }

  lemma EncodeNothing()
    ensures Encode([]) == []
  {}

  lemma EncodeStep(before: bytes, data: bytes)
    requires data != []
    ensures var n := if |data| < 4 then |data| else 4;
            before + Encode(data) == before + Digits(WordOf(data[..n]), 5) + Encode(data[n..])
  {
    hide Digits, WordOf, Encode;
    var n := if |data| < 4 then |data| else 4;
    EncodeSplit(data);
    Regroup(before, Digits(WordOf(data[..n]), 5), Encode(data[n..]));
  }

  lemma EncodeSplit(data: bytes)
    requires data != []
    ensures var n := if |data| < 4 then |data| else 4;
            Encode(data) == Digits(WordOf(data[..n]), 5) + Encode(data[n..])
  {
    hide Digits, WordOf;
    if |data| <= 4 {
      assert data[..|data|] == data && data[|data|..] == [];
      EncodeNothing();
    }
  }

  // acc * 85 + de with the test for overflow, on 32 bits.
  method AddLastDigit(acc: nat, de: nat) returns (ok: bool, word: nat)
    requires acc < 85 * 85 * 85 * 85 && de < 85
    ensures ok <==> acc * 85 + de < 0x1_0000_0000
    ensures ok ==> word == acc * 85 + de
  {
    word := acc;
    if 0xffff_ffff / 85 < word {
      return false, word;
    }
    word := word * 85 % 0x1_0000_0000;
    if 0xffff_ffff - de < word {
      return false, word;
    }
    word := word + de;
    ok := true;
  }

  // The five characters of a block.
  method ReadBlock(text: bytes, start: nat) returns (ok: bool, word: nat)
    requires start + 5 <= |text|
    ensures ok <==> BlockValue(text[start..start + 5]).Some?
    ensures ok ==> BlockValue(text[start..start + 5]) == Some(word)
  {
    hide DecodeDigit;
    var acc := 0;
    var cnt := 4;
    ghost var block := text[start..start + 5];
    while cnt > 0
      invariant 0 <= cnt <= 4
      invariant ValueOf(block[..4 - cnt]) == Some(acc) && acc < Pow85(4 - cnt)
    {
      ghost var k := 4 - cnt;
      assert block[..k + 1][..k] == block[..k];
      var de := DecodeDigit(text[start + 4 - cnt]);
      if de.None? {
        NoValue(block, k + 1);
        return false, 0;
      }
      acc := acc * 85 + de.value;
      cnt := cnt - 1;
    }
    assert Pow85(4) == 85 * (85 * (85 * (85 * Pow85(0))));
    assert block[..5] == block && block[..4] == block[..|block| - 1];
    var de := DecodeDigit(text[start + 4]);
    if de.None? {
      return false, 0;
    }
    ok, word := AddLastDigit(acc, de.value);
  }

  // A text of which a start is not a number is none.
  lemma {:induction false} NoValue(t: bytes, k: nat)
    requires k <= |t| && ValueOf(t[..k]).None?
    ensures ValueOf(t).None?
    decreases |t|
  {
    if k < |t| {
      var front := t[..|t| - 1];
      assert front[..k] == t[..k];
      NoValue(front, k);
    } else {
      assert t[..k] == t;
    }
  }

  // The top bytes of a word, by turning it around.
  function Rotate(acc: nat): nat {
    acc % 0x1000000 * 0x100 + acc / 0x1000000
  }

  lemma RotateWord(w: bytes)
    requires |w| == 4
    ensures Rotate(WordOf(w)) == WordOf([w[1], w[2], w[3], w[0]])
    ensures Rotate(WordOf(w)) % 0x100 == w[0]
  {
    hide Rotate;
    var top: int, low: int := w[0], w[1] as int * 0x10000 + w[2] as int * 0x100 + w[3] as int;
    assert WordOf(w) == top * 0x1000000 + low;
    RotateNumber(top, low);
  }

  lemma RotateNumber(top: nat, low: nat)
    requires top < 0x100 && low < 0x1000000
    ensures var v := Rotate(top * 0x1000000 + low); v == low * 0x100 + top && v % 0x100 == top
  {
    var v := top * 0x1000000 + low;
    assert v / 0x1000000 == top && v % 0x1000000 == low;
  }

  method WriteBytes(buf: Buffer, word: nat, cnt: nat)
    requires word < 0x1_0000_0000 && 0 < cnt <= 4 && buf.size + cnt <= buf.ptr.Length
    modifies buf`size, buf.ptr
    ensures buf.size == old(buf.size) + cnt
    ensures buf.ptr[..buf.size] == old(buf.ptr[..buf.size]) + BytesOf(word)[..cnt]
  {
    hide BytesOf, Rotate, WordOf;
    ghost var b := BytesOf(word);
    ghost var w := b;
    ghost var written := buf.ptr[..buf.size];
    var acc := word;
    var i := 0;
    while i < cnt
      invariant 0 <= i <= cnt && buf.size == |written| + i
      invariant |w| == 4 && acc == WordOf(w) && w[..4 - i] == b[i..]
      invariant buf.ptr[..buf.size] == written + b[..i]
    {
      ghost var sofar := buf.ptr[..buf.size];
      RotateWord(w);
      assert w[0] == w[..4 - i][0] == b[i];
      acc := Rotate(acc);
      ghost var turned := [w[1], w[2], w[3], w[0]];
      assert turned[..3 - i] == w[..4 - i][1..] == b[i + 1..];
      w := turned;
      buf.ptr[buf.size] := acc % 0x100;
      buf.size := buf.size + 1;
      assert buf.ptr[..buf.size] == sofar + [b[i]];
      assert b[..i + 1] == b[..i] + [b[i]];
      i := i + 1;
    }
  }

  // git_buf_decode_base85: when it fails, the buffer is as before.
  method DecodeBase85(buf: Buffer, text: bytes, outputLen: nat) returns (ok: bool)
    requires buf.Valid()
    modifies buf, buf.ptr
    ensures buf.Valid() && (buf.ptr == old(buf.ptr) || fresh(buf.ptr))
    ensures ok <==> Decode(text, outputLen).Some?
    ensures buf.Contents() == old(buf.Contents()) + if ok then Decode(text, outputLen).value else []
  {
    hide BlockValue, BytesOf, DecodeBlocks, Prefixed;
    if |text| % 5 != 0 || outputLen > |text| * 4 / 5 {
      return false;
    }
    ghost var before := buf.Contents();
    var origSize := buf.size;
    buf.EnsureSize(outputLen + buf.size + 1);
    var ptr := buf.ptr;
    var left: nat := outputLen;
    var at := 0;
    assert text[0..] == text;
    ok := true;
    while left > 0
      invariant buf.ptr == ptr && buf.asize == ptr.Length && at <= |text|
      invariant origSize <= buf.size && buf.size + left + 1 <= ptr.Length && ptr[..origSize] == before
      invariant (|text| - at) % 5 == 0 && left * 5 <= (|text| - at) * 4
      invariant Prefixed(before, DecodeBlocks(text, outputLen)) ==
                Prefixed(ptr[..buf.size], DecodeBlocks(text[at..], left))
      decreases left
    {
      ghost var rest, written := text[at..], ptr[..buf.size];
      var word;
      ok, word := ReadBlock(text, at);
      assert text[at..at + 5] == rest[..5] && rest[5..] == text[at + 5..];
      var cnt := if left < 4 then left else 4;
      DecodeStep(written, rest, left);
      if !ok {
        PrefixedNone(before, DecodeBlocks(text, outputLen));
        buf.size := origSize;
        buf.Terminate();
        return;
      }
      at := at + 5;
      left := left - cnt;
      WriteBytes(buf, word, cnt);
      assert written[..origSize] == before && ptr[..buf.size][..origSize] == ptr[..origSize];
    }
    DecodeNothing(ptr[..buf.size], text[at..]);
    PrefixedNone(before, DecodeBlocks(text, outputLen));
    buf.Terminate();
  }

  lemma DecodeNothing(done: bytes, text: bytes)
    ensures Prefixed(done, DecodeBlocks(text, 0)) == Some(done)
  {
    assert done + [] == done;
  }

  lemma DecodeStep(done: bytes, text: bytes, left: nat)
    requires 0 < left && 5 <= |text|
    ensures var v, cnt := BlockValue(text[..5]), if left < 4 then left else 4;
            Prefixed(done, DecodeBlocks(text, left)) ==
            if v.None? then None else Prefixed(done + BytesOf(v.value)[..cnt], DecodeBlocks(text[5..], left - cnt))
  {
    hide BlockValue, BytesOf;
    var v, cnt := BlockValue(text[..5]), if left < 4 then left else 4;
    if v.Some? && left > 4 {
      assert BytesOf(v.value)[..4] == BytesOf(v.value);
      var more := DecodeBlocks(text[5..], left - 4);
      if more.Some? {
        Regroup(done, BytesOf(v.value), more.value);
      }
    } else if v.Some? {
      DecodeNothing(done + BytesOf(v.value)[..cnt], text[5..]);
    }
  }

  // Encoding behind what a buffer holds and decoding the text gives the data back.
  method EncodeAndDecode(data: bytes) returns (ok: bool, back: Buffer)
    ensures ok && fresh(back) && fresh(back.ptr) && back.Valid() && back.Contents() == data
  {
    hide Encode, Decode;
    var text := new Buffer();
    EncodeBase85(text, data);
    assert text.Contents() == Encode(data);
    back := new Buffer();
    DecodeUndoesEncode(data);
    ok := DecodeBase85(back, text.ptr[..text.size], |data|);
    assert back.Contents() == [] + data;
  }
}
