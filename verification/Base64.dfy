// The base 64 text of buffer.c.

module Base64 {
  import opened Bytes
  import opened GitBuffer
  import opened Options

  const PAD: byte := '=' as int

  // base64_encode
  function EncodeDigit(d: nat): (c: byte)
    requires d < 64
    ensures c != PAD && DecodeDigit(c) == Some(d)
  {
    if d < 26 then 'A' as int + d
    else if d < 52 then 'a' as int + (d - 26)
    else if d < 62 then '0' as int + (d - 52)
    else if d == 62 then '+' as int
    else '/' as int
  }

  // base64_decode, where the padding is a digit too: zero.
  function DecodeDigit(c: byte): (d: Option<byte>)
    ensures d.Some? ==> d.value < 64
  {
    if 'A' as int <= c <= 'Z' as int then Some(c - 'A' as int)
    else if 'a' as int <= c <= 'z' as int then Some(c - 'a' as int + 26)
    else if '0' as int <= c <= '9' as int then Some(c - '0' as int + 52)
    else if c == '+' as int then Some(62)
    else if c == '/' as int then Some(63)
    else if c == PAD then Some(0)
    else None
  }

  // ----- groups of three bytes and four characters

  function EncodeGroup(a: byte, b: byte, c: byte): (t: bytes)
    ensures |t| == 4
  {
    [EncodeDigit(a / 4), EncodeDigit(a % 4 * 16 + b / 16), EncodeDigit(b % 16 * 4 + c / 64), EncodeDigit(c % 64)]
  }

  // The last one or two bytes.
  function EncodeRest(rest: bytes): (t: bytes)
    requires 0 < |rest| < 3
    ensures |t| == 4
  {
    var b := if |rest| > 1 then rest[1] else 0;
    [EncodeDigit(rest[0] / 4), EncodeDigit(rest[0] % 4 * 16 + b / 16),
     if |rest| > 1 then EncodeDigit(b % 16 * 4) else PAD, PAD]
  }

  function Encode(data: bytes): bytes {
    if |data| >= 3 then EncodeGroup(data[0], data[1], data[2]) + Encode(data[3..])
    else if data == [] then []
    else EncodeRest(data)
  }

  function DecodeGroup(t: bytes): (r: Option<bytes>)
    requires |t| == 4
    ensures r.Some? ==> |r.value| == 3
  {
    var a, b, c, d := DecodeDigit(t[0]), DecodeDigit(t[1]), DecodeDigit(t[2]), DecodeDigit(t[3]);
    if a.None? || b.None? || c.None? || d.None? then None
    else Some([a.value as int * 4 + b.value as int / 16, b.value as int % 16 * 16 + c.value as int / 4,
               c.value as int % 4 * 64 + d.value as int])
  }

  function DecodeGroups(text: bytes): Option<bytes> {
    if |text| < 4 then Some([])
    else
      var group, more := DecodeGroup(text[..4]), DecodeGroups(text[4..]);
      if group.None? || more.None? then None else Some(group.value + more.value)
  }

  function Decode(text: bytes): Option<bytes> {
    if |text| % 4 != 0 then None else DecodeGroups(text)
  }

  // ----- the round trip

  // What the padding of n bytes is decoded as.
  function Zeros(n: nat): bytes {
    match n % 3
    case 0 => []
    case 1 => [0, 0]
    case _ => [0]
  }

  lemma GroupRoundTrip(a: byte, b: byte, c: byte)
    ensures DecodeGroup(EncodeGroup(a, b, c)) == Some([a, b, c])
  {
    hide EncodeDigit, DecodeDigit;
    var x: int, y: int, z: int := a, b, c;
    assert (x % 4 * 16 + y / 16) / 16 == x % 4 && (x % 4 * 16 + y / 16) % 16 == y / 16;
    assert (y % 16 * 4 + z / 64) / 4 == y % 16 && (y % 16 * 4 + z / 64) % 4 == z / 64;
  }

  // Decoding gives the data back with its padding as zeros.
  lemma {:induction false} DecodeOfEncode(data: bytes)
    ensures |Encode(data)| % 4 == 0
    ensures Decode(Encode(data)) == Some(data + Zeros(|data|))
  {
    hide EncodeGroup, DecodeGroup, EncodeRest;
    if |data| >= 3 {
      DecodeOfEncode(data[3..]);
      GroupRoundTrip(data[0], data[1], data[2]);
      var first, more := EncodeGroup(data[0], data[1], data[2]), Encode(data[3..]);
      assert (first + more)[..4] == first && (first + more)[4..] == more;
      assert data == [data[0], data[1], data[2]] + data[3..];
      assert Zeros(|data| - 3) == Zeros(|data|);
      Regroup([data[0], data[1], data[2]], data[3..], Zeros(|data|));
    } else if data == [] {
      assert data + Zeros(|data|) == data;
    } else {
      RestRoundTrip(data);
      var t := EncodeRest(data);
      assert Encode(data) == t && t[..4] == t;
      assert DecodeGroups(t[4..]) == Some([]);
      assert data + Zeros(|data|) + [] == data + Zeros(|data|);
      assert |data + Zeros(|data|)| == 3;
    }
  }

  // So just the data comes back when it is whole groups, and only then.
  lemma WholeGroupsComeBack(data: bytes)
    ensures Decode(Encode(data)) == Some(data) <==> |data| % 3 == 0
  {
    hide Decode, Encode;
    DecodeOfEncode(data);
    assert |data + Zeros(|data|)| == |data| + |Zeros(|data|)|;
    assert data + [] == data;
  }

  lemma RestRoundTrip(rest: bytes)
    requires 0 < |rest| < 3
    ensures DecodeGroup(EncodeRest(rest)) == Some(rest + Zeros(|rest|))
  {
    hide EncodeDigit;
    var x: int, y: int := rest[0], if |rest| > 1 then rest[1] else 0;
    assert DecodeDigit(PAD) == Some(0);
    assert (x % 4 * 16 + y / 16) / 16 == x % 4 && (x % 4 * 16 + y / 16) % 16 == y / 16;
    assert y % 16 * 4 / 4 == y % 16 && y % 16 * 4 % 4 == 0;
    assert |rest| == 1 ==> rest + Zeros(1) == [x, 0, 0];
    assert |rest| == 2 ==> rest + Zeros(2) == [x, y, 0];
  }

  // A text is taken when its length is a multiple of 4 and each character is a digit or padding,
  // wherever the padding is.
  lemma {:induction false} AcceptedTexts(text: bytes)
    ensures Decode(text).Some? <==>
      |text| % 4 == 0 && forall i :: 0 <= i < |text| ==> DecodeDigit(text[i]).Some?
    ensures Decode(text).Some? ==> |Decode(text).value| == |text| / 4 * 3
  {
    hide DecodeDigit;
    if |text| >= 4 {
      var first, more := text[..4], text[4..];
      AcceptedTexts(more);
      assert DecodeGroup(first).Some? <==> forall i :: 0 <= i < 4 ==> DecodeDigit(first[i]).Some?;
      AllDigits(first, more);
      assert text == first + more;
    }
  }

  lemma AllDigits(a: bytes, b: bytes)
    ensures (forall i :: 0 <= i < |a + b| ==> DecodeDigit((a + b)[i]).Some?)
            <==> (forall i :: 0 <= i < |a| ==> DecodeDigit(a[i]).Some?)
                 && (forall i :: 0 <= i < |b| ==> DecodeDigit(b[i]).Some?)
  {
    hide DecodeDigit;
    if forall i :: 0 <= i < |a + b| ==> DecodeDigit((a + b)[i]).Some? {
      forall i | 0 <= i < |a| ensures DecodeDigit(a[i]).Some? {
        assert (a + b)[i] == a[i];
      }
      forall i | 0 <= i < |b| ensures DecodeDigit(b[i]).Some? {
        assert (a + b)[|a| + i] == b[i];
      }
    }
  }

  // ----- the loops

  // git_buf_encode_base64
  method EncodeBase64(buf: Buffer, data: bytes)
    requires buf.Valid()
    modifies buf, buf.ptr
    ensures buf.Valid() && (buf.ptr == old(buf.ptr) || fresh(buf.ptr))
    ensures buf.Contents() == old(buf.Contents()) + Encode(data)
  {
    hide Encode, EncodeGroup, EncodeRest;
    var extra := |data| % 3;
    var blocks := |data| / 3 + (if extra > 0 then 1 else 0);
    ghost var before := buf.Contents();
    buf.EnsureSize((blocks + 1) * 4 + buf.size);
    var ptr := buf.ptr;
    var write := buf.size;
    var at := 0;
    ghost var n, groups := 0, |data| / 3;
    assert data[0..] == data;
    while at < |data| - extra
      invariant buf.ptr == ptr && buf.asize == ptr.Length && buf.size == old(buf.size)
      invariant n <= groups && at == n * 3 && write == buf.size + n * 4
      invariant before + Encode(data) == ptr[..write] + Encode(data[at..])
    {
      EncodeStep(ptr[..write], data[at..]);
      assert data[at..][3..] == data[at + 3..];
      Store(ptr, write, EncodeGroup(data[at], data[at + 1], data[at + 2]));
      at, write, n := at + 3, write + 4, n + 1;
    }
    EncodeEnd(ptr[..write], data[at..]);
    if extra > 0 {
      Store(ptr, write, EncodeRest(data[at..]));
      write := write + 4;
    }
    buf.size := write;
    buf.Terminate();
  }

  lemma EncodeStep(done: bytes, data: bytes)
    requires |data| >= 3
    ensures done + Encode(data) == done + EncodeGroup(data[0], data[1], data[2]) + Encode(data[3..])
  {
    hide EncodeGroup;
  }

  lemma EncodeEnd(done: bytes, data: bytes)
    requires |data| < 3
    ensures done + Encode(data) == if data == [] then done else done + EncodeRest(data)
  {}

  // git_buf_decode_base64: when it fails, the buffer is as before.
  method DecodeBase64(buf: Buffer, text: bytes) returns (ok: bool)
    requires buf.Valid()
    modifies buf, buf.ptr
    ensures buf.Valid() && (buf.ptr == old(buf.ptr) || fresh(buf.ptr))
    ensures ok <==> Decode(text).Some?
    ensures buf.Contents() == old(buf.Contents()) + if ok then Decode(text).value else []
  {
    hide DecodeGroups, DecodeGroup, Prefixed;
    if |text| % 4 != 0 {
      return false;
    }
    ghost var before := buf.Contents();
    var origSize := buf.size;
    buf.EnsureSize(|text| / 4 * 3 + buf.size + 1);
    var ptr := buf.ptr;
    var i := 0;
    ghost var n, groups := 0, |text| / 4;
    assert text[0..] == text;
    while i < |text|
      invariant buf.ptr == ptr && buf.asize == ptr.Length
      invariant n <= groups && i == n * 4 && buf.size == origSize + n * 3 && ptr[..origSize] == before
      invariant Prefixed(before, DecodeGroups(text)) == Prefixed(ptr[..buf.size], DecodeGroups(text[i..]))
    {
      ghost var rest, done := text[i..], ptr[..buf.size];
      DecodeStep(done, rest);
      assert rest[..4] == text[i..i + 4] && rest[4..] == text[i + 4..];
      var group := ReadGroup(text[i..i + 4]);
      if group.None? {
        PrefixedNone(before, DecodeGroups(text));
        buf.size := origSize;
        buf.Terminate();
        return false;
      }
      Store(ptr, buf.size, group.value);
      buf.size := buf.size + 3;
      assert done[..origSize] == before && ptr[..buf.size][..origSize] == ptr[..origSize];
      i, n := i + 4, n + 1;
    }
    DecodeEnd(ptr[..buf.size], text[i..]);
    PrefixedNone(before, DecodeGroups(text));
    buf.Terminate();
    ok := true;
  }

  // Four characters at once.
  method ReadGroup(t: bytes) returns (r: Option<bytes>)
    requires |t| == 4
    ensures r == DecodeGroup(t)
  {
    hide DecodeDigit;
    var a, b, c, d := DecodeDigit(t[0]), DecodeDigit(t[1]), DecodeDigit(t[2]), DecodeDigit(t[3]);
    if a.None? || b.None? || c.None? || d.None? {
      return None;
    }
    var w: int, x: int, y: int, z: int := a.value, b.value, c.value, d.value;
    return Some([w * 4 + x / 16, x % 16 * 16 + y / 4, y % 4 * 64 + z]);
  }

  lemma DecodeStep(done: bytes, text: bytes)
    requires |text| >= 4
    ensures var group := DecodeGroup(text[..4]);
            Prefixed(done, DecodeGroups(text)) ==
            if group.None? then None else Prefixed(done + group.value, DecodeGroups(text[4..]))
  {
    hide DecodeGroup;
    var group, more := DecodeGroup(text[..4]), DecodeGroups(text[4..]);
    if group.Some? && more.Some? {
      Regroup(done, group.value, more.value);
    }
  }

  lemma DecodeEnd(done: bytes, text: bytes)
    requires |text| < 4
    ensures Prefixed(done, DecodeGroups(text)) == Some(done)
  {
    assert done + [] == done;
  }
}
