// Numbers that are integers below 10^15: what the C library does with them is known.

module JsonIntegers {
  import opened JsonString
  import opened JsonText
  import opened JsonRoundTrip
  import opened Options

  function Digit(n: nat): char
    requires n < 10
  {
    '0' + n as char
  }

  function DecimalNat(n: nat): string {
    if n < 10 then [Digit(n)] else DecimalNat(n / 10) + [Digit(n % 10)]
  }

  // What %1.15g prints for an integer of at most fifteen digits.
  function Decimal(n: int): string {
    if n < 0 then "-" + DecimalNat(-n) else DecimalNat(n)
  }

  predicate IsDigit(c: char) {
    '0' <= c <= '9'
  }

  // The digits at the start of s, read behind a number n of which used characters were read.
  function ScanDigits(s: string, n: int, used: nat): Scan<int> {
    if s == "" || !IsDigit(s[0]) then Scan(n, used)
    else ScanDigits(s[1..], n * 10 + (s[0] as nat - '0' as nat), used + 1)
  }

  // What strtod makes of a text with no point and no exponent.
  function ScanInt(s: string): Scan<int> {
    if s != "" && s[0] == '-' then
      var scan := ScanDigits(s[1..], 0, 0);
      if scan.used == 0 then Scan(0, 0) else Scan(-scan.n, scan.used + 1)
    else
      ScanDigits(s, 0, 0)
  }

  const INTEGERS := Libc(ScanInt, Decimal, Decimal, (n: int) => true)

  predicate AllDigits(s: string) {
    forall i :: 0 <= i < |s| ==> IsDigit(s[i])
  }

  lemma {:induction false} ScanSnoc(s: string, c: char, n: int, used: nat)
    requires AllDigits(s) && IsDigit(c)
    ensures var scan := ScanDigits(s, n, used);
            ScanDigits(s + [c], n, used) == Scan(scan.n * 10 + (c as nat - '0' as nat), scan.used + 1)
  {
    var t := s + [c];
    if s != "" {
      assert t[1..] == s[1..] + [c];
      ScanSnoc(s[1..], c, n * 10 + (s[0] as nat - '0' as nat), used + 1);
    } else {
      assert t == [c] && t[1..] == "";
    }
  }

  function Pow10(k: nat): nat {
    if k == 0 then 1 else 10 * Pow10(k - 1)
  }

  lemma {:induction false} DecimalIsScanned(n: nat, k: nat)
    requires 0 < k && n < Pow10(k)
    ensures var s := DecimalNat(n);
            AllDigits(s) && 0 < |s| <= k && ScanDigits(s, 0, 0) == Scan(n, |s|)
  {
    if n < 10 {
      assert [Digit(n)][1..] == "";
    } else {
      assert k > 1 && Pow10(1) == 10;
      DecimalIsScanned(n / 10, k - 1);
      ScanSnoc(DecimalNat(n / 10), Digit(n % 10), 0, 0);
    }
  }

  lemma IntegerIsReadable(n: int)
    requires -1_000_000_000_000_000 < n < 1_000_000_000_000_000
    ensures Readable(INTEGERS, n)
  {
    var m := if n < 0 then -n else n;
    assert Pow10(5) == 100_000 && Pow10(10) == 100_000 * 100_000 && Pow10(15) == 1_000_000_000_000_000;
    DecimalIsScanned(m, 15);
    var t := Decimal(n);
    assert n < 0 ==> t[1..] == DecimalNat(m);
  }

  predicate Bounded(v: Value<int>) {
    match v
    case Number(n) => -1_000_000_000_000_000 < n < 1_000_000_000_000_000
    case String(s) => NulFree(s)
    case Array(items) => BoundedItems(items)
    case Object(members) => BoundedMembers(members)
    case _ => true
  }

  predicate BoundedItems(items: seq<Value<int>>) {
    items == [] || (Bounded(items[0]) && BoundedItems(items[1..]))
  }

  predicate BoundedMembers(members: seq<Member<int>>) {
    members == [] || (NulFree(members[0].name) && Bounded(members[0].value) && BoundedMembers(members[1..]))
  }

  lemma {:induction false} BoundedIsClean(v: Value<int>)
    requires Bounded(v)
    ensures Clean(INTEGERS, v)
    decreases v, 1
  {
    hide Readable;
    match v
    case Number(n) => IntegerIsReadable(n);
    case Array(items) => BoundedItemsAreClean(items);
    case Object(members) => BoundedMembersAreClean(members);
    case _ =>
  }

  lemma {:induction false} BoundedItemsAreClean(items: seq<Value<int>>)
    requires BoundedItems(items)
    ensures CleanItems(INTEGERS, items)
    decreases items, 0
  {
    if items != [] {
      BoundedIsClean(items[0]);
      BoundedItemsAreClean(items[1..]);
    }
  }

  lemma {:induction false} BoundedMembersAreClean(members: seq<Member<int>>)
    requires BoundedMembers(members)
    ensures CleanMembers(INTEGERS, members)
    decreases members, 2
  {
    if members != [] {
      BoundedIsClean(members[0].value);
      BoundedMembersAreClean(members[1..]);
    }
  }

  // The round trip for trees of integers below 10^15.
  lemma IntegerTreesComeBack(fmt: bool, v: Value<int>, requireEnd: bool)
    requires Bounded(v)
    ensures Parse(INTEGERS, Text(INTEGERS, fmt, v, 0), requireEnd)
         == if Height(v) <= NESTING_LIMIT then Some(v) else None
  {
    hide Parse, Text;
    BoundedIsClean(v);
    PrintedIsParsed(INTEGERS, fmt, v, requireEnd);
  }
}
