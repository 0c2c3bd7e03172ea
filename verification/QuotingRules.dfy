// Quoted paths that the program itself would not write: octal escapes for printable characters, quotes without a
// backslash, and texts that are refused.

module QuotingRules {
  import opened Bytes
  import opened Options
  import opened Quoting

  // One byte between the quotes: as it is, by a letter, or by three octal digits.
  datatype Unit = Raw(c: byte) | Lettered(i: nat) | InOctal(c: byte)

  // The letters of the escapes, and what they stand for.
  const LETTERS := "abtnvfr\"\\"
  const MEANT: bytes := [7, 8, 9, 10, 11, 12, 13, 34, 92]

  predicate Valid(u: Unit) {
    match u
    case Raw(c) => c != BACKSLASH
    case Lettered(i) => i < 9
    case InOctal(c) => true
  }

  predicate AllValid(us: seq<Unit>) {
    forall i :: 0 <= i < |us| ==> Valid(us[i])
  }

  function ShownOne(u: Unit): bytes
    requires Valid(u)
  {
    match u
    case Raw(c) => [c]
    case Lettered(i) => [0x5c, LetterAt(i)]
    case InOctal(c) => [0x5c, 0x30 + c / 64, 0x30 + c / 8 % 8, 0x30 + c % 8]
  }

  function LetterAt(i: nat): byte
    requires i < 9
  {
    LETTERS[i] as int
  }

  function MeantOne(u: Unit): byte
    requires Valid(u)
  {
    match u
    case Raw(c) => c
    case Lettered(i) => MEANT[i]
    case InOctal(c) => c
  }

  function Shown(us: seq<Unit>): bytes
    requires AllValid(us)
  {
    if us == [] then [] else ShownOne(us[0]) + Shown(us[1..])
  }

  function Meant(us: seq<Unit>): bytes
    requires AllValid(us)
  {
    if us == [] then [] else [MeantOne(us[0])] + Meant(us[1..])
  }

  lemma UnitIsRead(u: Unit, rest: bytes)
    requires Valid(u)
    ensures UnquoteBody(ShownOne(u) + rest) == Cons(MeantOne(u), UnquoteBody(rest))
  {
    var s := ShownOne(u) + rest;
    match u
    case Raw(c) => assert s[1..] == rest;
    case Lettered(i) => assert s[2..] == rest;
    case InOctal(c) =>
      assert s[4..] == rest;
      assert c / 64 * 64 + c / 8 % 8 * 8 + c % 8 == c;
  }

  // Everything between the quotes is read unit by unit.
  lemma {:induction false} BodyIsMeant(us: seq<Unit>)
    requires AllValid(us)
    ensures UnquoteBody(Shown(us)) == Some(Meant(us))
  {
    hide ShownOne, MeantOne, UnquoteBody;
    if us == [] {
      NothingIsRead();
    } else {
      BodyIsMeant(us[1..]);
      UnitIsRead(us[0], Shown(us[1..]));
    }
  }

  lemma NothingIsRead()
    ensures UnquoteBody([]) == Some([])
  {}

  // The text goes on with a backslash that is no escape.
  predicate IsBad(s: bytes) {
    && s != [] && s[0] == BACKSLASH
    && (|s| == 1
        || (s[1] !in MEANTLETTERS
            && !(|s| >= 4 && 0x30 <= s[1] < 0x34 && 0x30 <= s[2] < 0x38 && 0x30 <= s[3] < 0x38)))
  }

  const MEANTLETTERS: bytes := [0x61, 0x62, 0x74, 0x6e, 0x76, 0x66, 0x72, 0x22, 0x5c]

  lemma {:induction false} BadIsRefused(us: seq<Unit>, s: bytes)
    requires AllValid(us) && IsBad(s)
    ensures UnquoteBody(Shown(us) + s) == None
  {
    if us == [] {
      assert Shown(us) + s == s;
      NotALetter(s);
    } else {
      hide ShownOne, MeantOne, UnquoteBody, IsBad;
      BadIsRefused(us[1..], s);
      UnitIsRead(us[0], Shown(us[1..]) + s);
      assert Shown(us) + s == ShownOne(us[0]) + (Shown(us[1..]) + s);
    }
  }

  lemma NotALetter(s: bytes)
    requires IsBad(s)
    ensures |s| > 1 ==> Letter(s[1]) == None
  {
    assert MEANTLETTERS[0] == 0x61 && MEANTLETTERS[1] == 0x62 && MEANTLETTERS[2] == 0x74 && MEANTLETTERS[3] == 0x6e;
    assert MEANTLETTERS[4] == 0x76 && MEANTLETTERS[5] == 0x66 && MEANTLETTERS[6] == 0x72 && MEANTLETTERS[7] == 0x22;
    assert MEANTLETTERS[8] == 0x5c;
  }

  // Every text between quotes is a row of units, or a row of units and then a backslash that is no escape.
  lemma {:induction false} BodyOf(s: bytes) returns (us: seq<Unit>, bad: bytes)
    ensures AllValid(us) && s == Shown(us) + bad && (bad == [] || IsBad(bad))
    decreases |s|
  {
    if s == [] || IsBad(s) {
      us, bad := [], s;
    } else {
      var u, n := UnitOf(s);
      var more;
      more, bad := BodyOf(s[n..]);
      us := [u] + more;
      assert us[1..] == more;
      assert s == s[..n] + s[n..];
    }
  }

  lemma UnitOf(s: bytes) returns (u: Unit, n: nat)
    requires s != [] && !IsBad(s)
    ensures Valid(u) && 0 < n <= |s| && s[..n] == ShownOne(u)
  {
    if s[0] != BACKSLASH {
      u, n := Raw(s[0]), 1;
    } else if s[1] in MEANTLETTERS {
      var i := IndexOf(s[1]);
      u, n := Lettered(i), 2;
      assert s[..2] == [s[0], s[1]];
    } else {
      var c: byte := (s[1] - 0x30) * 64 + (s[2] - 0x30) * 8 + (s[3] - 0x30);
      u, n := InOctal(c), 4;
      assert c / 64 == s[1] - 0x30 && c / 8 % 8 == s[2] - 0x30 && c % 8 == s[3] - 0x30;
      assert s[..4] == [s[0], s[1], s[2], s[3]];
    }
  }

  lemma IndexOf(c: byte) returns (i: nat)
    requires c in MEANTLETTERS
    ensures i < 9 && LetterAt(i) == c
  {
    i := if c == 0x61 then 0 else if c == 0x62 then 1 else if c == 0x74 then 2 else if c == 0x6e then 3
         else if c == 0x76 then 4 else if c == 0x66 then 5 else if c == 0x72 then 6 else if c == 0x22 then 7 else 8;
  }

  // So a body is read if and only if it has no bad backslash.
  lemma BodyIsReadIf(s: bytes) returns (us: seq<Unit>, bad: bytes)
    ensures AllValid(us) && s == Shown(us) + bad && (bad == [] || IsBad(bad))
    ensures UnquoteBody(s) == if bad == [] then Some(Meant(us)) else None
  {
    hide UnquoteBody, Shown, Meant, IsBad;
    us, bad := BodyOf(s);
    if bad == [] {
      BodyIsMeant(us);
      assert Shown(us) + [] == Shown(us);
    } else {
      BadIsRefused(us, bad);
    }
  }
}
