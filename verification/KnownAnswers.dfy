// Known answers of the text encodings: whole alphabets, the examples of RFC 4648, and the escapes of quoted paths.

module KnownAnswers {
  import opened Bytes
  import opened Options
  import Base64
  import Base85
  import Quoting
  import SignedCommit

  // ----- base 64

  // Table 1 of RFC 4648.

  lemma Base64Digits0To15()
    ensures Base64.EncodeDigit(0) == 'A' as int && Base64.EncodeDigit(1) == 'B' as int
    ensures Base64.EncodeDigit(2) == 'C' as int && Base64.EncodeDigit(3) == 'D' as int
    ensures Base64.EncodeDigit(4) == 'E' as int && Base64.EncodeDigit(5) == 'F' as int
    ensures Base64.EncodeDigit(6) == 'G' as int && Base64.EncodeDigit(7) == 'H' as int
    ensures Base64.EncodeDigit(8) == 'I' as int && Base64.EncodeDigit(9) == 'J' as int
    ensures Base64.EncodeDigit(10) == 'K' as int && Base64.EncodeDigit(11) == 'L' as int
    ensures Base64.EncodeDigit(12) == 'M' as int && Base64.EncodeDigit(13) == 'N' as int
    ensures Base64.EncodeDigit(14) == 'O' as int && Base64.EncodeDigit(15) == 'P' as int
  {}

  lemma Base64Digits16To31()
    ensures Base64.EncodeDigit(16) == 'Q' as int && Base64.EncodeDigit(17) == 'R' as int
    ensures Base64.EncodeDigit(18) == 'S' as int && Base64.EncodeDigit(19) == 'T' as int
    ensures Base64.EncodeDigit(20) == 'U' as int && Base64.EncodeDigit(21) == 'V' as int
    ensures Base64.EncodeDigit(22) == 'W' as int && Base64.EncodeDigit(23) == 'X' as int
    ensures Base64.EncodeDigit(24) == 'Y' as int && Base64.EncodeDigit(25) == 'Z' as int
    ensures Base64.EncodeDigit(26) == 'a' as int && Base64.EncodeDigit(27) == 'b' as int
    ensures Base64.EncodeDigit(28) == 'c' as int && Base64.EncodeDigit(29) == 'd' as int
    ensures Base64.EncodeDigit(30) == 'e' as int && Base64.EncodeDigit(31) == 'f' as int
  {}

  lemma Base64Digits32To47()
    ensures Base64.EncodeDigit(32) == 'g' as int && Base64.EncodeDigit(33) == 'h' as int
    ensures Base64.EncodeDigit(34) == 'i' as int && Base64.EncodeDigit(35) == 'j' as int
    ensures Base64.EncodeDigit(36) == 'k' as int && Base64.EncodeDigit(37) == 'l' as int
    ensures Base64.EncodeDigit(38) == 'm' as int && Base64.EncodeDigit(39) == 'n' as int
    ensures Base64.EncodeDigit(40) == 'o' as int && Base64.EncodeDigit(41) == 'p' as int
    ensures Base64.EncodeDigit(42) == 'q' as int && Base64.EncodeDigit(43) == 'r' as int
    ensures Base64.EncodeDigit(44) == 's' as int && Base64.EncodeDigit(45) == 't' as int
    ensures Base64.EncodeDigit(46) == 'u' as int && Base64.EncodeDigit(47) == 'v' as int
  {}

  lemma Base64Digits48To63()
    ensures Base64.EncodeDigit(48) == 'w' as int && Base64.EncodeDigit(49) == 'x' as int
    ensures Base64.EncodeDigit(50) == 'y' as int && Base64.EncodeDigit(51) == 'z' as int
    ensures Base64.EncodeDigit(52) == '0' as int && Base64.EncodeDigit(53) == '1' as int
    ensures Base64.EncodeDigit(54) == '2' as int && Base64.EncodeDigit(55) == '3' as int
    ensures Base64.EncodeDigit(56) == '4' as int && Base64.EncodeDigit(57) == '5' as int
    ensures Base64.EncodeDigit(58) == '6' as int && Base64.EncodeDigit(59) == '7' as int
    ensures Base64.EncodeDigit(60) == '8' as int && Base64.EncodeDigit(61) == '9' as int
    ensures Base64.EncodeDigit(62) == '+' as int && Base64.EncodeDigit(63) == '/' as int
  {}

  // The examples of section 10: foobar, fooba and foob.
  lemma Foobar()
    ensures Base64.Encode([0x66, 0x6f, 0x6f, 0x62, 0x61, 0x72]) == [0x5a, 0x6d, 0x39, 0x76, 0x59, 0x6d, 0x46, 0x79]
    ensures Base64.Encode([0x66, 0x6f, 0x6f, 0x62, 0x61]) == [0x5a, 0x6d, 0x39, 0x76, 0x59, 0x6d, 0x45, 0x3d]
    ensures Base64.Encode([0x66, 0x6f, 0x6f, 0x62]) == [0x5a, 0x6d, 0x39, 0x76, 0x59, 0x67, 0x3d, 0x3d]
  {
    hide Base64.Encode;
    Bar();
    FooAnd([0x62, 0x61, 0x72]);
    assert [0x66, 0x6f, 0x6f] + [0x62, 0x61, 0x72] == [0x66, 0x6f, 0x6f, 0x62, 0x61, 0x72];
    FooAnd([0x62, 0x61]);
    assert [0x66, 0x6f, 0x6f] + [0x62, 0x61] == [0x66, 0x6f, 0x6f, 0x62, 0x61];
    FooAnd([0x62]);
    assert [0x66, 0x6f, 0x6f] + [0x62] == [0x66, 0x6f, 0x6f, 0x62];
  }

  lemma FooAnd(more: bytes)
    ensures Base64.Encode([0x66, 0x6f, 0x6f] + more) == [0x5a, 0x6d, 0x39, 0x76] + Base64.Encode(more)
  {
    hide Base64.EncodeGroup, Base64.EncodeRest;
    var b := [0x66, 0x6f, 0x6f] + more;
    assert b[3..] == more;
    FooGroup();
  }

  lemma FooGroup()
    ensures Base64.EncodeGroup(0x66, 0x6f, 0x6f) == [0x5a, 0x6d, 0x39, 0x76]
    ensures Base64.EncodeGroup(0x62, 0x61, 0x72) == [0x59, 0x6d, 0x46, 0x79]
    ensures Base64.EncodeRest([0x62, 0x61]) == [0x59, 0x6d, 0x45, 0x3d]
    ensures Base64.EncodeRest([0x62]) == [0x59, 0x67, 0x3d, 0x3d]
  {
    hide Base64.EncodeDigit;
    Base64Digits0To15();
    Base64Digits16To31();
    Base64Digits32To47();
    Base64Digits48To63();
  }

  lemma Bar()
    ensures Base64.Encode([0x62, 0x61, 0x72]) == [0x59, 0x6d, 0x46, 0x79]
    ensures Base64.Encode([0x62, 0x61]) == [0x59, 0x6d, 0x45, 0x3d]
    ensures Base64.Encode([0x62]) == [0x59, 0x67, 0x3d, 0x3d]
  {
    hide Base64.EncodeGroup, Base64.EncodeRest;
    FooGroup();
    assert [0x62, 0x61, 0x72][3..] == [] && Base64.Encode([]) == [];
  }

  // ----- base 85

  lemma Base85Digits0To16()
    ensures Base85.EncodeDigit(0) == '0' as int && Base85.EncodeDigit(1) == '1' as int
    ensures Base85.EncodeDigit(2) == '2' as int && Base85.EncodeDigit(3) == '3' as int
    ensures Base85.EncodeDigit(4) == '4' as int && Base85.EncodeDigit(5) == '5' as int
    ensures Base85.EncodeDigit(6) == '6' as int && Base85.EncodeDigit(7) == '7' as int
    ensures Base85.EncodeDigit(8) == '8' as int && Base85.EncodeDigit(9) == '9' as int
    ensures Base85.EncodeDigit(10) == 'A' as int && Base85.EncodeDigit(11) == 'B' as int
    ensures Base85.EncodeDigit(12) == 'C' as int && Base85.EncodeDigit(13) == 'D' as int
    ensures Base85.EncodeDigit(14) == 'E' as int && Base85.EncodeDigit(15) == 'F' as int
    ensures Base85.EncodeDigit(16) == 'G' as int
  {}

  lemma Base85Digits17To33()
    ensures Base85.EncodeDigit(17) == 'H' as int && Base85.EncodeDigit(18) == 'I' as int
    ensures Base85.EncodeDigit(19) == 'J' as int && Base85.EncodeDigit(20) == 'K' as int
    ensures Base85.EncodeDigit(21) == 'L' as int && Base85.EncodeDigit(22) == 'M' as int
    ensures Base85.EncodeDigit(23) == 'N' as int && Base85.EncodeDigit(24) == 'O' as int
    ensures Base85.EncodeDigit(25) == 'P' as int && Base85.EncodeDigit(26) == 'Q' as int
    ensures Base85.EncodeDigit(27) == 'R' as int && Base85.EncodeDigit(28) == 'S' as int
    ensures Base85.EncodeDigit(29) == 'T' as int && Base85.EncodeDigit(30) == 'U' as int
    ensures Base85.EncodeDigit(31) == 'V' as int && Base85.EncodeDigit(32) == 'W' as int
    ensures Base85.EncodeDigit(33) == 'X' as int
  {}

  lemma Base85Digits34To50()
    ensures Base85.EncodeDigit(34) == 'Y' as int && Base85.EncodeDigit(35) == 'Z' as int
    ensures Base85.EncodeDigit(36) == 'a' as int && Base85.EncodeDigit(37) == 'b' as int
    ensures Base85.EncodeDigit(38) == 'c' as int && Base85.EncodeDigit(39) == 'd' as int
    ensures Base85.EncodeDigit(40) == 'e' as int && Base85.EncodeDigit(41) == 'f' as int
    ensures Base85.EncodeDigit(42) == 'g' as int && Base85.EncodeDigit(43) == 'h' as int
    ensures Base85.EncodeDigit(44) == 'i' as int && Base85.EncodeDigit(45) == 'j' as int
    ensures Base85.EncodeDigit(46) == 'k' as int && Base85.EncodeDigit(47) == 'l' as int
    ensures Base85.EncodeDigit(48) == 'm' as int && Base85.EncodeDigit(49) == 'n' as int
    ensures Base85.EncodeDigit(50) == 'o' as int
  {}

  lemma Base85Digits51To67()
    ensures Base85.EncodeDigit(51) == 'p' as int && Base85.EncodeDigit(52) == 'q' as int
    ensures Base85.EncodeDigit(53) == 'r' as int && Base85.EncodeDigit(54) == 's' as int
    ensures Base85.EncodeDigit(55) == 't' as int && Base85.EncodeDigit(56) == 'u' as int
    ensures Base85.EncodeDigit(57) == 'v' as int && Base85.EncodeDigit(58) == 'w' as int
    ensures Base85.EncodeDigit(59) == 'x' as int && Base85.EncodeDigit(60) == 'y' as int
    ensures Base85.EncodeDigit(61) == 'z' as int && Base85.EncodeDigit(62) == '!' as int
    ensures Base85.EncodeDigit(63) == '#' as int && Base85.EncodeDigit(64) == '$' as int
    ensures Base85.EncodeDigit(65) == '%' as int && Base85.EncodeDigit(66) == '&' as int
    ensures Base85.EncodeDigit(67) == '(' as int
  {}

  lemma Base85Digits68To84()
    ensures Base85.EncodeDigit(68) == ')' as int && Base85.EncodeDigit(69) == '*' as int
    ensures Base85.EncodeDigit(70) == '+' as int && Base85.EncodeDigit(71) == '-' as int
    ensures Base85.EncodeDigit(72) == ';' as int && Base85.EncodeDigit(73) == '<' as int
    ensures Base85.EncodeDigit(74) == '=' as int && Base85.EncodeDigit(75) == '>' as int
    ensures Base85.EncodeDigit(76) == '?' as int && Base85.EncodeDigit(77) == '@' as int
    ensures Base85.EncodeDigit(78) == '^' as int && Base85.EncodeDigit(79) == '_' as int
    ensures Base85.EncodeDigit(80) == '`' as int && Base85.EncodeDigit(81) == '{' as int
    ensures Base85.EncodeDigit(82) == '|' as int && Base85.EncodeDigit(83) == '}' as int
    ensures Base85.EncodeDigit(84) == '~' as int
  {}

  // The highest byte and the highest digit come first.
  lemma OneWord()
    ensures Base85.Encode([0x12, 0x34, 0x56, 0x78]) == [0x35, 0x3b, 0x52, 0x74, 0x4c]
  {
    hide Base85.EncodeDigit;
    assert Base85.WordOf([0x12, 0x34, 0x56, 0x78]) == 0x1234_5678;
    assert Base85.Digits(5, 1) == Base85.Digits(0, 0) + [Base85.EncodeDigit(5)];
    assert Base85.Digits(497, 2) == Base85.Digits(5, 1) + [Base85.EncodeDigit(72)];
    assert Base85.Digits(42272, 3) == Base85.Digits(497, 2) + [Base85.EncodeDigit(27)];
    assert Base85.Digits(3593175, 4) == Base85.Digits(42272, 3) + [Base85.EncodeDigit(55)];
    assert Base85.Digits(305419896, 5) == Base85.Digits(3593175, 4) + [Base85.EncodeDigit(21)];
    Base85Digits0To16();
    Base85Digits17To33();
    Base85Digits51To67();
    Base85Digits68To84();
  }

  // ----- quoted paths

  // The escapes of C for the characters 7 to 13, the quote and the backslash.
  lemma Escapes()
    ensures Quoting.QuoteByte(7) == [0x5c, 'a' as int]
    ensures Quoting.QuoteByte(8) == [0x5c, 'b' as int]
    ensures Quoting.QuoteByte(9) == [0x5c, 't' as int]
    ensures Quoting.QuoteByte(10) == [0x5c, 'n' as int]
    ensures Quoting.QuoteByte(11) == [0x5c, 'v' as int]
    ensures Quoting.QuoteByte(12) == [0x5c, 'f' as int]
    ensures Quoting.QuoteByte(13) == [0x5c, 'r' as int]
    ensures Quoting.QuoteByte(0x22) == [0x5c, 0x22] && Quoting.QuoteByte(0x5c) == [0x5c, 0x5c]
  {}

  // Other bytes that are not printable have three octal digits, the highest first.
  lemma OctalDigits(c: byte)
    requires (c < 0x20 && !(7 <= c <= 13)) || c >= 0x7f
    ensures var q := Quoting.QuoteByte(c);
      && |q| == 4 && q[0] == 0x5c && (forall i :: 1 <= i < 4 ==> 0x30 <= q[i] < 0x38)
      && (q[1] - 0x30) * 64 + (q[2] - 0x30) * 8 + (q[3] - 0x30) == c
  {
    hide Quoting.Octal;
    assert Quoting.QuoteByte(c) == [0x5c] + Quoting.Octal(c);
    OctalIs(c);
  }

  lemma OctalIs(c: byte)
    ensures var o := Quoting.Octal(c);
      && |o| == 3 && (forall i :: 0 <= i < 3 ==> 0x30 <= o[i] < 0x38)
      && (o[0] - 0x30) * 64 + (o[1] - 0x30) * 8 + (o[2] - 0x30) == c
  {
    var q := c / 8;
    assert q / 8 == c / 64;
  }

  // ----- signed commits

  // The field is gpgsig, and each further line of the signature starts with a space.
  lemma SignedExample()
    ensures SignedCommit.Sign("t\n\nm", "a\nb", SignedCommit.FieldName(None)) == Some("t\n" + "gpgsig a\n b\n" + "\nm")
  {
    hide SignedCommit.HeaderEnd;
    var commit := "t\n\nm";
    assert '\n' !in commit[..1];
    SignedCommit.HeaderEndIs(commit, 1);
    FoldedExample();
    assert commit[..2] == "t\n" && commit[2..] == "\nm";
    assert "gpgsig" + " " + "a\n b" + "\n" == "gpgsig a\n b\n";
  }

  lemma FoldedExample()
    ensures SignedCommit.Fold("a\nb") == "a\n b"
  {
    var s := "a\nb";
    var t := s[1..];
    var u := t[1..];
    assert t == "\nb" && u == "b" && u[1..] == "";
    assert SignedCommit.Fold(u) == "b";
    assert SignedCommit.Fold(t) == "\n " + "b";
  }
}
