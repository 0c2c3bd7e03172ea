// The values of cJSON.c, the text they are printed as, and what a text is parsed as.

module JsonText {
  import opened JsonString
  import opened Options

  const NESTING_LIMIT := 1000

  // N is the type double. The child list of an array or object is a sequence here; each child
  // of an object has a name.
  datatype Value<N> =
    | Null
    | Bool(b: bool)
    | Number(n: N)
    | String(s: string)
    | Array(items: seq<Value<N>>)
    | Object(members: seq<Member<N>>)

  datatype Member<N> = Member(name: string, value: Value<N>)

  // What strtod returns: the number, and how many characters it used.
  datatype Scan<N> = Scan(n: N, used: nat)

  // The C library: strtod and sscanf with %lg, sprintf with %1.15g and with %1.17g, and whether
  // a number is neither infinite nor NaN.
  datatype Libc<!N> = Libc(scan: string -> Scan<N>, short: N -> string, long: N -> string, finite: N -> bool)

  // ----- printing

  function NumberText<N(==)>(lib: Libc<N>, n: N): string {
    if !lib.finite(n) then "null"
    else
      var back := lib.scan(lib.short(n));
      if back.used > 0 && back.n == n then lib.short(n) else lib.long(n)
  }

  function Tabs(n: nat): (s: string)
    ensures |s| == n
  {
    if n == 0 then "" else "\t" + Tabs(n - 1)
  }

  function Text<N(==)>(lib: Libc<N>, fmt: bool, v: Value<N>, depth: nat): string {
    match v
    case Null => "null"
    case Bool(b) => if b then "true" else "false"
    case Number(n) => NumberText(lib, n)
    case String(s) => Quoted(s)
    case Array(items) => "[" + ItemsText(lib, fmt, items, depth + 1) + "]"
    case Object(members) =>
      (if fmt then "{\n" else "{") + MembersText(lib, fmt, members, depth + 1) + (if fmt then Tabs(depth) else "") + "}"
  }

  function ItemsText<N(==)>(lib: Libc<N>, fmt: bool, items: seq<Value<N>>, depth: nat): string {
    if items == [] then ""
    else if |items| == 1 then Text(lib, fmt, items[0], depth)
    else Text(lib, fmt, items[0], depth) + (if fmt then ", " else ",") + ItemsText(lib, fmt, items[1..], depth)
  }

  function MembersText<N(==)>(lib: Libc<N>, fmt: bool, members: seq<Member<N>>, depth: nat): string {
    if members == [] then ""
    else
      (if fmt then Tabs(depth) else "") + Quoted(members[0].name) + (if fmt then ":\t" else ":")
      + Text(lib, fmt, members[0].value, depth) + (if |members| == 1 then "" else ",") + (if fmt then "\n" else "")
      + MembersText(lib, fmt, members[1..], depth)
  }

  // ----- parsing. s is the rest of the buffer, with the NUL at its end.

  // The last character is never skipped: at the end of the buffer the offset goes back by one.
  function SkipWs(s: string): (r: string)
    ensures |r| <= |s| && (s != "" ==> r != "")
  {
    if |s| > 1 && s[0] <= ' ' then SkipWs(s[1..]) else s
  }

  predicate IsNumberChar(c: char) {
    '0' <= c <= '9' || c == '+' || c == '-' || c == 'e' || c == 'E' || c == '.'
  }

  // The first characters of s that can be in a number, at most n.
  function NumberChars(s: string, n: nat): (r: string)
    ensures |r| <= |s|
  {
    if n == 0 || s == "" || !IsNumberChar(s[0]) then "" else [s[0]] + NumberChars(s[1..], n - 1)
  }

  lemma {:induction false} NumberCharsAre(s: string, i: nat, n: nat)
    requires i <= n && i <= |s| && forall j :: 0 <= j < i ==> IsNumberChar(s[j])
    requires i == n || i == |s| || !IsNumberChar(s[i])
    ensures NumberChars(s, n) == s[..i]
  {
    if i > 0 {
      NumberCharsAre(s[1..], i - 1, n - 1);
      assert s[..i] == [s[0]] + s[1..][..i - 1];
    }
  }

  predicate StartsWith(s: string, word: string) {
    |word| <= |s| && s[..|word|] == word
  }

  function ParseNumber<N>(lib: Libc<N>, s: string): (r: Parsed<Value<N>>)
    ensures r.Parsed? ==> |r.rest| < |s|
  {
    var digits := NumberChars(s, 63);
    var scan := lib.scan(digits);
    if scan.used == 0 || scan.used > |digits| then Failed else Parsed(Number(scan.n), s[scan.used..])
  }

  function ParseValue<N>(lib: Libc<N>, s: string, depth: nat): (r: Parsed<Value<N>>)
    ensures r.Parsed? ==> |r.rest| < |s|
    decreases |s|, 1
  {
    if StartsWith(s, "null") then Parsed(Null, s[4..])
    else if StartsWith(s, "false") then Parsed(Bool(false), s[5..])
    else if StartsWith(s, "true") then Parsed(Bool(true), s[4..])
    else if s == "" then Failed
    else if s[0] == '\"' then
      match ParseString(s)
      case Parsed(t, rest) => Parsed(String(t), rest)
      case Failed => Failed
    else if s[0] == '-' || '0' <= s[0] <= '9' then ParseNumber(lib, s)
    else if s[0] == '[' then
      match ParseArray(lib, s, depth)
      case Parsed(items, rest) => Parsed(Array(items), rest)
      case Failed => Failed
    else if s[0] == '{' then
      match ParseObject(lib, s, depth)
      case Parsed(members, rest) => Parsed(Object(members), rest)
      case Failed => Failed
    else Failed
  }

  function ParseArray<N>(lib: Libc<N>, s: string, depth: nat): (r: Parsed<seq<Value<N>>>)
    requires s != ""
    ensures r.Parsed? ==> |r.rest| < |s|
    decreases |s|, 0
  {
    if depth >= NESTING_LIMIT then Failed
    else
      var t := SkipWs(s[1..]);
      if t != "" && t[0] == ']' then Parsed([], t[1..]) else ParseItems(lib, t, depth + 1)
  }

  function ParseObject<N>(lib: Libc<N>, s: string, depth: nat): (r: Parsed<seq<Member<N>>>)
    requires s != ""
    ensures r.Parsed? ==> |r.rest| < |s|
    decreases |s|, 0
  {
    if depth >= NESTING_LIMIT then Failed
    else
      var t := SkipWs(s[1..]);
      if t != "" && t[0] == '}' then Parsed([], t[1..]) else ParseMembers(lib, t, depth + 1)
  }

  // The items of an array from one item on, and the closing bracket.
  function ParseItems<N>(lib: Libc<N>, s: string, depth: nat): (r: Parsed<seq<Value<N>>>)
    ensures r.Parsed? ==> |r.rest| < |s|
    decreases |s|, 2
  {
    match ParseValue(lib, SkipWs(s), depth)
    case Failed => Failed
    case Parsed(v, more) =>
      var t := SkipWs(more);
      if t != "" && t[0] == ',' then
        match ParseItems(lib, t[1..], depth)
        case Failed => Failed
        case Parsed(vs, rest) => Parsed([v] + vs, rest)
      else if t != "" && t[0] == ']' then Parsed([v], t[1..])
      else Failed
  }

  function ParseMember<N>(lib: Libc<N>, s: string, depth: nat): (r: Parsed<Member<N>>)
    ensures r.Parsed? ==> |r.rest| < |s|
    decreases |s|, 2
  {
    match ParseString(SkipWs(s))
    case Failed => Failed
    case Parsed(name, more) =>
      var t := SkipWs(more);
      if t == "" || t[0] != ':' then Failed
      else
        match ParseValue(lib, SkipWs(t[1..]), depth)
        case Failed => Failed
        case Parsed(v, rest) => Parsed(Member(name, v), rest)
  }

  function ParseMembers<N>(lib: Libc<N>, s: string, depth: nat): (r: Parsed<seq<Member<N>>>)
    ensures r.Parsed? ==> |r.rest| < |s|
    decreases |s|, 3
  {
    match ParseMember(lib, s, depth)
    case Failed => Failed
    case Parsed(m, more) =>
      var t := SkipWs(more);
      if t != "" && t[0] == ',' then
        match ParseMembers(lib, t[1..], depth)
        case Failed => Failed
        case Parsed(ms, rest) => Parsed([m] + ms, rest)
      else if t != "" && t[0] == '}' then Parsed([m], t[1..])
      else Failed
  }

  const BOM: string := [0xef as char, 0xbb as char, 0xbf as char]

  // Only skipped when a fifth character can be read.
  function SkipBom(s: string): string {
    if |s| > 4 && StartsWith(s, BOM) then s[3..] else s
  }

  // cJSON_ParseWithOpts on a C string.
  function Parse<N>(lib: Libc<N>, text: string, requireEnd: bool): Option<Value<N>> {
    match ParseValue(lib, SkipWs(SkipBom(text + "\0")), 0)
    case Failed => None
    case Parsed(v, rest) =>
      if !requireEnd then Some(v)
      else if StartsWith(SkipWs(rest), "\0") then Some(v)
      else None
  }
}
