// Putting a signature into a commit and taking it out again: commit.c. Texts are C strings
// without their terminator.

module SignedCommit {
  import opened CStrings
  import opened Options

  const DEFAULT_FIELD := "gpgsig"

  function FieldName(field: Option<string>): string {
    match field
    case Some(name) => name
    case None => DEFAULT_FIELD
  }

  // ----- the text of a signed commit

  // Each newline is followed by a space, which marks a continuation.
  function Fold(s: string): string {
    if s == "" then "" else if s[0] == '\n' then "\n " + Fold(s[1..]) else [s[0]] + Fold(s[1..])
  }

  // What format_header_field appends.
  function Block(field: string, signature: string): string {
    field + " " + Fold(signature) + "\n"
  }

  // Where the first blank line makes two newlines meet, |s| when there is none.
  function HeaderEnd(s: string): (n: nat)
    ensures n <= |s|
    ensures n < |s| ==> n + 1 < |s| && s[n] == '\n' && s[n + 1] == '\n'
  {
    if |s| < 2 then |s| else if s[0] == '\n' && s[1] == '\n' then 0 else 1 + HeaderEnd(s[1..])
  }

  // git_commit_create_with_signature: no text when the commit has no blank line.
  function Sign(commit: string, signature: string, field: string): Option<string> {
    var n := HeaderEnd(commit);
    if n == |commit| then None else Some(commit[..n + 1] + Block(field, signature) + commit[n + 1..])
  }

  // ----- git_commit_extract_signature

  function LineEnd(s: string): (n: nat)
    ensures n <= |s| && (n < |s| ==> s[n] == '\n') && '\n' !in s[..n]
  {
    if s == "" || s[0] == '\n' then 0 else 1 + LineEnd(s[1..])
  }

  // git__prefixcmp
  predicate StartsWith(s: string, prefix: string) {
    prefix <= s
  }

  datatype Value = Value(value: string, rest: string) | Unended

  function Prepend(c: char, v: Value): Value {
    if v.Value? then v.(value := [c] + v.value) else Unended
  }

  // The value of a field with its continuation lines, and the text behind it.
  function ReadValue(s: string): Value {
    if s == "" then Unended
    else if s[0] != '\n' then Prepend(s[0], ReadValue(s[1..]))
    else if |s| > 1 && s[1] == ' ' then Prepend('\n', ReadValue(s[2..]))
    else Value("", s[1..])
  }

  datatype Extracted = Signed(signature: string, commit: string) | NotSigned | Malformed

  // done is the signed data before s. A line that starts with the field name but has no space
  // behind it loses the name.
  function Extract(s: string, field: string, done: string): Extracted
    requires field != ""
    decreases |s|
  {
    var n := LineEnd(s);
    if n + 1 >= |s| then NotSigned
    else if !StartsWith(s, field) then Extract(s[n + 1..], field, done + s[..n + 1])
    else if |field| == |s| || s[|field|] != ' ' then Extract(s[|field|..], field, done)
    else Taken(ReadValue(s[|field| + 1..]), done)
  }

  function Taken(v: Value, done: string): Extracted {
    if v.Value? then Signed(v.value, done + v.rest) else Malformed
  }

  lemma NotBefore(s: string, n: nat, c: char)
    requires n <= |s| && c !in s[..n]
    ensures forall k :: 0 <= k < n ==> s[k] != c
  {
    forall k | 0 <= k < n ensures s[k] != c {
      assert s[k] == s[..n][k];
    }
  }

  // ----- reading undoes folding

  lemma {:induction false} FoldedIsRead(value: string, rest: string)
    requires rest == "" || rest[0] != ' '
    ensures ReadValue(Fold(value) + "\n" + rest) == Value(value, rest)
  {
    var s := Fold(value) + "\n" + rest;
    if value == "" {
      assert s == "\n" + rest && s[1..] == rest;
    } else {
      hide Fold;
      FoldedIsRead(value[1..], rest);
      var t := Fold(value[1..]) + "\n" + rest;
      FoldStep(value[0], value, rest);
      ReadStep(value[0], t);
      assert [value[0]] + value[1..] == value;
    }
  }

  // One character of the value is read.
  lemma ReadStep(c: char, t: string)
    ensures ReadValue((if c == '\n' then "\n " else [c]) + t) == Prepend(c, ReadValue(t))
  {
    var s := (if c == '\n' then "\n " else [c]) + t;
    assert s[if c == '\n' then 2 else 1..] == t;
  }

  lemma {:induction false} ReadIsFolded(s: string)
    ensures var v := ReadValue(s);
            v.Value? ==> s == Fold(v.value) + "\n" + v.rest && (v.rest == "" || v.rest[0] != ' ')
    decreases |s|
  {
    var v := ReadValue(s);
    if v.Value? {
      if s[0] != '\n' {
        ReadIsFolded(s[1..]);
        FoldStep(s[0], v.value, v.rest);
      } else if |s| > 1 && s[1] == ' ' {
        ReadIsFolded(s[2..]);
        FoldStep('\n', v.value, v.rest);
        assert s == "\n " + s[2..];
      } else {
        assert s == "\n" + s[1..];
      }
    }
  }

  lemma FoldStep(c: char, value: string, rest: string)
    requires value != "" && value[0] == c
    ensures Fold(value) + "\n" + rest == (if c == '\n' then "\n " else [c]) + (Fold(value[1..]) + "\n" + rest)
  {}

  // ----- what extraction does to the length

  lemma {:induction false} ExtractedFits(s: string, field: string, done: string)
    requires field != ""
    ensures var r := Extract(s, field, done);
            r.Signed? ==> |r.commit| + |Block(field, r.signature)| <= |done| + |s|
    decreases |s|
  {
    hide Fold;
    var n := LineEnd(s);
    if n + 1 >= |s| {
    } else if !StartsWith(s, field) {
      ExtractedFits(s[n + 1..], field, done + s[..n + 1]);
    } else if |field| == |s| || s[|field|] != ' ' {
      ExtractedFits(s[|field|..], field, done);
    } else {
      ReadIsFolded(s[|field| + 1..]);
    }
  }

  // ----- header lines that start with the field name

  predicate ValidField(field: string) {
    field != "" && field[0] != ' ' && '\n' !in field
  }

  predicate WholeLines(h: string) {
    h == "" || h[|h| - 1] == '\n'
  }

  // The header from its first line that starts with the field name.
  function FromField(h: string, field: string): string {
    if h == "" || StartsWith(h, field) then h
    else if LineEnd(h) == |h| then ""
    else FromField(h[LineEnd(h) + 1..], field)
  }

  lemma FromFieldLater(h: string, field: string)
    requires h != "" && !StartsWith(h, field) && LineEnd(h) < |h|
    ensures FromField(h, field) == FromField(h[LineEnd(h) + 1..], field)
  {
    hide LineEnd, StartsWith;
  }

  lemma WholeLine(h: string)
    requires WholeLines(h) && h != ""
    ensures var n := LineEnd(h); n < |h| && WholeLines(h[n + 1..])
  {
    hide LineEnd;
    var n := LineEnd(h);
    NotBefore(h, n, '\n');
    assert n + 1 < |h| ==> h[n + 1..][|h| - n - 2] == h[|h| - 1];
  }

  lemma {:induction false} FromFieldIsTail(h: string, field: string)
    ensures var t := FromField(h, field);
            && |t| <= |h| && t == h[|h| - |t|..] && (t == "" || StartsWith(t, field))
            && (WholeLines(h) ==> WholeLines(t))
    decreases |h|
  {
    hide LineEnd, StartsWith;
    if h == "" || StartsWith(h, field) || LineEnd(h) == |h| {
    } else {
      hide FromField;
      var later := h[LineEnd(h) + 1..];
      if WholeLines(h) {
        WholeLine(h);
      }
      FromFieldLater(h, field);
      FromFieldIsTail(later, field);
      assert later[|later| - |FromField(later, field)|..] == h[|h| - |FromField(later, field)|..];
    }
  }

  // Lines that do not start with the field name are copied.
  lemma {:induction false} LinesAreCopied(h: string, more: string, field: string, done: string)
    requires ValidField(field) && WholeLines(h) && more != ""
    ensures var t := FromField(h, field);
            && |t| <= |h|
            && Extract(h + more, field, done) == Extract(t + more, field, done + h[..|h| - |t|])
    decreases |h|
  {
    hide Extract, LineEnd, FromField, WholeLines, StartsWith;
    FromFieldIsTail(h, field);
    FromFieldStep(h, field);
    if h == "" || StartsWith(h, field) {
      assert done + h[..0] == done;
    } else {
      var n, t := LineEnd(h), FromField(h, field);
      var line, later := h[..n + 1], h[n + 1..];
      LineIsCopied(h, more, field, done);
      LinesAreCopied(later, more, field, done + line);
      SliceJoined(h, n + 1, |h| - |t|);
      Regroup(done, line, later[..|later| - |t|]);
    }
  }

  lemma SliceJoined(h: string, m: nat, k: nat)
    requires m <= k <= |h|
    ensures h[..m] + h[m..][..k - m] == h[..k]
  {}

  lemma FromFieldStep(h: string, field: string)
    requires WholeLines(h)
    ensures h == "" || StartsWith(h, field) ==> FromField(h, field) == h
    ensures h != "" && !StartsWith(h, field) ==>
      var n := LineEnd(h);
      n < |h| && FromField(h, field) == FromField(h[n + 1..], field) && WholeLines(h[n + 1..])
        && |FromField(h, field)| <= |h| - n - 1
  {
    hide LineEnd, StartsWith;
    if h != "" && !StartsWith(h, field) {
      WholeLine(h);
      var n := LineEnd(h);
      hide FromField;
      FromFieldLater(h, field);
      FromFieldIsTail(h[n + 1..], field);
    }
  }

  lemma Regroup(a: string, b: string, c: string)
    ensures a + (b + c) == (a + b) + c
  {}

  lemma LineIsCopied(h: string, more: string, field: string, done: string)
    requires ValidField(field) && LineEnd(h) < |h| && !StartsWith(h, field) && more != ""
    ensures var n := LineEnd(h);
            Extract(h + more, field, done) == Extract(h[n + 1..] + more, field, done + h[..n + 1])
  {
    hide Extract, StartsWith, LineEnd;
    var n := LineEnd(h);
    FirstLine(h, more);
    FieldInLine(h, more, field);
    ExtractLine(h + more, field, done);
    assert (h + more)[n + 1..] == h[n + 1..] + more && (h + more)[..n + 1] == h[..n + 1];
  }

  lemma ExtractLine(s: string, field: string, done: string)
    requires field != "" && LineEnd(s) + 1 < |s| && !StartsWith(s, field)
    ensures var n := LineEnd(s); Extract(s, field, done) == Extract(s[n + 1..], field, done + s[..n + 1])
  {}

  lemma {:induction false} FirstLine(h: string, more: string)
    requires '\n' in h
    ensures LineEnd(h + more) == LineEnd(h) < |h|
  {
    if h[0] != '\n' {
      assert (h + more)[1..] == h[1..] + more;
      FirstLine(h[1..], more);
    }
  }

  lemma InFront(a: string, b: string)
    requires a <= b
    ensures forall k :: 0 <= k < |a| ==> a[k] == b[k]
  {}

  lemma FieldInLine(h: string, more: string, field: string)
    requires '\n' in h && '\n' !in field
    ensures StartsWith(h + more, field) <==> StartsWith(h, field)
  {
    var i :| 0 <= i < |h| && h[i] == '\n';
    assert (h + more)[i] == h[i];
    NotBefore(field, |field|, '\n');
    if StartsWith(h + more, field) {
      InFront(field, h + more);
      assert field == (h + more)[..|field|] == h[..|field|];
    }
  }

  // ----- when the signature and the commit come back

  // t is some number of copies of block, one after the other.
  predicate Copies(t: string, block: string)
    decreases |t|
  {
    t == "" || (block != "" && block <= t && Copies(t[|block|..], block))
  }

  // Every newline within a block has a space behind it, and a block does not start with one.
  lemma {:induction false} FoldedNewlines(s: string, i: nat)
    requires i < |Fold(s)| && Fold(s)[i] == '\n'
    ensures (Fold(s) + "\n")[i + 1] == ' '
  {
    var first := if s[0] == '\n' then "\n " else [s[0]];
    if i >= |first| {
      FoldedNewlines(s[1..], i - |first|);
      assert Fold(s) + "\n" == first + (Fold(s[1..]) + "\n");
    }
  }

  lemma BlockNewlines(field: string, signature: string, i: nat)
    requires ValidField(field)
    requires i + 1 < |Block(field, signature)| && Block(field, signature)[i] == '\n'
    ensures Block(field, signature)[i + 1] == ' '
  {
    hide Fold;
    var b := Block(field, signature);
    assert b == (field + " ") + (Fold(signature) + "\n");
    NotBefore(field, |field|, '\n');
    FoldedNewlines(signature, i - |field| - 1);
  }

  lemma {:induction false} CopiesCommute(t: string, block: string)
    requires Copies(t, block)
    ensures t + block == block + t
    decreases |t|
  {
    if t != "" {
      var rest := t[|block|..];
      CopiesCommute(rest, block);
      assert t == block + rest;
      assert block + rest + block == block + (rest + block);
    } else {
      assert t + block == block == block + t;
    }
  }

  lemma {:induction false} CommutingAreCopies(t: string, field: string, signature: string)
    requires ValidField(field) && WholeLines(t)
    requires t + Block(field, signature) == Block(field, signature) + t
    ensures Copies(t, Block(field, signature))
    decreases |t|
  {
    hide Fold;
    var b := Block(field, signature);
    if t != "" {
      NoShorter(t, field, signature);
      hide Block;
      var rest := t[|b|..];
      FrontOff(t, b);
      CommutingAreCopies(rest, field, signature);
    }
  }

  lemma FrontOff(t: string, b: string)
    requires |b| <= |t| && t + b == b + t
    ensures b <= t && t[|b|..] + b == b + t[|b|..]
  {
    assert b == (b + t)[..|b|] == (t + b)[..|b|] == t[..|b|];
    var rest := t[|b|..];
    assert t == b + rest;
    assert (t + b)[|b|..] == rest + b && (b + t)[|b|..] == t;
  }

  // Lines that commute with a block are no shorter: a newline within a block has a space behind it.
  lemma NoShorter(t: string, field: string, signature: string)
    requires ValidField(field) && WholeLines(t) && t != ""
    requires t + Block(field, signature) == Block(field, signature) + t
    ensures |Block(field, signature)| <= |t|
  {
    hide Fold;
    var b := Block(field, signature);
    if |t| < |b| {
      assert (t + b)[|t|] == b[0] == field[0];
      assert t[|t| - 1] == (t + b)[|t| - 1] == (b + t)[|t| - 1] == b[|t| - 1];
      BlockNewlines(field, signature, |t| - 1);
      assert false;
    }
  }

  // The first line of t, which starts with the field name.
  lemma FieldIsTaken(t: string, more: string, field: string, done: string)
    requires ValidField(field) && StartsWith(t, field) && WholeLines(t) && more != ""
    ensures |field| < |t|
    ensures Extract(t + more, field, done) ==
            if t[|field|] != ' ' then Extract((t + more)[|field|..], field, done)
            else Taken(ReadValue((t + more)[|field| + 1..]), done)
  {
    hide ReadValue;
    NotBefore(field, |field|, '\n');
    FirstLine(t, more);
  }

  // A block is taken for what it is.
  lemma BlockIsTaken(signature: string, rest: string, field: string, done: string)
    requires ValidField(field) && rest != "" && rest[0] != ' '
    ensures Extract(Block(field, signature) + rest, field, done) == Signed(signature, done + rest)
  {
    hide ReadValue, Fold, Extract;
    var b := Block(field, signature);
    FieldIsTaken(b, rest, field, done);
    assert (b + rest)[|field| + 1..] == Fold(signature) + "\n" + rest;
    FoldedIsRead(signature, rest);
  }

  // The header is a + t, where t starts with the field name or is empty.
  lemma CopiesComeBack(t: string, tail: string, field: string, signature: string, done: string)
    requires ValidField(field) && tail != "" && tail[0] == '\n'
    requires Copies(t, Block(field, signature))
    ensures Extract(t + (Block(field, signature) + tail), field, done) == Signed(signature, done + t + tail)
  {
    hide Extract, Fold, Block;
    var b := Block(field, signature);
    BlockStarts(field, signature);
    if t == "" {
      assert t + (b + tail) == b + tail && done + t == done;
      BlockIsTaken(signature, tail, field, done);
    } else {
      var rest := t[|b|..];
      CopiesCommute(rest, b);
      assert t == b + rest;
      Regroup(t, b, tail);
      Regroup(b, rest, b);
      Regroup(b, rest + b, tail);
      BlockIsTaken(signature, rest + b + tail, field, done);
      Regroup(done, t, tail);
    }
  }

  lemma BlockStarts(field: string, signature: string)
    requires ValidField(field)
    ensures var b := Block(field, signature);
            StartsWith(b, field) && |field| + 1 < |b| && b[|field|] == ' ' && b[0] != ' ' && b[0] != '\n'
  {
    hide Fold;
    var b := Block(field, signature);
    assert b[0] == field[0];
    assert field[0] in field;
  }

  lemma OnlyCopiesComeBack(t: string, tail: string, field: string, signature: string, done: string)
    requires ValidField(field) && WholeLines(t) && (t == "" || StartsWith(t, field)) && tail != ""
    requires Extract(t + (Block(field, signature) + tail), field, done) == Signed(signature, done + t + tail)
    ensures Copies(t, Block(field, signature))
  {
    hide Extract, Fold, Copies, ReadValue, Block;
    var b := Block(field, signature);
    if t == "" {
      NoCopies(b);
    } else {
      var s := t + (b + tail);
      FieldIsTaken(t, b + tail, field, done);
      if t[|field|] != ' ' {
        ExtractedFits(s[|field|..], field, done);
        assert false;
      } else {
        var v := ReadValue(s[|field| + 1..]);
        SameTail(done, v.rest, t, tail);
        ReadIsFolded(s[|field| + 1..]);
        BlockInFront(s, field, signature, t + tail);
        assert (t + b)[..] == (b + t)[..] by {
          assert s[..|t| + |b|] == t + b && (b + (t + tail))[..|t| + |b|] == b + t;
        }
        CommutingAreCopies(t, field, signature);
      }
    }
  }

  lemma BlockInFront(s: string, field: string, signature: string, rest: string)
    requires StartsWith(s, field) && |field| < |s| && s[|field|] == ' '
    requires s[|field| + 1..] == Fold(signature) + "\n" + rest
    ensures s == Block(field, signature) + rest
  {
    hide Fold;
    assert s == field + " " + s[|field| + 1..];
  }

  lemma NoCopies(block: string)
    ensures Copies("", block)
  {}

  lemma SameTail(done: string, rest: string, t: string, tail: string)
    requires done + rest == done + t + tail
    ensures rest == t + tail
  {
    assert rest == (done + rest)[|done|..];
    assert t + tail == (done + t + tail)[|done|..];
  }

  // A signature is found wherever it is among the lines, and the other lines are what was signed, if none of those
  // in front of it starts with the field name.
  lemma SignatureIsFound(before: string, signature: string, after: string, field: string)
    requires ValidField(field) && WholeLines(before) && FromField(before, field) == ""
    requires after != "" && after[0] != ' '
    ensures Extract(before + Block(field, signature) + after, field, "") == Signed(signature, before + after)
  {
    hide Extract, Block, FromField, WholeLines;
    var b := Block(field, signature);
    Regroup(before, b, after);
    LinesAreCopied(before, b + after, field, "");
    assert before[..|before|] == before && "" + before == before && "" + (b + after) == b + after;
    BlockIsTaken(signature, after, field, before);
  }

  // Where no line starts with the field name nothing is found.
  lemma {:induction false} NothingIsFound(text: string, field: string, done: string)
    requires ValidField(field) && FromField(text, field) == ""
    ensures Extract(text, field, done) == NotSigned
    decreases |text|
  {
    hide LineEnd, StartsWith;
    var n := LineEnd(text);
    if n + 1 < |text| {
      NothingIsFound(text[n + 1..], field, done + text[..n + 1]);
    }
  }

  // The header lines of a commit that has a blank line.
  function Header(commit: string): string
    requires HeaderEnd(commit) < |commit|
  {
    commit[..HeaderEnd(commit) + 1]
  }

  lemma SplitComesBack(h: string, tail: string, signature: string, field: string)
    requires ValidField(field) && WholeLines(h) && tail != "" && tail[0] == '\n'
    ensures Extract(h + Block(field, signature) + tail, field, "") == Signed(signature, h + tail)
            <==> Copies(FromField(h, field), Block(field, signature))
  {
    hide Extract, Block, Copies, FromField, WholeLines, StartsWith;
    var b, t := Block(field, signature), FromField(h, field);
    FromFieldIsTail(h, field);
    var done := h[..|h| - |t|];
    Regroup(h, b, tail);
    LinesAreCopied(h, b + tail, field, "");
    assert "" + done == done && done + t == h;
    if Copies(t, b) {
      CopiesComeBack(t, tail, field, signature, done);
    }
    if Extract(t + (b + tail), field, done) == Signed(signature, h + tail) {
      OnlyCopiesComeBack(t, tail, field, signature, done);
    }
  }

  // The signature and the commit come back from the signed text in just this case: no header line
  // starts with the field name, or the header from the first such line on is this very signature,
  // any number of times.
  lemma SignatureComesBack(commit: string, signature: string, field: string)
    requires ValidField(field) && HeaderEnd(commit) < |commit|
    ensures var signed := Sign(commit, signature, field);
            && signed.Some?
            && (Extract(signed.value, field, "") == Signed(signature, commit)
                <==> Copies(FromField(Header(commit), field), Block(field, signature)))
  {
    hide Extract, Block, Copies, FromField;
    var n := HeaderEnd(commit);
    var h, tail := commit[..n + 1], commit[n + 1..];
    assert h + tail == commit;
    SplitComesBack(h, tail, signature, field);
  }

  // So they do when no header line starts with the field name.
  lemma {:induction false} NoFieldLine(h: string, field: string)
    requires forall i :: 0 <= i < |h| && (i == 0 || h[i - 1] == '\n') ==> !StartsWith(h[i..], field)
    ensures WholeLines(h) ==> FromField(h, field) == ""
    decreases |h|
  {
    if h != "" && LineEnd(h) < |h| {
      assert h[0..] == h;
      var n := LineEnd(h);
      var later := h[n + 1..];
      forall i | 0 <= i < |later| && (i == 0 || later[i - 1] == '\n') ensures !StartsWith(later[i..], field) {
        assert later[i..] == h[n + 1 + i..];
        assert h[n + 1 + i - 1] == '\n';
      }
      NoFieldLine(later, field);
    } else if h != "" {
      assert h[..|h|] == h;
    }
  }

  lemma UnsignedCommitComesBack(commit: string, signature: string, field: string)
    requires ValidField(field) && HeaderEnd(commit) < |commit|
    requires var h := Header(commit);
             forall i :: 0 <= i < |h| && (i == 0 || h[i - 1] == '\n') ==> !StartsWith(h[i..], field)
    ensures Extract(Sign(commit, signature, field).value, field, "") == Signed(signature, commit)
  {
    hide Extract, Sign, FromField, Block;
    NoFieldLine(Header(commit), field);
    SignatureComesBack(commit, signature, field);
    NoCopies(Block(field, signature));
  }

  // A header line that starts with the name but is another field loses the name: such a commit
  // never comes back.
  lemma OtherFieldIsCut(commit: string, signature: string, field: string)
    requires ValidField(field) && HeaderEnd(commit) < |commit|
    requires var t := FromField(Header(commit), field); |field| < |t| && t[|field|] != ' '
    ensures Extract(Sign(commit, signature, field).value, field, "") != Signed(signature, commit)
  {
    hide Extract, Sign, FromField, Block;
    SignatureComesBack(commit, signature, field);
    BlockStarts(field, signature);
  }

  lemma OtherFieldExists()
    ensures var commit := DEFAULT_FIELD + "ned x" + "\n\n";
            && HeaderEnd(commit) < |commit|
            && Extract(Sign(commit, "s", DEFAULT_FIELD).value, DEFAULT_FIELD, "") != Signed("s", commit)
  {
    hide Extract, Sign, HeaderEnd;
    var line := DEFAULT_FIELD + "ned x";
    var commit := line + "\n\n";
    HeaderEndIs(commit, |line|);
    var h := Header(commit);
    assert h == line + "\n" && h[..6] == DEFAULT_FIELD;
    OtherFieldIsCut(commit, "s", DEFAULT_FIELD);
  }

  lemma {:induction false} HeaderEndIs(s: string, n: nat)
    requires n + 1 < |s| && s[n] == '\n' && s[n + 1] == '\n'
    requires '\n' !in s[..n]
    ensures HeaderEnd(s) == n
  {
    if n > 0 {
      assert s[0] in s[..n];
      assert s[1..][..n - 1] == s[..n][1..];
      HeaderEndIs(s[1..], n - 1);
    }
  }

  // ----- the loops

  // format_header_field
  method FormatHeaderField(out: string, field: string, content: string) returns (r: string)
    ensures r == out + Block(field, content)
  {
    hide Fold;
    r := out + field;
    r := r + " ";
    var at := 0;
    var lf := FindFrom(content, '\n', 0);
    while lf < |content|
      invariant 0 <= at <= lf <= |content| && '\n' !in content[at..lf]
      invariant lf < |content| ==> content[lf] == '\n'
      invariant out + field + " " + Fold(content) == r + Fold(content[at..])
      decreases |content| - at
    {
      FoldLine(content[at..], lf - at);
      ghost var before := r;
      r := r + content[at..lf];
      r := r + "\n ";
      at := lf + 1;
      lf := FindFrom(content, '\n', at);
    }
    FoldPlain(content[at..]);
    r := r + content[at..];
    r := r + "\n";
  }

  lemma {:induction false} FoldPlain(s: string)
    requires '\n' !in s
    ensures Fold(s) == s
  {
    if s != "" {
      FoldPlain(s[1..]);
    }
  }

  lemma {:induction false} FoldLine(s: string, n: nat)
    requires n < |s| && '\n' !in s[..n] && s[n] == '\n'
    ensures Fold(s) == s[..n] + "\n " + Fold(s[n + 1..])
  {
    if n > 0 {
      FoldLine(s[1..], n - 1);
      assert s[..n] == [s[0]] + s[1..][..n - 1] && s[1..][n..] == s[n + 1..];
    }
  }

  // strstr for two newlines: |s| when there are none.
  method FindHeaderEnd(s: string) returns (n: nat)
    ensures n == HeaderEnd(s)
  {
    hide HeaderEnd;
    n := 0;
    assert s[0..] == s;
    while n + 1 < |s| && (s[n] != '\n' || s[n + 1] != '\n')
      invariant 0 <= n <= |s| && HeaderEnd(s) == n + HeaderEnd(s[n..])
    {
      HeaderEndStep(s[n..]);
      assert s[n..][1..] == s[n + 1..];
      n := n + 1;
    }
    HeaderEndStep(s[n..]);
    if n + 1 >= |s| {
      n := |s|;
    }
  }

  lemma HeaderEndStep(s: string)
    ensures HeaderEnd(s) == if |s| < 2 then |s| else if s[0] == '\n' && s[1] == '\n' then 0 else 1 + HeaderEnd(s[1..])
  {}

  // git_commit_create_with_signature
  method CreateWithSignature(commit: string, signature: string, field: Option<string>)
    returns (signed: Option<string>)
    ensures signed == Sign(commit, signature, FieldName(field))
  {
    hide Block, HeaderEnd;
    var headerEnd := FindHeaderEnd(commit);
    if headerEnd == |commit| {
      return None;
    }
    headerEnd := headerEnd + 1;
    var text := commit[..headerEnd];
    text := FormatHeaderField(text, FieldName(field), signature);
    text := text + commit[headerEnd..];
    return Some(text);
  }

  // git_commit_extract_signature, from the text of the commit object.
  method ExtractSignature(text: string, signatureField: Option<string>) returns (r: Extracted)
    requires FieldName(signatureField) != ""
    ensures r == Extract(text, FieldName(signatureField), "")
  {
    hide Extract, ReadValue;
    var field := FieldName(signatureField);
    var data := "";
    var buf := 0;
    assert text[0..] == text;
    var h := FindFrom(text, '\n', 0);
    while h + 1 < |text|
      invariant 0 <= buf <= h <= |text| && '\n' !in text[buf..h] && (h < |text| ==> text[h] == '\n')
      invariant Extract(text, field, "") == Extract(text[buf..], field, data)
      decreases |text| - buf
    {
      ExtractStep(text, buf, h, field, data);
      if !StartsWith(text[buf..], field) {
        data := data + text[buf..h + 1];
        buf := h + 1;
      } else if buf + |field| == |text| || text[buf + |field|] != ' ' {
        buf := buf + |field|;
      } else {
        var v := ReadFieldValue(text, buf + |field| + 1);
        match v {
          case Unended => return Malformed;
          case Value(signature, after) => return Signed(signature, data + after);
        }
      }
      h := FindFrom(text, '\n', buf);
    }
    ExtractStep(text, buf, h, field, data);
    return NotSigned;
  }

  // The lines of a value: the first one, then each that starts with a space.
  method ReadFieldValue(text: string, start: nat) returns (v: Value)
    requires start <= |text|
    ensures v == ReadValue(text[start..])
  {
    hide ReadValue, Continued, Joined;
    var h := start;
    var eol := FindFrom(text, '\n', h);
    ReadLineAt(text, h, eol);
    if eol == |text| {
      return Unended;
    }
    var value := text[h..eol];
    ContinuedAt(text, eol + 1, value);
    while eol + 1 < |text| && text[eol + 1] == ' '
      invariant 0 <= eol < |text|
      invariant ReadValue(text[start..]) == Joined(value, Continued(text[eol + 1..]))
      decreases |text| - eol
    {
      ContinuedAt(text, eol + 1, value);
      value := value + "\n";
      h := eol + 2;
      eol := FindFrom(text, '\n', h);
      ReadLineAt(text, h, eol);
      JoinedUnended(value);
      if eol == |text| {
        return Unended;
      }
      JoinedTwice(value, text[h..eol], Continued(text[eol + 1..]));
      value := value + text[h..eol];
    }
    ContinuedAt(text, eol + 1, value);
    return Value(value, text[eol + 1..]);
  }

  lemma ReadLineAt(text: string, h: nat, eol: nat)
    requires h <= eol <= |text| && '\n' !in text[h..eol] && (eol < |text| ==> text[eol] == '\n')
    ensures ReadValue(text[h..]) ==
            if eol == |text| then Unended else Joined(text[h..eol], Continued(text[eol + 1..]))
  {
    hide ReadValue, Continued, Joined;
    var s := text[h..];
    assert s[..eol - h] == text[h..eol];
    ReadLine(s, eol - h);
    assert eol < |text| ==> s[eol - h + 1..] == text[eol + 1..];
  }

  lemma ContinuedAt(text: string, k: nat, value: string)
    requires k <= |text|
    ensures Joined(value, Continued(text[k..])) ==
            if k < |text| && text[k] == ' ' then Joined(value + "\n", ReadValue(text[k + 1..]))
            else Value(value, text[k..])
  {
    hide ReadValue;
    var s := text[k..];
    assert s != "" ==> s[1..] == text[k + 1..];
  }

  lemma JoinedUnended(value: string)
    ensures Joined(value, Unended) == Unended
  {}

  // What follows the end of a line: nothing more of the value, or a newline and the next line.
  function Continued(s: string): Value {
    if s != "" && s[0] == ' ' then Prepend('\n', ReadValue(s[1..])) else Value("", s)
  }

  function Joined(value: string, v: Value): Value {
    if v.Value? then v.(value := value + v.value) else Unended
  }

  lemma JoinedTwice(a: string, b: string, v: Value)
    ensures Joined(a + b, v) == Joined(a, Joined(b, v))
  {}

  lemma PrependJoined(c: char, value: string, v: Value)
    ensures Prepend(c, Joined(value, v)) == Joined([c] + value, v)
  {}

  lemma {:induction false} ReadLine(s: string, n: nat)
    requires n <= |s| && '\n' !in s[..n] && (n < |s| ==> s[n] == '\n')
    ensures ReadValue(s) == if n == |s| then Unended else Joined(s[..n], Continued(s[n + 1..]))
  {
    if n > 0 {
      hide Continued;
      NotBefore(s, n, '\n');
      var t := s[1..];
      assert '\n' !in t[..n - 1] by {
        assert t[..n - 1] == s[..n][1..];
      }
      ReadLine(t, n - 1);
      if n < |s| {
        assert t[n..] == s[n + 1..] && s[..n] == [s[0]] + t[..n - 1];
        PrependJoined(s[0], t[..n - 1], Continued(s[n + 1..]));
      }
    }
  }

  lemma LineEndIs(s: string, n: nat)
    requires n <= |s| && '\n' !in s[..n] && (n < |s| ==> s[n] == '\n')
    ensures LineEnd(s) == n
  {
    var m := LineEnd(s);
    NotBefore(s, n, '\n');
    NotBefore(s, m, '\n');
  }

  lemma ExtractStep(text: string, buf: nat, h: nat, field: string, done: string)
    requires field != ""
    requires buf <= h <= |text| && '\n' !in text[buf..h] && (h < |text| ==> text[h] == '\n')
    ensures Extract(text[buf..], field, done) ==
            if h + 1 >= |text| then NotSigned
            else if !StartsWith(text[buf..], field) then Extract(text[h + 1..], field, done + text[buf..h + 1])
            else if buf + |field| == |text| || text[buf + |field|] != ' ' then
              Extract(text[buf + |field|..], field, done)
            else Taken(ReadValue(text[buf + |field| + 1..]), done)
  {
    hide LineEnd, ReadValue, Taken;
    var s := text[buf..];
    assert s[..h - buf] == text[buf..h];
    LineEndIs(s, h - buf);
    assert h < |text| ==> s[h - buf + 1..] == text[h + 1..] && s[..h - buf + 1] == text[buf..h + 1];
    assert |field| <= |s| ==> s[|field|..] == text[buf + |field|..];
    assert |field| < |s| ==> s[|field| + 1..] == text[buf + |field| + 1..];
  }

  // Signing, and taking the signature out again.
  method SignAndExtract(commit: string, signature: string, field: Option<string>) returns (r: Extracted)
    requires ValidField(FieldName(field))
    ensures HeaderEnd(commit) == |commit| ==> r == NotSigned
    ensures HeaderEnd(commit) < |commit| ==>
      (r == Signed(signature, commit)
       <==> Copies(FromField(Header(commit), FieldName(field)), Block(FieldName(field), signature)))
  {
    hide Extract, Block, HeaderEnd, FromField, Copies;
    var signed := CreateWithSignature(commit, signature, field);
    if signed.None? {
      return NotSigned;
    }
    SignatureComesBack(commit, signature, FieldName(field));
    r := ExtractSignature(signed.value, field);
  }
}
