// Applying the text hunks of a patch: apply.c.

module PatchApply {
  import opened Options

  datatype Origin = Context | Deletion | Addition | Other

  datatype HunkLine<L> = HunkLine(origin: Origin, line: L)

  // newStart is the number of the first line of the new side, from one; when the new side is empty
  // it is the number of the line in front of it.
  datatype Hunk<L> = Hunk(newStart: nat, lines: seq<HunkLine<L>>)

  // ----- the two sides of a hunk

  function Pre<L>(lines: seq<HunkLine<L>>): seq<L> {
    if lines == [] then []
    else (if lines[0].origin == Context || lines[0].origin == Deletion then [lines[0].line] else []) + Pre(lines[1..])
  }

  function Post<L>(lines: seq<HunkLine<L>>): seq<L> {
    if lines == [] then []
    else (if lines[0].origin == Context || lines[0].origin == Addition then [lines[0].line] else []) + Post(lines[1..])
  }

  // ----- what applying a hunk does

  function Min(a: nat, b: nat): nat {
    if a < b then a else b
  }

  // Where the hunk is looked for.
  function Place<L>(image: seq<L>, h: Hunk<L>): nat {
    Min(if h.newStart > 0 then h.newStart - 1 else 0, |image|)
  }

  predicate MatchesAt<L(==)>(image: seq<L>, pre: seq<L>, at: nat) {
    |pre| + at <= |image| && image[at..at + |pre|] == pre
  }

  // Line at on: the preimage goes out, and the postimage comes in.
  function Updated<L>(image: seq<L>, at: nat, pre: seq<L>, post: seq<L>): seq<L>
    requires |pre| + at <= |image|
  {
    image[..at] + post + image[at + |pre|..]
  }

  function Applied<L(==)>(image: seq<L>, h: Hunk<L>): Option<seq<L>> {
    var at := Place(image, h);
    if MatchesAt(image, Pre(h.lines), at) then Some(Updated(image, at, Pre(h.lines), Post(h.lines))) else None
  }

  function AllApplied<L(==)>(image: seq<L>, hunks: seq<Hunk<L>>): Option<seq<L>>
    decreases |hunks|
  {
    if hunks == [] then Some(image)
    else
      match Applied(image, hunks[0])
      case None => None
      case Some(next) => AllApplied(next, hunks[1..])
  }

  // ----- what a patch describes

  // Where the new side of a hunk begins in the new file, from zero.
  function Start<L>(h: Hunk<L>): nat {
    if h.newStart > 0 && Post(h.lines) != [] then h.newStart - 1 else h.newStart
  }

  // From line po of old and line pn of new on, the hunks lead from old to new.
  predicate Describes<L(==)>(old_: seq<L>, new_: seq<L>, po: nat, pn: nat, hunks: seq<Hunk<L>>)
    decreases |hunks|
  {
    && po <= |old_| && pn <= |new_|
    && if hunks == [] then old_[po..] == new_[pn..]
       else
         var h := hunks[0];
         var pre, post, s := Pre(h.lines), Post(h.lines), Start(h);
         && pn <= s && s + |post| <= |new_| && po + (s - pn) + |pre| <= |old_|
         && old_[po..po + (s - pn)] == new_[pn..s]
         && old_[po + (s - pn)..po + (s - pn) + |pre|] == pre
         && new_[s..s + |post|] == post
         && Describes(old_, new_, po + (s - pn) + |pre|, s + |post|, hunks[1..])
  }

  // A hunk is looked for where it belongs, unless its new side is empty and not at the start of
  // the file: then it is looked for one line too early, and found there only when all the lines
  // that go out are the same as the line in front of them.
  predicate Found<L(==)>(new_: seq<L>, h: Hunk<L>) {
    || h.newStart == 0 || Post(h.lines) != []
    || (h.newStart <= |new_| && forall i :: 0 <= i < |Pre(h.lines)| ==> Pre(h.lines)[i] == new_[h.newStart - 1])
  }

  // ----- one hunk

  // While the hunks are applied the image is the start of new and the end of old.
  function Image<L>(old_: seq<L>, new_: seq<L>, po: nat, pn: nat): seq<L>
    requires po <= |old_| && pn <= |new_|
  {
    new_[..pn] + old_[po..]
  }

  lemma Parts<L>(old_: seq<L>, new_: seq<L>, po: nat, pn: nat, g: nat, pre: seq<L>)
    requires pn + g <= |new_| && po + g + |pre| <= |old_|
    requires old_[po..po + g] == new_[pn..pn + g] && old_[po + g..po + g + |pre|] == pre
    ensures Image(old_, new_, po, pn) == new_[..pn + g] + pre + old_[po + g + |pre|..]
  {
    assert old_[po..] == old_[po..po + g] + old_[po + g..po + g + |pre|] + old_[po + g + |pre|..];
    assert new_[..pn + g] == new_[..pn] + new_[pn..pn + g];
  }

  // The preimage begins at the line behind front; it is also found one line earlier just when all
  // its lines are like the last of front.
  lemma OneTooEarly<L>(front: seq<L>, pre: seq<L>, back: seq<L>)
    requires front != []
    ensures MatchesAt(front + pre + back, pre, |front| - 1) <==>
      forall i :: 0 <= i < |pre| ==> pre[i] == front[|front| - 1]
    ensures MatchesAt(front + pre + back, pre, |front| - 1) ==>
      Updated(front + pre + back, |front| - 1, pre, []) == front + back
  {
    var image, last := front + pre + back, front[|front| - 1];
    var window := image[|front| - 1..|front| - 1 + |pre|];
    assert forall i :: 0 <= i < |pre| ==> window[i] == if i == 0 then last else pre[i - 1];
    if window == pre {
      forall i | 0 <= i < |pre| ensures pre[i] == last {
        LikeFirst(pre, last, window, i);
      }
      assert image[|front| - 1 + |pre|..] == [last] + back;
      assert front == front[..|front| - 1] + [last];
    } else {
      LikeNone(pre, last, window);
    }
  }

  lemma {:induction false} LikeFirst<L>(pre: seq<L>, last: L, window: seq<L>, i: nat)
    requires i < |pre| && window == pre
    requires forall j :: 0 <= j < |pre| ==> window[j] == if j == 0 then last else pre[j - 1]
    ensures pre[i] == last
  {
    assert window[i] == pre[i];
    if i > 0 {
      LikeFirst(pre, last, window, i - 1);
    }
  }

  lemma LikeNone<L>(pre: seq<L>, last: L, window: seq<L>)
    requires |window| == |pre| && window != pre
    requires forall i :: 0 <= i < |pre| ==> window[i] == if i == 0 then last else pre[i - 1]
    ensures exists i :: 0 <= i < |pre| && pre[i] != last
  {
    var i :| 0 <= i < |pre| && window[i] != pre[i];
    assert i == 0 || pre[i - 1] != pre[i];
  }

  lemma InPlace<L>(front: seq<L>, pre: seq<L>, back: seq<L>, post: seq<L>)
    ensures MatchesAt(front + pre + back, pre, |front|)
    ensures Updated(front + pre + back, |front|, pre, post) == front + post + back
  {
    var image := front + pre + back;
    assert image[|front|..|front| + |pre|] == pre && image[|front| + |pre|..] == back && image[..|front|] == front;
  }

  // One hunk takes the image forward, or is not found.
  lemma HunkApplies<L>(old_: seq<L>, new_: seq<L>, po: nat, pn: nat, hunks: seq<Hunk<L>>)
    requires hunks != [] && Describes(old_, new_, po, pn, hunks)
    ensures var h := hunks[0];
            var g := Start(h) - pn;
            Applied(Image(old_, new_, po, pn), h) ==
              if Found(new_, h)
              then Some(Image(old_, new_, po + g + |Pre(h.lines)|, Start(h) + |Post(h.lines)|))
              else None
  {
    hide Pre, Post, MatchesAt, Updated;
    var h := hunks[0];
    var pre, post, s := Pre(h.lines), Post(h.lines), Start(h);
    var g := s - pn;
    Parts(old_, new_, po, pn, g, pre);
    var front, back, image := new_[..s], old_[po + g + |pre|..], Image(old_, new_, po, pn);
    assert new_[..s + |post|] == front + post;
    if h.newStart == 0 || post != [] {
      InPlace(front, pre, back, post);
    } else {
      OneTooEarly(front, pre, back);
      assert front[|front| - 1] == new_[h.newStart - 1] && front + post == front;
    }
  }

  // Applying all hunks of a patch gives the new file, when every hunk is found, and fails
  // otherwise. It never gives anything else.
  lemma {:induction false} HunksApply<L>(old_: seq<L>, new_: seq<L>, po: nat, pn: nat, hunks: seq<Hunk<L>>)
    requires Describes(old_, new_, po, pn, hunks)
    ensures AllApplied(Image(old_, new_, po, pn), hunks) ==
      if forall i :: 0 <= i < |hunks| ==> Found(new_, hunks[i]) then Some(new_) else None
    decreases |hunks|
  {
    hide Applied, Found, Start, Pre, Post;
    if hunks == [] {
      assert new_[..pn] + new_[pn..] == new_;
    } else {
      var h, rest := hunks[0], hunks[1..];
      HunkApplies(old_, new_, po, pn, hunks);
      HunksApply(old_, new_, po + (Start(h) - pn) + |Pre(h.lines)|, Start(h) + |Post(h.lines)|, rest);
      assert forall i :: 0 <= i < |rest| ==> rest[i] == hunks[i + 1];
      if forall i :: 0 <= i < |hunks| ==> Found(new_, hunks[i]) {
        assert forall i :: 0 <= i < |rest| ==> Found(new_, rest[i]);
      } else if Found(new_, h) {
        var i :| 0 <= i < |hunks| && !Found(new_, hunks[i]);
        assert rest[i - 1] == hunks[i];
      }
    }
  }

  // ----- a hunk that need not be right

  // A hunk applies if and only if the image has its old side where it is looked for, and then it has its new side
  // there: one line in front of the number of its first line, or at the end of an image that is too short.
  lemma AppliedIf<L(!new)>(image: seq<L>, h: Hunk<L>, out: seq<L>)
    ensures Applied(image, h) == Some(out) <==>
      exists front, back :: Splits(image, out, Pre(h.lines), Post(h.lines), front, back)
        && |front| == if h.newStart == 0 then 0 else if h.newStart <= |image| then h.newStart - 1 else |image|
  {
    hide Pre, Post, Applied, Splits;
    if Applied(image, h) == Some(out) {
      var front, back := AppliedSplits(image, h, out);
    }
    forall front, back | Splits(image, out, Pre(h.lines), Post(h.lines), front, back) && |front| == Place(image, h)
      ensures Applied(image, h) == Some(out)
    {
      SplitsApplied(image, h, out, front, back);
    }
    assert Place(image, h) == if h.newStart == 0 then 0 else if h.newStart <= |image| then h.newStart - 1 else |image|;
  }

  lemma AppliedSplits<L>(image: seq<L>, h: Hunk<L>, out: seq<L>) returns (front: seq<L>, back: seq<L>)
    requires Applied(image, h) == Some(out)
    ensures Splits(image, out, Pre(h.lines), Post(h.lines), front, back) && |front| == Place(image, h)
  {
    hide Pre, Post;
    var pre, at := Pre(h.lines), Place(image, h);
    front, back := image[..at], image[at + |pre|..];
    assert image == front + image[at..at + |pre|] + back;
  }

  lemma SplitsApplied<L>(image: seq<L>, h: Hunk<L>, out: seq<L>, front: seq<L>, back: seq<L>)
    requires Splits(image, out, Pre(h.lines), Post(h.lines), front, back) && |front| == Place(image, h)
    ensures Applied(image, h) == Some(out)
  {
    hide Pre, Post;
    InPlace(front, Pre(h.lines), back, Post(h.lines));
  }

  predicate Splits<L(==)>(image: seq<L>, out: seq<L>, pre: seq<L>, post: seq<L>, front: seq<L>, back: seq<L>) {
    image == front + pre + back && out == front + post + back
  }

  function ReversedLine<L>(l: HunkLine<L>): HunkLine<L> {
    HunkLine(if l.origin == Deletion then Addition else if l.origin == Addition then Deletion else l.origin, l.line)
  }

  function Reversed<L>(lines: seq<HunkLine<L>>): seq<HunkLine<L>> {
    if lines == [] then [] else [ReversedLine(lines[0])] + Reversed(lines[1..])
  }

  // The old side of a reversed hunk is the new side, and the other way round.
  lemma {:induction false} ReversedSides<L>(lines: seq<HunkLine<L>>)
    ensures Pre(Reversed(lines)) == Post(lines) && Post(Reversed(lines)) == Pre(lines)
  {
    if lines != [] {
      ReversedSides(lines[1..]);
      assert Reversed(lines)[1..] == Reversed(lines[1..]);
    }
  }

  // What a hunk did the reversed hunk undoes.
  lemma HunkUndone<L>(image: seq<L>, h: Hunk<L>)
    requires h.newStart <= |image| + 1 && Applied(image, h).Some?
    ensures Applied(Applied(image, h).value, Hunk(h.newStart, Reversed(h.lines))) == Some(image)
  {
    hide Pre, Post, Reversed;
    ReversedSides(h.lines);
    var pre, post, at := Pre(h.lines), Post(h.lines), Place(image, h);
    assert image == image[..at] + image[at..at + |pre|] + image[at + |pre|..];
    InPlace(image[..at], pre, image[at + |pre|..], post);
    InPlace(image[..at], post, image[at + |pre|..], pre);
  }

  // Context lines are on both sides, and the marks at the end of a file on none.
  lemma SidesOfLine<L>(line: L)
    ensures Pre([HunkLine(Context, line)]) == Post([HunkLine(Context, line)]) == [line]
    ensures Pre([HunkLine(Deletion, line)]) == [line] && Post([HunkLine(Addition, line)]) == [line]
    ensures Pre([HunkLine(Addition, line)]) == Post([HunkLine(Deletion, line)]) == []
    ensures Pre([HunkLine(Other, line)]) == Post([HunkLine(Other, line)]) == []
  {
    NoLinesBehind(HunkLine(Context, line));
    NoLinesBehind(HunkLine(Deletion, line));
    NoLinesBehind(HunkLine(Addition, line));
    NoLinesBehind(HunkLine(Other, line));
  }

  lemma NoLinesBehind<L>(l: HunkLine<L>)
    ensures [l][1..] == []
  {}

  // A patch that takes out the only line of a file but its first is refused, though it is right.
  lemma EmptyNewSideIsRefused()
    ensures var h := Hunk(1, [HunkLine(Deletion, "b\n")]);
            && Describes(["a\n", "b\n"], ["a\n"], 0, 0, [h])
            && AllApplied(["a\n", "b\n"], [h]) == None
  {
    var h := Hunk(1, [HunkLine(Deletion, "b\n")]);
    assert Pre(h.lines) == ["b\n"] && Post(h.lines) == [];
    assert Describes(["a\n", "b\n"], ["a\n"], 2, 1, []);
    assert ["a\n", "b\n"][0..1] == ["a\n"][0..1] && ["a\n", "b\n"][1..2] == ["b\n"];
    assert "a\n"[0] != "b\n"[0];
    HunksApply(["a\n", "b\n"], ["a\n"], 0, 0, [h]);
    assert Image(["a\n", "b\n"], ["a\n"], 0, 0) == ["a\n", "b\n"];
  }

  // ----- the program

  // The image is a vector of lines; null stands for the slots that git_vector_insert_null makes.
  class PatchImage<L(==)> {
    var lines: seq<L>

    constructor (lines: seq<L>)
      ensures this.lines == lines
    {
      this.lines := lines;
    }

    // git_vector_insert_null
    method InsertNull(at: nat, n: nat, filler: L)
      requires at <= |lines|
      modifies this
      ensures lines == old(lines[..at]) + seq(n, i => filler) + old(lines[at..])
    {
      lines := lines[..at] + seq(n, i => filler) + lines[at..];
    }

    // git_vector_remove_range
    method RemoveRange(at: nat, n: nat)
      requires at + n <= |lines|
      modifies this
      ensures lines == old(lines[..at]) + old(lines[at + n..])
    {
      lines := lines[..at] + lines[at + n..];
    }

    // match_hunk
    method MatchHunk(pre: seq<L>, at: nat) returns (match_: bool)
      ensures match_ == MatchesAt(lines, pre, at)
    {
      if |pre| + at > |lines| {
        return false;
      }
      for i := 0 to |pre|
        invariant lines[at..at + i] == pre[..i]
      {
        if pre[i] != lines[at + i] {
          assert lines[at..at + |pre|][i] != pre[i];
          return false;
        }
        assert lines[at..at + i + 1] == lines[at..at + i] + [lines[at + i]] && pre[..i + 1] == pre[..i] + [pre[i]];
      }
      assert pre[..|pre|] == pre;
      match_ := true;
    }

    // find_hunk_linenum
    method FindHunk(pre: seq<L>, wanted: nat) returns (found: bool, at: nat)
      ensures at == Min(wanted, |lines|) && found == MatchesAt(lines, pre, at)
    {
      at := wanted;
      if at > |lines| {
        at := |lines|;
      }
      found := MatchHunk(pre, at);
    }

    // update_hunk
    method UpdateHunk(at: nat, pre: seq<L>, post: seq<L>, filler: L)
      requires |pre| + at <= |lines|
      modifies this
      ensures lines == Updated(old(lines), at, pre, post)
    {
      ghost var front, back := lines[..at], lines[at + |pre|..];
      if |post| > |pre| {
        InsertNull(at, |post| - |pre|, filler);
      } else if |pre| > |post| {
        RemoveRange(at, |pre| - |post|);
      }
      assert lines[..at] == front && lines[at + |post|..] == back;
      for i := 0 to |post|
        invariant |lines| == at + |post| + |back|
        invariant lines[..at] == front && lines[at..at + i] == post[..i] && lines[at + |post|..] == back
      {
        ghost var done := lines[at..at + i];
        lines := lines[at + i := post[i]];
        assert lines[at..at + i + 1] == done + [post[i]] && post[..i + 1] == post[..i] + [post[i]];
      }
      assert lines == front + lines[at..at + |post|] + back && post[..|post|] == post;
    }

    // apply_hunk. False: the hunk did not apply.
    method ApplyHunk(h: Hunk<L>, filler: L) returns (ok: bool)
      modifies this
      ensures ok <==> Applied(old(lines), h).Some?
      ensures lines == if ok then Applied(old(lines), h).value else old(lines)
    {
      var pre, post := Sides(h.lines);
      var found, at := FindHunk(pre, if h.newStart > 0 then h.newStart - 1 else 0);
      if !found {
        return false;
      }
      UpdateHunk(at, pre, post, filler);
      ok := true;
    }
  }

  // The loop of apply_hunk that sorts the lines of a hunk.
  method Sides<L>(lines: seq<HunkLine<L>>) returns (pre: seq<L>, post: seq<L>)
    ensures pre == Pre(lines) && post == Post(lines)
  {
    pre, post := [], [];
    assert lines[0..] == lines;
    for i := 0 to |lines|
      invariant pre + Pre(lines[i..]) == Pre(lines) && post + Post(lines[i..]) == Post(lines)
    {
      var line := lines[i];
      ghost var pre0, post0 := pre, post;
      assert lines[i..][1..] == lines[i + 1..];
      if line.origin == Context || line.origin == Deletion {
        pre := pre + [line.line];
        assert pre0 + ([line.line] + Pre(lines[i + 1..])) == pre + Pre(lines[i + 1..]);
      } else {
        assert pre0 + ([] + Pre(lines[i + 1..])) == pre + Pre(lines[i + 1..]);
      }
      if line.origin == Context || line.origin == Addition {
        post := post + [line.line];
        assert post0 + ([line.line] + Post(lines[i + 1..])) == post + Post(lines[i + 1..]);
      } else {
        assert post0 + ([] + Post(lines[i + 1..])) == post + Post(lines[i + 1..]);
      }
    }
    assert pre + [] == pre && post + [] == post;
  }

  // ----- texts and lines

  // Where the first line of s ends.
  function LineLength(s: string): (n: nat)
    requires s != ""
    ensures 0 < n <= |s|
  {
    if s[0] == '\n' || |s| == 1 then 1 else 1 + LineLength(s[1..])
  }

  function Lines(s: string): seq<string>
    decreases |s|
  {
    if s == "" then [] else [s[..LineLength(s)]] + Lines(s[LineLength(s)..])
  }

  function Join(lines: seq<string>): string {
    if lines == [] then "" else lines[0] + Join(lines[1..])
  }

  lemma {:induction false} LinesJoin(s: string)
    ensures Join(Lines(s)) == s
    decreases |s|
  {
    if s != "" {
      LinesJoin(s[LineLength(s)..]);
    }
  }

  lemma {:induction false} FirstLineEnds(s: string)
    requires s != ""
    ensures forall i :: 0 <= i < LineLength(s) - 1 ==> s[i] != '\n'
    ensures LineLength(s) < |s| ==> s[LineLength(s) - 1] == '\n'
  {
    if s[0] != '\n' && |s| > 1 {
      FirstLineEnds(s[1..]);
    }
  }

  // Every line has one newline, at its end, but for the last, which need not have one.
  lemma {:induction false} LinesAreLines(s: string, i: nat)
    requires i < |Lines(s)|
    ensures var line := Lines(s)[i];
            && line != "" && (forall j :: 0 <= j < |line| - 1 ==> line[j] != '\n')
            && (i < |Lines(s)| - 1 ==> line[|line| - 1] == '\n')
    decreases |s|
  {
    FirstLineEnds(s);
    if i > 0 {
      LinesAreLines(s[LineLength(s)..], i - 1);
    }
  }

  // The end of the line that starts at start: memchr, with the search ending where the source ends.
  method FindLineEnd(s: string, start: nat) returns (end: nat)
    requires start < |s|
    ensures start < end <= |s| && end - start == LineLength(s[start..])
  {
    end := start;
    while end < |s| && s[end] != '\n'
      invariant start <= end <= |s| && forall i :: start <= i < end ==> s[i] != '\n'
    {
      end := end + 1;
    }
    if end < |s| {
      end := end + 1;
    }
    LineEndsAt(s[start..], end - start);
  }

  lemma LineGoesOut(s: string, start: nat, end: nat, lines: seq<string>)
    requires start < end <= |s| && end - start == LineLength(s[start..])
    ensures lines + Lines(s[start..]) == (lines + [s[start..end]]) + Lines(s[end..])
  {
    assert s[start..][..end - start] == s[start..end] && s[start..][end - start..] == s[end..];
    assert lines + ([s[start..end]] + Lines(s[end..])) == (lines + [s[start..end]]) + Lines(s[end..]);
  }

  // patch_image_init_fromstr
  method SplitLines(s: string) returns (lines: seq<string>)
    ensures lines == Lines(s)
  {
    hide Lines, LineLength;
    lines := [];
    var start := 0;
    assert s[0..] == s && [] + Lines(s) == Lines(s);
    while start < |s|
      invariant 0 <= start <= |s| && lines + Lines(s[start..]) == Lines(s)
    {
      var end := FindLineEnd(s, start);
      LineGoesOut(s, start, end, lines);
      lines, start := lines + [s[start..end]], end;
    }
    NoLines(s[start..]);
    assert lines + [] == lines;
  }

  lemma NoLines(s: string)
    ensures s == "" ==> Lines(s) == []
  {}

  lemma {:induction false} LineEndsAt(s: string, n: nat)
    requires 0 < n <= |s| && (forall i :: 0 <= i < n - 1 ==> s[i] != '\n') && (n == |s| || s[n - 1] == '\n')
    ensures LineLength(s) == n
  {
    if n > 1 {
      LineEndsAt(s[1..], n - 1);
    }
  }

  // apply_hunks
  method ApplyHunks(source: string, hunks: seq<Hunk<string>>) returns (r: Option<string>)
    ensures r == match AllApplied(Lines(source), hunks) case None => None case Some(lines) => Some(Join(lines))
  {
    hide Applied;
    var lines := SplitLines(source);
    var image := new PatchImage(lines);
    ghost var goal := AllApplied(lines, hunks);
    assert hunks[0..] == hunks;
    for i := 0 to |hunks|
      invariant AllApplied(image.lines, hunks[i..]) == goal
    {
      assert hunks[i..][1..] == hunks[i + 1..];
      var ok := image.ApplyHunk(hunks[i], "");
      if !ok {
        return None;
      }
    }
    var out := "";
    for i := 0 to |image.lines|
      invariant out + Join(image.lines[i..]) == Join(image.lines)
    {
      assert image.lines[i..][1..] == image.lines[i + 1..];
      assert out + (image.lines[i] + Join(image.lines[i + 1..])) == out + image.lines[i] + Join(image.lines[i + 1..]);
      out := out + image.lines[i];
    }
    assert out + "" == out;
    r := Some(out);
  }

  // A patch that leads from one text to another gives the other when its hunks are all found, and
  // is refused otherwise.
  lemma PatchApplies(old_: string, new_: string, hunks: seq<Hunk<string>>)
    requires Describes(Lines(old_), Lines(new_), 0, 0, hunks)
    ensures (match AllApplied(Lines(old_), hunks) case None => None case Some(lines) => Some(Join(lines)))
         == if forall i :: 0 <= i < |hunks| ==> Found(Lines(new_), hunks[i]) then Some(new_) else None
  {
    HunksApply(Lines(old_), Lines(new_), 0, 0, hunks);
    assert Image(Lines(old_), Lines(new_), 0, 0) == Lines(old_);
    LinesJoin(new_);
  }
}
