// The scoreboard of blame_git.c as a list of pieces, and what each line of the file is blamed on.

module BlameBoard {
  // A file in a commit that can be suspected: the id of the commit, the address of the object that
  // holds it, and the path.
  datatype Suspect = Suspect(commit: nat, handle: nat, path: string)

  // same_suspect
  predicate Same(a: Suspect, b: Suspect) {
    a.commit == b.commit && a.path == b.path
  }

  // num lines of the final file from lno on, which are lines s_lno on in the suspect's file.
  datatype Piece = Piece(lno: nat, num: nat, s_lno: nat, suspect: Suspect, guilty: bool)

  // The pieces are sorted, not empty, and cover the lines from from to to.
  predicate Covers(board: seq<Piece>, from: nat, to: nat) {
    if board == [] then from == to
    else board[0].lno == from && board[0].num > 0 && Covers(board[1..], from + board[0].num, to)
  }

  // What one line of the final file is blamed on.
  datatype Blamed = Blamed(suspect: Suspect, line: nat, guilty: bool)

  function At(board: seq<Piece>, from: nat, to: nat, l: nat): Blamed
    requires Covers(board, from, to) && from <= l < to
  {
    var p := board[0];
    if l < from + p.num then Blamed(p.suspect, p.s_lno + (l - from), p.guilty)
    else At(board[1..], from + p.num, to, l)
  }

  lemma {:induction false} CoversUp(board: seq<Piece>, from: nat, to: nat)
    requires Covers(board, from, to)
    ensures from <= to
  {
    if board != [] {
      CoversUp(board[1..], from + board[0].num, to);
    }
  }

  lemma {:induction false} CoversBoth(a: seq<Piece>, b: seq<Piece>, from: nat, mid: nat, to: nat)
    requires Covers(a, from, mid) && Covers(b, mid, to)
    ensures Covers(a + b, from, to)
    ensures forall l :: from <= l < to ==>
      At(a + b, from, to, l) == if l < mid then At(a, from, mid, l) else At(b, mid, to, l)
  {
    if a == [] {
      assert a + b == b;
    } else {
      assert (a + b)[1..] == a[1..] + b;
      CoversBoth(a[1..], b, from + a[0].num, mid, to);
      CoversUp(a[1..], from + a[0].num, mid);
    }
  }

  // ----- passing a range of lines to the parent

  // Lines tlno to same of the target are lines plno on of the parent.
  datatype Range = Range(tlno: nat, plno: nat, same: nat, target: Suspect, parent: Suspect)

  // The conditions of the loop in blame_chunk.
  predicate Touched(p: Piece, c: Range) {
    !p.guilty && Same(p.suspect, c.target) && p.s_lno < c.same && c.tlno < p.s_lno + p.num
  }

  function Max(a: nat, b: nat): nat {
    if a < b then b else a
  }

  function Min(a: nat, b: nat): nat {
    if a < b then a else b
  }

  // What split_overlap and split_blame make of a piece: up to three pieces.
  function Split(p: Piece, c: Range): (parts: seq<Piece>)
    requires Touched(p, c) && c.tlno <= c.same && p.num > 0
    ensures 1 <= |parts| <= 3
  {
    var end := p.s_lno + p.num;
    var first, last := Max(c.tlno, p.s_lno), Min(c.same, end);
    var before := if p.s_lno < c.tlno then [Piece(p.lno, c.tlno - p.s_lno, p.s_lno, p.suspect, false)] else [];
    var after :=
      if c.same < end then [Piece(p.lno + (c.same - p.s_lno), end - c.same, c.same, p.suspect, false)] else [];
    if first == last then [p]
    else before + [Piece(p.lno + (first - p.s_lno), last - first, c.plno + (first - c.tlno), c.parent, false)] + after
  }

  // No length wraps around in a piece of the board.
  predicate Fits(board: seq<Piece>, c: Range) {
    forall i :: 0 <= i < |board| ==> board[i].num > 0 && (Touched(board[i], c) ==> c.tlno <= c.same)
  }

  // blame_chunk
  function Chunk(board: seq<Piece>, c: Range): seq<Piece>
    requires Fits(board, c)
  {
    if board == [] then []
    else (if Touched(board[0], c) then Split(board[0], c) else [board[0]]) + Chunk(board[1..], c)
  }

  // What passing a range does to the blame of one line.
  function Moved(b: Blamed, c: Range): Blamed {
    if !b.guilty && Same(b.suspect, c.target) && c.tlno <= b.line < c.same
    then Blamed(c.parent, c.plno + (b.line - c.tlno), false)
    else b
  }

  // What a line of a piece is blamed on.
  function Line(p: Piece, l: nat): Blamed {
    Blamed(p.suspect, if l < p.lno then 0 else p.s_lno + (l - p.lno), p.guilty)
  }

  lemma One(p: Piece)
    requires p.num > 0
    ensures Covers([p], p.lno, p.lno + p.num)
    ensures forall l :: p.lno <= l < p.lno + p.num ==>
      At([p], p.lno, p.lno + p.num, l) == Line(p, l)
  {
    assert [p][1..] == [];
  }

  lemma SplitMoves(p: Piece, c: Range)
    requires Touched(p, c) && c.tlno <= c.same && p.num > 0
    ensures Covers(Split(p, c), p.lno, p.lno + p.num)
    ensures forall l :: p.lno <= l < p.lno + p.num ==>
      At(Split(p, c), p.lno, p.lno + p.num, l) == Moved(Line(p, l), c)
  {
    var end, to := p.s_lno + p.num, p.lno + p.num;
    var first, last := Max(c.tlno, p.s_lno), Min(c.same, end);
    One(p);
    if first < last {
      var middle := Piece(p.lno + (first - p.s_lno), last - first, c.plno + (first - c.tlno), c.parent, false);
      One(middle);
      var parts, from, upto := [middle], middle.lno, middle.lno + middle.num;
      if p.s_lno < c.tlno {
        var before := Piece(p.lno, c.tlno - p.s_lno, p.s_lno, p.suspect, false);
        One(before);
        CoversBoth([before], parts, p.lno, from, upto);
        parts, from := [before] + parts, p.lno;
      }
      if c.same < end {
        var after := Piece(p.lno + (c.same - p.s_lno), end - c.same, c.same, p.suspect, false);
        One(after);
        CoversBoth(parts, [after], from, upto, to);
        parts := parts + [after];
      }
      assert parts == Split(p, c);
    }
  }

  // The board still covers the same lines, and blames each as it should.
  lemma {:induction false} ChunkMoves(board: seq<Piece>, c: Range, from: nat, to: nat)
    requires Fits(board, c) && Covers(board, from, to)
    ensures Covers(Chunk(board, c), from, to)
    ensures forall l :: from <= l < to ==> At(Chunk(board, c), from, to, l) == Moved(At(board, from, to, l), c)
  {
    hide Split;
    if board != [] {
      var p, mid := board[0], from + board[0].num;
      var parts := if Touched(p, c) then Split(p, c) else [p];
      One(p);
      if Touched(p, c) {
        SplitMoves(p, c);
      }
      ChunkMoves(board[1..], c, mid, to);
      CoversUp(board[1..], mid, to);
      CoversBoth(parts, Chunk(board[1..], c), from, mid, to);
      assert board == [p] + board[1..];
      CoversBoth([p], board[1..], from, mid, to);
      assert forall l :: from <= l < mid ==> At(board, from, to, l) == Line(p, l);
    }
  }

  // ----- passing everything, and taking responsibility

  // pass_whole_blame: guilty pieces are passed as well.
  function Whole(board: seq<Piece>, origin: Suspect, porigin: Suspect): (b: seq<Piece>)
    ensures |b| == |board|
    ensures forall i :: 0 <= i < |b| ==> b[i] == Given(board[i], origin, porigin)
  {
    if board == [] then [] else [Given(board[0], origin, porigin)] + Whole(board[1..], origin, porigin)
  }

  function Given(p: Piece, origin: Suspect, porigin: Suspect): Piece {
    if Same(p.suspect, origin) then p.(suspect := porigin) else p
  }

  // The end of a round of git_blame__like_git.
  function Owned(board: seq<Piece>, suspect: Suspect): (b: seq<Piece>)
    ensures |b| == |board|
    ensures forall i :: 0 <= i < |b| ==> b[i] == Own(board[i], suspect)
  {
    if board == [] then [] else [Own(board[0], suspect)] + Owned(board[1..], suspect)
  }

  function Own(p: Piece, suspect: Suspect): Piece {
    if Same(p.suspect, suspect) then p.(guilty := true) else p
  }

  lemma {:induction false} WholeMoves(board: seq<Piece>, origin: Suspect, porigin: Suspect, from: nat, to: nat)
    requires Covers(board, from, to)
    ensures Covers(Whole(board, origin, porigin), from, to)
    ensures forall l :: from <= l < to ==>
      At(Whole(board, origin, porigin), from, to, l)
      == var b := At(board, from, to, l); if Same(b.suspect, origin) then b.(suspect := porigin) else b
  {
    if board != [] {
      WholeMoves(board[1..], origin, porigin, from + board[0].num, to);
      assert Whole(board, origin, porigin)[1..] == Whole(board[1..], origin, porigin);
    }
  }

  lemma {:induction false} OwnedMoves(board: seq<Piece>, suspect: Suspect, from: nat, to: nat)
    requires Covers(board, from, to)
    ensures Covers(Owned(board, suspect), from, to)
    ensures forall l :: from <= l < to ==>
      At(Owned(board, suspect), from, to, l)
      == var b := At(board, from, to, l); if Same(b.suspect, suspect) then b.(guilty := true) else b
  {
    if board != [] {
      OwnedMoves(board[1..], suspect, from + board[0].num, to);
      assert Owned(board, suspect)[1..] == Owned(board[1..], suspect);
    }
  }

  // ----- the hunks of a diff

  // Lines start_a on of the parent became lines start_b on of the target.
  datatype Hunk = Hunk(startA: nat, countA: nat, startB: nat, countB: nat)

  type File<L> = seq<L>

  // From pa in a and pb in b on the files are equal but for the hunks, which are sorted, and
  // between which as many lines are in a as in b.
  predicate Diff<L(==)>(a: File<L>, b: File<L>, pa: nat, pb: nat, hunks: seq<Hunk>)
    decreases |hunks|
  {
    && pa <= |a| && pb <= |b|
    && if hunks == [] then a[pa..] == b[pb..]
       else
         var h := hunks[0];
         && pa <= h.startA && h.startA + h.countA <= |a| && pb <= h.startB && h.startB + h.countB <= |b|
         && a[pa..h.startA] == b[pb..h.startB]
         && Diff(a, b, h.startA + h.countA, h.startB + h.countB, hunks[1..])
  }

  datatype Source = InParent(line: nat) | InTarget

  // Where line s of the target comes from.
  function Origins(pa: nat, pb: nat, hunks: seq<Hunk>, s: nat): Source
    requires pb <= s
    decreases |hunks|
  {
    if hunks == [] then InParent(pa + (s - pb))
    else
      var h := hunks[0];
      if s < h.startB then InParent(pa + (s - pb))
      else if s < h.startB + h.countB then InTarget
      else Origins(h.startA + h.countA, h.startB + h.countB, hunks[1..], s)
  }

  lemma {:induction false} SourceIsEqual<L>(a: File<L>, b: File<L>, pa: nat, pb: nat, hunks: seq<Hunk>, s: nat)
    requires Diff(a, b, pa, pb, hunks) && pb <= s < |b| && Origins(pa, pb, hunks, s).InParent?
    ensures var p := Origins(pa, pb, hunks, s).line; p < |a| && a[p] == b[s]
    decreases |hunks|
  {
    if hunks == [] {
      assert a[pa..][s - pb] == b[pb..][s - pb];
    } else {
      var h := hunks[0];
      if s < h.startB {
        assert a[pa..h.startA][s - pb] == b[pb..h.startB][s - pb];
      } else if s >= h.startB + h.countB {
        SourceIsEqual(a, b, h.startA + h.countA, h.startB + h.countB, hunks[1..], s);
      }
    }
  }

  // ----- the blame of a line means something

  // files gives each origin the lines of its file; the line that each line of final is blamed on
  // reads the same.
  ghost predicate Means<L>(board: seq<Piece>, from: nat, to: nat, files: (nat, string) -> File<L>, final: File<L>)
    requires Covers(board, from, to)
  {
    to <= |final| && forall l :: from <= l < to ==> Reads(At(board, from, to, l), files, final[l])
  }

  predicate Reads<L(==)>(b: Blamed, files: (nat, string) -> File<L>, line: L) {
    var file := files(b.suspect.commit, b.suspect.path);
    b.line < |file| && file[b.line] == line
  }

  // ----- pass_blame_to_parent

  // The end of the last line that is still to be passed on: find_last_in_target.
  function Last(board: seq<Piece>, target: Suspect): nat {
    if board == [] then 0
    else
      var p, more := board[0], Last(board[1..], target);
      if !p.guilty && Same(p.suspect, target) then Max(p.s_lno + p.num, more) else more
  }

  predicate Bounded(board: seq<Piece>, target: Suspect, last: nat) {
    forall i :: 0 <= i < |board| ==>
      board[i].num > 0 && (!board[i].guilty && Same(board[i].suspect, target) ==> board[i].s_lno + board[i].num <= last)
  }

  lemma {:induction false} LastBounds(board: seq<Piece>, target: Suspect, from: nat, to: nat)
    requires Covers(board, from, to)
    ensures Bounded(board, target, Last(board, target))
    ensures Last(board, target) > 0 <==>
      exists i :: 0 <= i < |board| && !board[i].guilty && Same(board[i].suspect, target)
  {
    if board != [] {
      LastBounds(board[1..], target, from + board[0].num, to);
      assert forall i :: 0 < i < |board| ==> board[i] == board[1..][i - 1];
    }
  }

  lemma BoundedBoth(a: seq<Piece>, b: seq<Piece>, target: Suspect, last: nat)
    requires Bounded(a, target, last) && Bounded(b, target, last)
    ensures Bounded(a + b, target, last)
  {}

  lemma SplitBounded(p: Piece, c: Range, last: nat)
    requires Touched(p, c) && c.tlno <= c.same && p.num > 0 && p.s_lno + p.num <= last && !Same(c.parent, c.target)
    ensures Bounded(Split(p, c), c.target, last)
  {}

  lemma {:induction false} ChunkBounded(board: seq<Piece>, c: Range, last: nat)
    requires Fits(board, c) && Bounded(board, c.target, last) && !Same(c.parent, c.target)
    ensures Bounded(Chunk(board, c), c.target, last)
  {
    hide Split;
    if board != [] {
      ChunkBounded(board[1..], c, last);
      if Touched(board[0], c) {
        SplitBounded(board[0], c, last);
      }
      var parts := if Touched(board[0], c) then Split(board[0], c) else [board[0]];
      BoundedBoth(parts, Chunk(board[1..], c), c.target, last);
    }
  }

  // The hunks as my_emit gets them.
  predicate Sorted(hunks: seq<Hunk>, pa: nat, pb: nat)
    decreases |hunks|
  {
    hunks == []
    || (pa <= hunks[0].startA && pb <= hunks[0].startB
        && Sorted(hunks[1..], hunks[0].startA + hunks[0].countA, hunks[0].startB + hunks[0].countB))
  }

  function Pass(board: seq<Piece>, hunks: seq<Hunk>, pa: nat, pb: nat, last: nat, target: Suspect, parent: Suspect)
    : seq<Piece>
    requires Sorted(hunks, pa, pb) && Bounded(board, target, last) && !Same(parent, target)
    decreases |hunks|
  {
    if hunks == [] then Chunk(board, Range(pb, pa, last, target, parent))
    else
      var h := hunks[0];
      var c := Range(pb, pa, h.startB, target, parent);
      ChunkBounded(board, c, last);
      Pass(Chunk(board, c), hunks[1..], h.startA + h.countA, h.startB + h.countB, last, target, parent)
  }

  // What passing does to the blame of one line.
  function PassedLine(b: Blamed, hunks: seq<Hunk>, pa: nat, pb: nat, target: Suspect, parent: Suspect): Blamed {
    if b.guilty || !Same(b.suspect, target) || b.line < pb then b
    else
      match Origins(pa, pb, hunks, b.line)
      case InParent(p) => Blamed(parent, p, false)
      case InTarget => b
  }

  lemma {:induction false} AtBounded(board: seq<Piece>, from: nat, to: nat, l: nat, target: Suspect, last: nat)
    requires Covers(board, from, to) && from <= l < to && Bounded(board, target, last)
    ensures var b := At(board, from, to, l); !b.guilty && Same(b.suspect, target) ==> b.line < last
  {
    if l >= from + board[0].num {
      assert forall i :: 0 < i < |board| ==> board[i] == board[1..][i - 1];
      AtBounded(board[1..], from + board[0].num, to, l, target, last);
    }
  }

  // After all hunks every line of the target that is in none of them is blamed on the parent's
  // line it came from, and every other line on what it was blamed on before.
  lemma {:induction false} PassMoves(board: seq<Piece>, hunks: seq<Hunk>, pa: nat, pb: nat, last: nat,
                                     target: Suspect, parent: Suspect, from: nat, to: nat)
    requires Sorted(hunks, pa, pb) && Bounded(board, target, last) && !Same(parent, target) && Covers(board, from, to)
    ensures Covers(Pass(board, hunks, pa, pb, last, target, parent), from, to)
    ensures forall l :: from <= l < to ==>
      At(Pass(board, hunks, pa, pb, last, target, parent), from, to, l)
      == PassedLine(At(board, from, to, l), hunks, pa, pb, target, parent)
    decreases |hunks|
  {
    hide At, Chunk;
    if hunks == [] {
      var c := Range(pb, pa, last, target, parent);
      ChunkMoves(board, c, from, to);
      forall l | from <= l < to
        ensures Moved(At(board, from, to, l), c) == PassedLine(At(board, from, to, l), hunks, pa, pb, target, parent)
      {
        AtBounded(board, from, to, l, target, last);
      }
    } else {
      var h := hunks[0];
      var c := Range(pb, pa, h.startB, target, parent);
      ChunkBounded(board, c, last);
      ChunkMoves(board, c, from, to);
      PassMoves(Chunk(board, c), hunks[1..], h.startA + h.countA, h.startB + h.countB, last, target, parent, from, to);
    }
  }

  lemma {:induction false} DiffSorted<L>(a: File<L>, b: File<L>, pa: nat, pb: nat, hunks: seq<Hunk>)
    requires Diff(a, b, pa, pb, hunks)
    ensures Sorted(hunks, pa, pb)
    decreases |hunks|
  {
    if hunks != [] {
      DiffSorted(a, b, hunks[0].startA + hunks[0].countA, hunks[0].startB + hunks[0].countB, hunks[1..]);
    }
  }

  // Passing blame along a diff keeps what the blame means.
  lemma PassMeans<L>(board: seq<Piece>, hunks: seq<Hunk>, target: Suspect, parent: Suspect, from: nat, to: nat,
                     files: (nat, string) -> File<L>, final: File<L>)
    requires Covers(board, from, to) && !Same(parent, target)
    requires Diff(files(parent.commit, parent.path), files(target.commit, target.path), 0, 0, hunks)
    requires Means(board, from, to, files, final)
    ensures Sorted(hunks, 0, 0) && Bounded(board, target, Last(board, target))
    ensures var b := Pass(board, hunks, 0, 0, Last(board, target), target, parent);
            Covers(b, from, to) && Means(b, from, to, files, final)
  {
    hide At, Pass, Covers, Bounded, Diff, Origins;
    DiffSorted(files(parent.commit, parent.path), files(target.commit, target.path), 0, 0, hunks);
    LastBounds(board, target, from, to);
    PassMoves(board, hunks, 0, 0, Last(board, target), target, parent, from, to);
    forall l | from <= l < to
      ensures Reads(PassedLine(At(board, from, to, l), hunks, 0, 0, target, parent), files, final[l])
    {
      var b := At(board, from, to, l);
      assert Reads(b, files, final[l]);
      if !b.guilty && Same(b.suspect, target) && Origins(0, 0, hunks, b.line).InParent? {
        SourceIsEqual(files(parent.commit, parent.path), files(target.commit, target.path), 0, 0, hunks, b.line);
      }
    }
  }

  // Passing everything to an origin with the same blob keeps what the blame means.
  lemma WholeMeans<L>(board: seq<Piece>, origin: Suspect, porigin: Suspect, from: nat, to: nat,
                      files: (nat, string) -> File<L>, final: File<L>)
    requires Covers(board, from, to) && Means(board, from, to, files, final)
    requires files(origin.commit, origin.path) == files(porigin.commit, porigin.path)
    ensures Covers(Whole(board, origin, porigin), from, to)
    ensures Means(Whole(board, origin, porigin), from, to, files, final)
  {
    hide At, Whole, Covers;
    WholeMoves(board, origin, porigin, from, to);
    forall l | from <= l < to
      ensures Reads(At(Whole(board, origin, porigin), from, to, l), files, final[l])
    {
      assert Reads(At(board, from, to, l), files, final[l]);
    }
  }

  lemma OwnedMeans<L>(board: seq<Piece>, suspect: Suspect, from: nat, to: nat,
                      files: (nat, string) -> File<L>, final: File<L>)
    requires Covers(board, from, to) && Means(board, from, to, files, final)
    ensures Covers(Owned(board, suspect), from, to)
    ensures Means(Owned(board, suspect), from, to, files, final)
  {
    hide At, Owned, Covers;
    OwnedMoves(board, suspect, from, to);
    forall l | from <= l < to
      ensures Reads(At(Owned(board, suspect), from, to, l), files, final[l])
    {
      assert Reads(At(board, from, to, l), files, final[l]);
    }
  }

  // ----- whole runs

  datatype Step =
    | PassTo(target: Suspect, parent: Suspect, hunks: seq<Hunk>)
    | PassWhole(origin: Suspect, porigin: Suspect)
    | Take(suspect: Suspect)

  // What the diff engine and the blob ids tell is true of the files.
  predicate Allowed<L(==)>(s: Step, files: (nat, string) -> File<L>) {
    match s
    case PassTo(target, parent, hunks) =>
      !Same(parent, target) && Diff(files(parent.commit, parent.path), files(target.commit, target.path), 0, 0, hunks)
    case PassWhole(origin, porigin) => files(origin.commit, origin.path) == files(porigin.commit, porigin.path)
    case Take(_) => true
  }

  function Do(board: seq<Piece>, s: Step): seq<Piece>
    requires s.PassTo? ==>
      Sorted(s.hunks, 0, 0) && Bounded(board, s.target, Last(board, s.target)) && !Same(s.parent, s.target)
  {
    match s
    case PassTo(target, parent, hunks) => Pass(board, hunks, 0, 0, Last(board, target), target, parent)
    case PassWhole(origin, porigin) => Whole(board, origin, porigin)
    case Take(suspect) => Owned(board, suspect)
  }

  lemma StepMeans<L>(board: seq<Piece>, s: Step, from: nat, to: nat, files: (nat, string) -> File<L>, final: File<L>)
    requires Covers(board, from, to) && Means(board, from, to, files, final) && Allowed(s, files)
    ensures s.PassTo? ==>
      Sorted(s.hunks, 0, 0) && Bounded(board, s.target, Last(board, s.target)) && !Same(s.parent, s.target)
    ensures Covers(Do(board, s), from, to) && Means(Do(board, s), from, to, files, final)
  {
    hide Means, Covers, Pass, Whole, Owned, Sorted, Bounded, Diff;
    match s
    case PassTo(target, parent, hunks) => PassMeans(board, hunks, target, parent, from, to, files, final);
    case PassWhole(origin, porigin) => WholeMeans(board, origin, porigin, from, to, files, final);
    case Take(suspect) => OwnedMeans(board, suspect, from, to, files, final);
  }

  // boards are the scoreboards of a run: each follows from the one before by a step.
  ghost predicate Run<L>(boards: seq<seq<Piece>>, steps: seq<Step>, files: (nat, string) -> File<L>) {
    && |boards| == |steps| + 1
    && forall i :: 0 <= i < |steps| ==>
         && Allowed(steps[i], files)
         && (steps[i].PassTo? ==>
               Sorted(steps[i].hunks, 0, 0) && Bounded(boards[i], steps[i].target, Last(boards[i], steps[i].target)))
         && boards[i + 1] == Do(boards[i], steps[i])
  }

  // Over any run the board covers the same lines, and each line reads the same at its suspect.
  lemma {:induction false} RunMeans<L>(boards: seq<seq<Piece>>, steps: seq<Step>, from: nat, to: nat,
                                       files: (nat, string) -> File<L>, final: File<L>, n: nat)
    requires Run(boards, steps, files) && n < |boards|
    requires Covers(boards[0], from, to) && Means(boards[0], from, to, files, final)
    ensures Covers(boards[n], from, to) && Means(boards[n], from, to, files, final)
  {
    hide Means, Covers, Do, Allowed;
    if n > 0 {
      RunMeans(boards, steps, from, to, files, final, n - 1);
      StepMeans(boards[n - 1], steps[n - 1], from, to, files, final);
      assert boards[n - 1 + 1] == Do(boards[n - 1], steps[n - 1]);
    }
  }

  // ----- single steps of the loops

  lemma {:induction false} WholeAt(board: seq<Piece>, i: nat, origin: Suspect, porigin: Suspect)
    requires i < |board|
    ensures Whole(board, origin, porigin)[i] == Given(board[i], origin, porigin)
  {}

  lemma {:induction false} OwnedAt(board: seq<Piece>, i: nat, suspect: Suspect)
    requires i < |board|
    ensures Owned(board, suspect)[i] == Own(board[i], suspect)
  {}

  lemma PassStep(board: seq<Piece>, hunks: seq<Hunk>, i: nat, pa: nat, pb: nat, last: nat, target: Suspect,
                 parent: Suspect)
    requires i < |hunks| && Sorted(hunks[i..], pa, pb) && Bounded(board, target, last) && !Same(parent, target)
    ensures var h := hunks[i]; var c := Range(pb, pa, h.startB, target, parent);
            && Fits(board, c) && Bounded(Chunk(board, c), target, last)
            && Sorted(hunks[i + 1..], h.startA + h.countA, h.startB + h.countB)
            && Pass(board, hunks[i..], pa, pb, last, target, parent)
            == Pass(Chunk(board, c), hunks[i + 1..], h.startA + h.countA, h.startB + h.countB, last, target, parent)
  {
    hide Chunk;
    var c := Range(pb, pa, hunks[i].startB, target, parent);
    assert hunks[i..][1..] == hunks[i + 1..];
    ChunkBounded(board, c, last);
  }

  lemma PassEnd(board: seq<Piece>, pa: nat, pb: nat, last: nat, target: Suspect, parent: Suspect)
    requires Bounded(board, target, last) && !Same(parent, target)
    ensures Sorted([], pa, pb) && Fits(board, Range(pb, pa, last, target, parent))
    ensures Pass(board, [], pa, pb, last, target, parent) == Chunk(board, Range(pb, pa, last, target, parent))
  {}

  // A board on which nothing is left to pass stays as it is.
  lemma {:induction false} PassNothing(board: seq<Piece>, hunks: seq<Hunk>, pa: nat, pb: nat, target: Suspect,
                                       parent: Suspect)
    requires Sorted(hunks, pa, pb) && Bounded(board, target, 0) && !Same(parent, target)
    ensures Pass(board, hunks, pa, pb, 0, target, parent) == board
    decreases |hunks|
  {
    hide Chunk;
    var c := Range(pb, pa, if hunks == [] then 0 else hunks[0].startB, target, parent);
    assert forall j :: 0 <= j < |board| ==> board[j].num > 0 && !Touched(board[j], c);
    ChunkLeaves(board, [], c);
    assert Chunk([], c) == [] by {
      ChunkNone(c);
    }
    assert board + [] == board;
    if hunks != [] {
      var h := hunks[0];
      ChunkBounded(board, c, 0);
      PassNothing(board, hunks[1..], h.startA + h.countA, h.startB + h.countB, target, parent);
    }
  }

  lemma ChunkNone(c: Range)
    ensures Chunk([], c) == []
  {}

  // ----- the loop of blame_chunk

  lemma NothingDone(board: seq<Piece>, c: Range)
    requires Fits(board, c)
    ensures Fits(board[0..], c) && Chunk(board, c) == board[..0] + Chunk(board[0..], c)
  {
    assert board[0..] == board && board[..0] == [];
  }

  lemma AllDone(board: seq<Piece>, i: nat, c: Range)
    requires i == |board| && Fits(board[i..], c)
    ensures board[..i] + Chunk(board[i..], c) == board
  {}

  lemma ChunkGrows(board: seq<Piece>, i: nat, c: Range)
    requires i < |board| && Fits(board[i..], c)
    ensures |board[..i] + Chunk(board[i..], c)| > i
  {
    hide Split;
  }

  lemma ChunkFirst(p: Piece, rest: seq<Piece>, c: Range)
    requires Fits([p] + rest, c)
    ensures Fits(rest, c) && p.num > 0 && (Touched(p, c) ==> c.tlno <= c.same)
    ensures Chunk([p] + rest, c) == (if Touched(p, c) then Split(p, c) else [p]) + Chunk(rest, c)
  {
    hide Split;
    var board := [p] + rest;
    assert board[1..] == rest && board[0] == p;
    assert Touched(p, c) ==> c.tlno <= c.same;
    assert forall j :: 0 <= j < |rest| ==> rest[j] == board[j + 1];
  }

  lemma SkipStep(board: seq<Piece>, i: nat, c: Range)
    requires i < |board| && Fits(board[i..], c) && !Touched(board[i], c)
    ensures Fits(board[i + 1..], c)
    ensures board[..i] + Chunk(board[i..], c) == board[..i + 1] + Chunk(board[i + 1..], c)
  {
    hide Chunk, Fits, Touched;
    assert board[i..] == [board[i]] + board[i + 1..];
    ChunkFirst(board[i], board[i + 1..], c);
    assert board[..i + 1] == board[..i] + [board[i]];
  }

  // The parts of a split behind the first are not split again.
  lemma PartsAreLeft(p: Piece, c: Range)
    requires Touched(p, c) && c.tlno <= c.same && p.num > 0 && !Same(c.parent, c.target)
    ensures forall j :: 0 < j < |Split(p, c)| ==> Split(p, c)[j].num > 0 && !Touched(Split(p, c)[j], c)
  {}

  lemma {:induction false} ChunkLeaves(left: seq<Piece>, rest: seq<Piece>, c: Range)
    requires Fits(rest, c) && forall j :: 0 <= j < |left| ==> left[j].num > 0 && !Touched(left[j], c)
    ensures Fits(left + rest, c) && Chunk(left + rest, c) == left + Chunk(rest, c)
  {
    hide Touched, Chunk;
    if left == [] {
      assert left + rest == rest;
    } else {
      ChunkLeaves(left[1..], rest, c);
      assert left + rest == [left[0]] + (left[1..] + rest);
      ChunkFirst(left[0], left[1..] + rest, c);
    }
  }

  lemma SplitStep(board: seq<Piece>, i: nat, c: Range, from: nat, to: nat)
    requires i < |board| && Fits(board[i..], c) && Touched(board[i], c) && !Same(c.parent, c.target)
    requires Covers(board, from, to)
    ensures c.tlno <= c.same && board[i].num > 0
    ensures i + 1 < |board| ==> board[i].lno + board[i].num <= board[i + 1].lno
    ensures var b := board[..i] + Split(board[i], c) + board[i + 1..];
            && Covers(b, from, to) && i < |b| && Fits(b[i + 1..], c)
            && board[..i] + Chunk(board[i..], c) == b[..i + 1] + Chunk(b[i + 1..], c)
  {
    hide Chunk, Touched, Split, Covers;
    assert board[i..][0] == board[i];
    var p, rest, parts := board[i], board[i + 1..], Split(board[i], c);
    assert board[i..] == [p] + rest;
    ChunkFirst(p, rest, c);
    PartsAreLeft(p, c);
    ChunkLeaves(parts[1..], rest, c);
    var b := board[..i] + parts + rest;
    assert b[i + 1..] == parts[1..] + rest;
    assert b[..i + 1] == board[..i] + [parts[0]] && parts == [parts[0]] + parts[1..];
    CoversAt(board, i, from, to);
    SplitMoves(p, c);
    CoversReplace(board, i, parts, from, to);
  }

  lemma {:induction false} CoversAt(board: seq<Piece>, i: nat, from: nat, to: nat)
    requires Covers(board, from, to) && i < |board|
    ensures board[i].num > 0 && board[i].lno >= from
    ensures i + 1 < |board| ==> board[i].lno + board[i].num == board[i + 1].lno
    ensures Covers(board[..i], from, board[i].lno) && Covers(board[i + 1..], board[i].lno + board[i].num, to)
  {
    if i > 0 {
      CoversAt(board[1..], i - 1, from + board[0].num, to);
      assert board[..i][1..] == board[1..][..i - 1];
      assert board[1..][i..] == board[i + 1..];
    }
  }

  lemma CoversReplace(board: seq<Piece>, i: nat, parts: seq<Piece>, from: nat, to: nat)
    requires Covers(board, from, to) && i < |board|
    requires Covers(parts, board[i].lno, board[i].lno + board[i].num)
    ensures Covers(board[..i] + parts + board[i + 1..], from, to)
  {
    hide Covers;
    CoversAt(board, i, from, to);
    var lno, end := board[i].lno, board[i].lno + board[i].num;
    CoversUp(parts, lno, end);
    CoversUp(board[i + 1..], end, to);
    CoversBoth(board[..i], parts, from, lno, end);
    CoversBoth(board[..i] + parts, board[i + 1..], from, end, to);
  }
}
