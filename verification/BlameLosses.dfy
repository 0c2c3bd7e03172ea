// When counts are lost in git_blame__like_git: never in a history in which each commit is looked at
// with at most one parent, but in a history with one merge.

module BlameLosses {
  import opened BlameBoard
  import opened BlameParents
  import opened BlameHistory
  import opened Options

  // ----- one parent

  // Each commit has at most one parent, no rename is dropped, and a commit object holds one commit.
  ghost predicate OneParent(sights: Sights, owner: nat -> nat) {
    forall k: nat, suspect: Suspect :: NoChoice(SightOf(sights, k, suspect).parents, owner)
  }

  predicate NoChoice(parents: seq<Option<Found>>, owner: nat -> nat) {
    && |parents| <= 1
    && (parents != [] && parents[0].Some? ==>
          var f := parents[0].value; owner(f.handle) == f.commit && (f.how.Renamed? ==> f.how.dropped == []))
  }

  // A piece is of a generation from now's on, and not guilty only of now.
  predicate PieceUpTo(p: Piece, now: Suspect, owner: nat -> nat, gen: nat -> nat) {
    && owner(p.suspect.handle) == p.suspect.commit && gen(p.suspect.commit) >= gen(now.commit)
    && (p.guilty || Same(p.suspect, now))
  }

  ghost predicate UpTo(board: seq<Piece>, now: Suspect, owner: nat -> nat, gen: nat -> nat) {
    forall p :: p in board ==> PieceUpTo(p, now, owner, gen)
  }

  // Every piece of b keeps a suspect of board, or is for the parent.
  ghost predicate FromOrTo(board: seq<Piece>, b: seq<Piece>, parent: Suspect) {
    forall p :: p in b ==> (!p.guilty && p.suspect == parent) || exists q :: q in board && Stems(p, q)
  }

  predicate Stems(p: Piece, q: Piece) {
    p.suspect == q.suspect && p.guilty == q.guilty
  }

  lemma {:induction false} ChunkFromOrTo(board: seq<Piece>, c: Range)
    requires Fits(board, c)
    ensures FromOrTo(board, Chunk(board, c), c.parent)
  {
    if board != [] {
      var p := board[0];
      var parts := if Touched(p, c) then Split(p, c) else [p];
      ChunkFromOrTo(board[1..], c);
      assert board == [p] + board[1..];
      forall x | x in parts ensures (!x.guilty && x.suspect == c.parent) || Stems(x, p) {}
    }
  }

  lemma FromOrToTwice(a: seq<Piece>, b: seq<Piece>, c: seq<Piece>, parent: Suspect)
    requires FromOrTo(a, b, parent) && FromOrTo(b, c, parent)
    ensures FromOrTo(a, c, parent)
  {
    forall p | p in c && !(!p.guilty && p.suspect == parent) ensures exists q :: q in a && Stems(p, q) {
      var q :| q in b && Stems(p, q);
      var r :| r in a && Stems(q, r);
      assert Stems(p, r);
    }
  }

  lemma FromOrToSame(board: seq<Piece>, parent: Suspect)
    ensures FromOrTo(board, board, parent)
  {
    forall p | p in board ensures exists q :: q in board && Stems(p, q) {
      assert Stems(p, p);
    }
  }

  lemma {:induction false} PassFromOrTo(board: seq<Piece>, hunks: seq<Hunk>, pa: nat, pb: nat, last: nat,
                                        target: Suspect, parent: Suspect)
    requires Sorted(hunks, pa, pb) && Bounded(board, target, last) && !Same(parent, target)
    ensures FromOrTo(board, Pass(board, hunks, pa, pb, last, target, parent), parent)
    decreases |hunks|
  {
    hide FromOrTo, Chunk;
    if hunks == [] {
      ChunkFromOrTo(board, Range(pb, pa, last, target, parent));
    } else {
      var h := hunks[0];
      var c := Range(pb, pa, h.startB, target, parent);
      var pa', pb' := h.startA + h.countA, h.startB + h.countB;
      ChunkBounded(board, c, last);
      ChunkFromOrTo(board, c);
      PassFromOrTo(Chunk(board, c), hunks[1..], pa', pb', last, target, parent);
      FromOrToTwice(board, Chunk(board, c), Pass(Chunk(board, c), hunks[1..], pa', pb', last, target, parent), parent);
    }
  }

  lemma PassedFromOrTo(board: seq<Piece>, suspect: Suspect, f: Found)
    ensures PassedAll(board, suspect, [f]) == PassedTo(board, suspect, f)
    ensures FromOrTo(board, PassedTo(board, suspect, f), f.Who())
  {
    hide FromOrTo, Pass, Sorted, Bounded, Last;
    FromOrToSame(board, f.Who());
    if Sorted(f.hunks, 0, 0) && Bounded(board, suspect, Last(board, suspect)) && !Same(f.Who(), suspect) {
      PassFromOrTo(board, f.hunks, 0, 0, Last(board, suspect), suspect, f.Who());
    }
    assert [f][1..] == [];
  }

  // A round with one parent loses nothing, and then only the parent can be suspected.
  lemma OneRound(board: seq<Piece>, now: Suspect, suspect: Suspect, sight: Sight, owner: nat -> nat, gen: nat -> nat)
    returns (next: Suspect)
    requires UpTo(board, now, owner, gen) && Same(suspect, now)
    requires NoChoice(sight.parents, owner) && Earlier(suspect, sight.parents, gen)
    ensures Leaks(board, sight.blob, sight.parents) == 0
    ensures UpTo(Owned(Passed(board, suspect, sight.blob, sight.parents), suspect), next, owner, gen)
  {
    var parents := sight.parents;
    if parents == [] || parents[0].None? {
      next := now;
      NobodyFound(board, suspect, sight);
      OwnedSameUpTo(board, suspect, now, owner, gen);
    } else {
      var f := parents[0].value;
      assert Some(f) in parents;
      next := f.Who();
      NoMatches(board, now, f, owner, gen);
      OneFound(board, suspect, sight, f);
      if f.blob == sight.blob {
        WholeUpTo(board, suspect, now, f.Who(), owner, gen);
      } else {
        PassedFromOrTo(board, suspect, f);
        OwnedUpTo(board, PassedTo(board, suspect, f), f.Who(), suspect, now, owner, gen);
      }
    }
  }

  lemma NobodyFound(board: seq<Piece>, suspect: Suspect, sight: Sight)
    requires |sight.parents| <= 1 && (sight.parents == [] || sight.parents[0].None?)
    ensures Leaks(board, sight.blob, sight.parents) == 0 && Passed(board, suspect, sight.blob, sight.parents) == board
  {
    var parents := sight.parents;
    if parents != [] {
      assert parents[1..] == [] && parents[..0] == [] && parents == [None];
      assert Kept(parents) == Kept(parents[..0]) == [];
      assert SameBlob(parents, sight.blob) == SameBlob(parents[1..], sight.blob) == None;
      assert Leaks(board, sight.blob, parents) == Leaks(board, sight.blob, parents[1..]);
    }
  }

  lemma OneFound(board: seq<Piece>, suspect: Suspect, sight: Sight, f: Found)
    requires sight.parents == [Some(f)]
    ensures Leaks(board, sight.blob, sight.parents) == LeaksAt(board, f)
    ensures Passed(board, suspect, sight.blob, sight.parents) ==
      if f.blob == sight.blob then Whole(board, suspect, f.Who()) else PassedAll(board, suspect, [f])
  {
    hide Whole, PassedAll, LeaksAt;
    var parents := sight.parents;
    assert parents[1..] == [] && parents[..0] == [];
    assert Kept(parents[..0]) == [];
    assert Kept(parents) == [f];
    assert SameBlob(parents[1..], sight.blob) == None;
    assert f.blob != sight.blob ==> SameBlob(parents, sight.blob) == SameBlob(parents[1..], sight.blob);
    assert Leaks(board, sight.blob, parents[1..]) == 0;
  }

  // No piece has the object of an earlier commit.
  lemma {:induction false} NoMatches(board: seq<Piece>, now: Suspect, f: Found, owner: nat -> nat, gen: nat -> nat)
    requires UpTo(board, now, owner, gen) && gen(f.commit) < gen(now.commit) && owner(f.handle) == f.commit
    requires f.how.Renamed? ==> f.how.dropped == []
    ensures LeaksAt(board, f) == 0
    decreases |board|
  {
    if f.how.AsBefore? && board != [] {
      assert board[0] in board && board == [board[0]] + board[1..];
      NoMatches(board[1..], now, f, owner, gen);
      assert LeaksAt(board[1..], f) == Matches(board[1..], f.handle, f.path);
    }
  }

  lemma OwnedUpTo(board: seq<Piece>, passed: seq<Piece>, parent: Suspect, suspect: Suspect, now: Suspect,
                  owner: nat -> nat, gen: nat -> nat)
    requires UpTo(board, now, owner, gen) && Same(suspect, now) && FromOrTo(board, passed, parent)
    requires gen(parent.commit) <= gen(now.commit) && owner(parent.handle) == parent.commit
    ensures UpTo(Owned(passed, suspect), parent, owner, gen)
  {
    hide Owned;
    forall p | p in Owned(passed, suspect) ensures PieceUpTo(p, parent, owner, gen) {
      var i :| 0 <= i < |passed| && p == Owned(passed, suspect)[i];
      var x := passed[i];
      assert x in passed && p == Own(x, suspect);
      if x.guilty || x.suspect != parent {
        var q :| q in board && Stems(x, q);
        assert PieceUpTo(q, now, owner, gen);
      }
    }
  }

  lemma OwnedSameUpTo(board: seq<Piece>, suspect: Suspect, now: Suspect, owner: nat -> nat, gen: nat -> nat)
    requires UpTo(board, now, owner, gen) && Same(suspect, now)
    ensures UpTo(Owned(board, suspect), now, owner, gen)
  {
    hide Owned;
    forall p | p in Owned(board, suspect) ensures PieceUpTo(p, now, owner, gen) {
      var i :| 0 <= i < |board| && p == Owned(board, suspect)[i];
      assert board[i] in board && p == Own(board[i], suspect) && PieceUpTo(board[i], now, owner, gen);
    }
  }

  lemma WholeUpTo(board: seq<Piece>, suspect: Suspect, now: Suspect, parent: Suspect, owner: nat -> nat,
                  gen: nat -> nat)
    requires UpTo(board, now, owner, gen) && Same(suspect, now)
    requires owner(parent.handle) == parent.commit && gen(parent.commit) < gen(now.commit)
    ensures UpTo(Owned(Whole(board, suspect, parent), suspect), parent, owner, gen)
  {
    hide Whole, Owned;
    var whole := Whole(board, suspect, parent);
    forall p | p in Owned(whole, suspect) ensures PieceUpTo(p, parent, owner, gen) {
      var i :| 0 <= i < |whole| && p == Owned(whole, suspect)[i];
      assert board[i] in board && PieceUpTo(board[i], now, owner, gen);
      assert whole[i] == Given(board[i], suspect, parent) && p == Own(whole[i], suspect);
    }
  }

  lemma {:induction false} StageUpTo<L>(start: Piece, sights: Sights, owner: nat -> nat, gen: nat -> nat, k: nat,
                                        files: (nat, string) -> File<L>) returns (now: Suspect)
    requires Truthful(sights, gen, files) && OneParent(sights, owner)
    requires owner(start.suspect.handle) == start.suspect.commit
    ensures var s := AfterRounds([start], sights, k); s.lost == 0 && UpTo(s.board, now, owner, gen)
  {
    hide UpTo, NoChoice, Passed, Owned, Trusted, Leaks, First;
    if k == 0 {
      now := start.suspect;
      StartUpTo(start, owner, gen);
    } else {
      var before := StageUpTo(start, sights, owner, gen, k - 1, files);
      var s := AfterRounds([start], sights, k - 1);
      now := before;
      if !s.IsDone() {
        var suspect := s.Suspected();
        var sight := SightOf(sights, k - 1, suspect);
        assert NoChoice(sight.parents, owner);
        SuspectIsNow(s, before, owner, gen);
        now := OneRound(s.board, before, suspect, sight, owner, gen);
      }
    }
  }

  lemma StartUpTo(start: Piece, owner: nat -> nat, gen: nat -> nat)
    requires owner(start.suspect.handle) == start.suspect.commit
    ensures UpTo([start], start.suspect, owner, gen)
  {}

  lemma SuspectIsNow(s: Stage, now: Suspect, owner: nat -> nat, gen: nat -> nat)
    requires UpTo(s.board, now, owner, gen) && !s.IsDone()
    ensures Same(s.Suspected(), now)
  {
    assert s.board[First(s.board)] in s.board;
  }

  // Where each commit is looked at with at most one parent, as it is when only first parents are asked
  // for, and no rename is dropped, no count is ever lost.
  lemma OneParentLosesNothing<L>(start: Piece, sights: Sights, owner: nat -> nat, gen: nat -> nat, k: nat,
                                 files: (nat, string) -> File<L>)
    requires Truthful(sights, gen, files) && OneParent(sights, owner)
    requires owner(start.suspect.handle) == start.suspect.commit
    ensures AfterRounds([start], sights, k).lost == 0
  {
    hide Truthful, OneParent, AfterRounds, UpTo;
    var now := StageUpTo(start, sights, owner, gen, k, files);
  }

  // ----- a history with a merge

  // Commit 3 has the lines x, r, y; its parents are 1, with x and r, and 2, which has r, y and z like
  // the parent 0 of both, since it changed other files only.
  function MergeFiles(commit: nat, path: string): File<char> {
    if path != "f" then ""
    else
      match commit
      case 0 => "ryz"
      case 1 => "xr"
      case 2 => "ryz"
      case 3 => "xry"
      case _ => ""
  }

  function MergeGen(commit: nat): nat {
    match commit
    case 0 => 0
    case 1 => 1
    case 2 => 1
    case 3 => 2
    case _ => 3
  }

  function Rewritten(commit: nat, blob: nat, hunks: seq<Hunk>): Option<Found> {
    Some(Found(commit, commit, "f", Renamed([]), blob, hunks))
  }

  function MergeSights(k: nat, commit: nat, path: string): Sight {
    if path != "f" then Sight(0, [])
    else
      match commit
      case 1 => Sight(1, [Rewritten(0, 2, [Hunk(0, 0, 0, 1), Hunk(1, 2, 2, 0)])])
      case 2 => Sight(2, [Some(Found(0, 0, "f", AsBefore, 2, []))])
      case 3 =>
        Sight(3, [Rewritten(1, 1, [Hunk(2, 0, 2, 1)]), Rewritten(2, 2, [Hunk(0, 0, 0, 1), Hunk(2, 1, 3, 0)])])
      case _ => Sight(2, [])
  }

  function Of(commit: nat): Suspect {
    Suspect(commit, commit, "f")
  }

  // A path is taken as it was before only where the file did not change.
  ghost predicate AsBeforeIsSame(sights: Sights) {
    forall k: nat, suspect: Suspect, f: Found :: Some(f) in SightOf(sights, k, suspect).parents && f.how.AsBefore? ==>
      f.path == suspect.path && f.blob == SightOf(sights, k, suspect).blob
  }

  lemma MergeIsTruthful()
    ensures Truthful(MergeSights, MergeGen, MergeFiles) && AsBeforeIsSame(MergeSights)
  {
    forall k: nat, suspect: Suspect, f: Found | Some(f) in SightOf(MergeSights, k, suspect).parents
      ensures Trusted(suspect, SightOf(MergeSights, k, suspect).blob, f, MergeFiles)
      ensures MergeGen(f.commit) < MergeGen(suspect.commit)
    {
      assert suspect.path == "f";
      match suspect.commit
      case 1 => DiffOfOne();
      case 2 =>
      case 3 => DiffsOfMerge();
      case _ =>
    }
  }

  lemma DiffOfOne()
    ensures Diff("ryz", "xr", 0, 0, [Hunk(0, 0, 0, 1), Hunk(1, 2, 2, 0)])
  {
    var hs := [Hunk(0, 0, 0, 1), Hunk(1, 2, 2, 0)];
    assert hs[1..] == [Hunk(1, 2, 2, 0)] && hs[1..][1..] == [];
    assert "ryz"[3..] == "xr"[2..];
    assert Diff("ryz", "xr", 0, 1, hs[1..]);
  }

  lemma DiffsOfMerge()
    ensures Diff("xr", "xry", 0, 0, [Hunk(2, 0, 2, 1)])
    ensures Diff("ryz", "xry", 0, 0, [Hunk(0, 0, 0, 1), Hunk(2, 1, 3, 0)])
  {
    var hs := [Hunk(0, 0, 0, 1), Hunk(2, 1, 3, 0)];
    assert hs[1..] == [Hunk(2, 1, 3, 0)] && hs[1..][1..] == [] && [Hunk(2, 0, 2, 1)][1..] == [];
    assert "xr"[2..] == "xry"[3..] && "ryz"[3..] == "xry"[3..];
    assert Diff("ryz", "xry", 0, 1, hs[1..]);
  }

  // The boards of the five rounds.
  function MergeBoard(k: nat): seq<Piece> {
    match k
    case 0 => [Piece(0, 3, 0, Of(3), false)]
    case 1 => [Piece(0, 2, 0, Of(1), false), Piece(2, 1, 1, Of(2), false)]
    case 2 => [Piece(0, 1, 0, Of(1), true), Piece(1, 1, 0, Of(0), false), Piece(2, 1, 1, Of(2), false)]
    case 3 => [Piece(0, 1, 0, Of(1), true), Piece(1, 1, 0, Of(0), true), Piece(2, 1, 1, Of(2), false)]
    case 4 => [Piece(0, 1, 0, Of(1), true), Piece(1, 1, 0, Of(0), true), Piece(2, 1, 1, Of(0), false)]
    case _ => [Piece(0, 1, 0, Of(1), true), Piece(1, 1, 0, Of(0), true), Piece(2, 1, 1, Of(0), true)]
  }

  // One chunk of a board of one piece, or of two of which the second is touched or none.
  lemma ChunkOf1(p: Piece, c: Range)
    requires p.num > 0 && c.tlno <= c.same
    ensures Fits([p], c) && Chunk([p], c) == if Touched(p, c) then Split(p, c) else [p]
  {
    hide Split;
    ChunkFirst(p, [], c);
    assert [p] + [] == [p];
    ChunkNone(c);
  }

  lemma ChunkOf2(p: Piece, q: Piece, c: Range)
    requires p.num > 0 && q.num > 0 && c.tlno <= c.same && !Touched(p, c)
    ensures Fits([p, q], c) && Chunk([p, q], c) == [p] + if Touched(q, c) then Split(q, c) else [q]
  {
    hide Split;
    assert [p] + [q] == [p, q];
    ChunkFirst(p, [q], c);
    ChunkOf1(q, c);
  }

  // What commit 3 hands to commit 1, and then to commit 2.
  lemma ToOne()
    ensures PassedTo(MergeBoard(0), Of(3), Rewritten(1, 1, [Hunk(2, 0, 2, 1)]).value)
         == [Piece(0, 2, 0, Of(1), false), Piece(2, 1, 2, Of(3), false)]
  {
    hide Chunk, Pass, Last, Split, PassedTo;
    var b, p, hs := MergeBoard(0), Piece(0, 3, 0, Of(3), false), [Hunk(2, 0, 2, 1)];
    var q, r := Piece(0, 2, 0, Of(1), false), Piece(2, 1, 2, Of(3), false);
    assert hs[1..] == [] && hs[0..] == hs;
    LastOf1(p, Of(3));
    ChunkOf1(p, Range(0, 0, 2, Of(3), Of(1)));
    SplitOfThree();
    assert [q] + [r] == [q, r];
    PassStep(b, hs, 0, 0, 0, 3, Of(3), Of(1));
    PassEnd([q, r], 2, 3, 3, Of(3), Of(1));
    ChunkOf2(q, r, Range(3, 2, 3, Of(3), Of(1)));
    PassedToIs(b, Of(3), Rewritten(1, 1, hs).value, 3, [q, r]);
  }

  lemma SplitOfThree()
    ensures var p, c := Piece(0, 3, 0, Of(3), false), Range(0, 0, 2, Of(3), Of(1));
      Touched(p, c) && Split(p, c) == [Piece(0, 2, 0, Of(1), false), Piece(2, 1, 2, Of(3), false)]
  {
    hide Split;
    SplitOff(Piece(0, 3, 0, Of(3), false), Range(0, 0, 2, Of(3), Of(1)));
  }

  // A piece of which the first lines are in the range.
  lemma SplitOff(p: Piece, c: Range)
    requires Touched(p, c) && c.tlno == p.s_lno <= c.same < p.s_lno + p.num && p.s_lno < c.same
    ensures Split(p, c) == [Piece(p.lno, c.same - p.s_lno, c.plno, c.parent, false),
                            Piece(p.lno + (c.same - p.s_lno), p.s_lno + p.num - c.same, c.same, p.suspect, false)]
  {
    var middle := Piece(p.lno, c.same - p.s_lno, c.plno, c.parent, false);
    assert Max(c.tlno, p.s_lno) == p.s_lno && Min(c.same, p.s_lno + p.num) == c.same;
    assert [] + [middle] == [middle];
  }

  lemma PassedToIs(board: seq<Piece>, suspect: Suspect, f: Found, last: nat, b: seq<Piece>)
    requires Sorted(f.hunks, 0, 0) && Last(board, suspect) == last && Bounded(board, suspect, last)
    requires !Same(f.Who(), suspect) && Pass(board, f.hunks, 0, 0, last, suspect, f.Who()) == b
    ensures PassedTo(board, suspect, f) == b
  {}

  lemma LastOf1(p: Piece, suspect: Suspect)
    ensures Last([p], suspect) == if !p.guilty && Same(p.suspect, suspect) then p.s_lno + p.num else 0
  {
    assert [p][1..] == [];
  }

  lemma LastOf2(p: Piece, q: Piece, suspect: Suspect)
    ensures Last([p, q], suspect) ==
      if !p.guilty && Same(p.suspect, suspect) then Max(p.s_lno + p.num, Last([q], suspect)) else Last([q], suspect)
  {
    assert [p, q][1..] == [q];
  }

  lemma ToTwo()
    ensures PassedTo([Piece(0, 2, 0, Of(1), false), Piece(2, 1, 2, Of(3), false)], Of(3),
                     Rewritten(2, 2, [Hunk(0, 0, 0, 1), Hunk(2, 1, 3, 0)]).value)
         == MergeBoard(1)
  {
    hide Chunk, Pass, Last, Split, PassedTo;
    var q, r, t := Piece(0, 2, 0, Of(1), false), Piece(2, 1, 2, Of(3), false), Piece(2, 1, 1, Of(2), false);
    var b, hs := [q, r], [Hunk(0, 0, 0, 1), Hunk(2, 1, 3, 0)];
    assert hs[1..] == [hs[1]] && hs[0..] == hs && hs[2..] == [] && [hs[1]][1..] == [];
    LastOf2(q, r, Of(3));
    LastOf1(r, Of(3));
    PassStep(b, hs, 0, 0, 0, 3, Of(3), Of(2));
    assert [q] + [r] == b && [q] + [t] == [q, t];
    ChunkOf2(q, r, Range(0, 0, 0, Of(3), Of(2)));
    PassStep(b, hs, 1, 0, 1, 3, Of(3), Of(2));
    ChunkOf2(q, r, Range(1, 0, 3, Of(3), Of(2)));
    SplitOfTwo();
    PassEnd([q, t], 3, 3, 3, Of(3), Of(2));
    ChunkOf2(q, t, Range(3, 3, 3, Of(3), Of(2)));
    PassedToIs(b, Of(3), Rewritten(2, 2, hs).value, 3, [q, t]);
  }

  lemma SplitOfTwo()
    ensures var r, c := Piece(2, 1, 2, Of(3), false), Range(1, 0, 3, Of(3), Of(2));
      Touched(r, c) && Split(r, c) == [Piece(2, 1, 1, Of(2), false)]
  {}

  lemma MergeRound1()
    ensures NextStage(Stage(MergeBoard(0), 0), MergeSights, 0) == Stage(MergeBoard(1), 0)
  {
    hide PassedTo;
    var b := MergeBoard(0);
    var f, g := Rewritten(1, 1, [Hunk(2, 0, 2, 1)]), Rewritten(2, 2, [Hunk(0, 0, 0, 1), Hunk(2, 1, 3, 0)]);
    FirstIs(b, 0);
    TwoFound(b, Of(3), 3, f.value, g.value);
    ToOne();
    ToTwo();
    assert [f.value, g.value][1..] == [g.value] && [g.value][1..] == [];
    assert PassedAll(b, Of(3), [f.value, g.value]) == PassedAll(PassedTo(b, Of(3), f.value), Of(3), [g.value]);
    assert Owned(MergeBoard(1), Of(3)) == MergeBoard(1);
  }

  lemma TwoFound(board: seq<Piece>, suspect: Suspect, blob: nat, f: Found, g: Found)
    requires f.blob != blob && g.blob != blob && f.blob != g.blob && f.how == Renamed([]) && g.how == Renamed([])
    ensures Leaks(board, blob, [Some(f), Some(g)]) == 0
    ensures Passed(board, suspect, blob, [Some(f), Some(g)]) == PassedAll(board, suspect, [f, g])
  {
    hide PassedAll, Whole;
    var parents := [Some(f), Some(g)];
    assert parents[1..] == [Some(g)] && [Some(g)][1..] == [] && parents[..1] == [Some(f)] && [Some(f)][..0] == [];
    assert Kept([Some(f)]) == [f];
    assert Kept(parents) == [f, g];
    assert SameBlob([], blob) == None && SameBlob([Some(g)], blob) == None && SameBlob(parents, blob) == None;
    assert Leaks(board, blob, []) == 0 && Leaks(board, blob, [Some(g)]) == 0;
  }

  // What commit 1 hands to commit 0.
  lemma OneToNone()
    ensures PassedTo(MergeBoard(1), Of(1), Rewritten(0, 2, [Hunk(0, 0, 0, 1), Hunk(1, 2, 2, 0)]).value)
         == [Piece(0, 1, 0, Of(1), false), Piece(1, 1, 0, Of(0), false), Piece(2, 1, 1, Of(2), false)]
  {
    hide Chunk, Pass, Last, Split, PassedTo;
    var q, r := Piece(0, 2, 0, Of(1), false), Piece(2, 1, 1, Of(2), false);
    var x, y := Piece(0, 1, 0, Of(1), false), Piece(1, 1, 0, Of(0), false);
    var b, hs := [q, r], [Hunk(0, 0, 0, 1), Hunk(1, 2, 2, 0)];
    assert hs[1..] == [hs[1]] && hs[0..] == hs && hs[2..] == [] && [hs[1]][1..] == [];
    LastOf2(q, r, Of(1));
    LastOf1(r, Of(1));
    PassStep(b, hs, 0, 0, 0, 2, Of(1), Of(0));
    assert [q] + [r] == b;
    ChunkOf2(q, r, Range(0, 0, 0, Of(1), Of(0)));
    PassStep(b, hs, 1, 0, 1, 2, Of(1), Of(0));
    OneToNoneChunk(q, r);
    PassEnd([x, y, r], 3, 2, 2, Of(1), Of(0));
    var c := Range(2, 3, 2, Of(1), Of(0));
    assert [x] + [y, r] == [x, y, r] && [y] + [r] == [y, r];
    ChunkFirst(x, [y, r], c);
    ChunkOf2(y, r, c);
    PassedToIs(b, Of(1), Rewritten(0, 2, hs).value, 2, [x, y, r]);
  }

  lemma OneToNoneChunk(q: Piece, r: Piece)
    requires q == Piece(0, 2, 0, Of(1), false) && r == Piece(2, 1, 1, Of(2), false)
    ensures var c := Range(1, 0, 2, Of(1), Of(0));
      && Fits([q, r], c)
      && Chunk([q, r], c) == [Piece(0, 1, 0, Of(1), false), Piece(1, 1, 0, Of(0), false), r]
  {
    hide Chunk;
    var c := Range(1, 0, 2, Of(1), Of(0));
    assert [q] + [r] == [q, r];
    ChunkFirst(q, [r], c);
    ChunkOf1(r, c);
    assert Split(q, c) == [Piece(0, 1, 0, Of(1), false), Piece(1, 1, 0, Of(0), false)];
  }

  lemma MergeRound2()
    ensures NextStage(Stage(MergeBoard(1), 0), MergeSights, 1) == Stage(MergeBoard(2), 0)
  {
    hide PassedTo, Passed, Leaks, First;
    var b := MergeBoard(1);
    var f := Rewritten(0, 2, [Hunk(0, 0, 0, 1), Hunk(1, 2, 2, 0)]);
    FirstIs(b, 0);
    OneFound(b, Of(1), Sight(1, [f]), f.value);
    PassedFromOrTo(b, Of(1), f.value);
    OneToNone();
    assert Owned(PassedTo(b, Of(1), f.value), Of(1)) == MergeBoard(2);
  }

  lemma MergeRound3()
    ensures NextStage(Stage(MergeBoard(2), 0), MergeSights, 2) == Stage(MergeBoard(3), 0)
  {
    var b := MergeBoard(2);
    FirstIs(b, 1);
    NobodyFound(b, Of(0), Sight(2, []));
  }

  lemma MergeRound4()
    ensures NextStage(Stage(MergeBoard(3), 0), MergeSights, 3) == Stage(MergeBoard(4), 1)
  {
    hide First, Passed, Leaks, LeaksAt, Owned, Whole, PassedAll;
    var b := MergeBoard(3);
    var f := Found(0, 0, "f", AsBefore, 2, []);
    FirstIs(b, 2);
    OneFound(b, Of(2), Sight(2, [Some(f)]), f);
    OneMatches(b, f);
    assert Owned(Whole(b, Of(2), f.Who()), Of(2)) == MergeBoard(4);
  }

  lemma OneMatches(b: seq<Piece>, f: Found)
    requires b == MergeBoard(3) && f == Found(0, 0, "f", AsBefore, 2, [])
    ensures LeaksAt(b, f) == 1
  {
    hide Matches;
    MatchesFirst(b, 0, "f");
    MatchesNext(b, 0, 0, "f");
    MatchesNext(b, 1, 0, "f");
    MatchesNext(b, 2, 0, "f");
  }

  lemma MergeRound5()
    ensures NextStage(Stage(MergeBoard(4), 1), MergeSights, 4) == Stage(MergeBoard(5), 1)
  {
    var b := MergeBoard(4);
    FirstIs(b, 2);
    NobodyFound(b, Of(0), Sight(2, []));
  }

  // The run over this history ends after five rounds, with one count lost.
  lemma MergeLoses(k: nat)
    requires k >= 5
    ensures AfterRounds([Piece(0, 3, 0, Of(3), false)], MergeSights, k) == Stage(MergeBoard(5), 1)
  {
    hide NextStage;
    var first := MergeBoard(0);
    assert AfterRounds(first, MergeSights, 0) == Stage(first, 0);
    MergeRound1();
    assert AfterRounds(first, MergeSights, 1) == Stage(MergeBoard(1), 0);
    MergeRound2();
    assert AfterRounds(first, MergeSights, 2) == Stage(MergeBoard(2), 0);
    MergeRound3();
    assert AfterRounds(first, MergeSights, 3) == Stage(MergeBoard(3), 0);
    MergeRound4();
    assert AfterRounds(first, MergeSights, 4) == Stage(MergeBoard(4), 1);
    MergeRound5();
    assert AfterRounds(first, MergeSights, 5) == Stage(MergeBoard(5), 1);
    FirstIs(MergeBoard(5), 3);
    Settled(first, MergeSights, 5, k);
  }
}
