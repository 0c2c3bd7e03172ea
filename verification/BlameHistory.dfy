// The rounds of git_blame__like_git on values: what the entries become, how many counts are lost, that
// the rounds end, and who is blamed in the end. That they end rests on the commits alone: a parent is
// of an earlier generation than its child.

module BlameHistory {
  import opened BlameBoard
  import opened BlameParents
  import opened Options

  // What one round finds: the blob of the suspect, and its file in each parent.
  datatype Sight = Sight(blob: nat, parents: seq<Option<Found>>)

  // What the k-th round finds for a suspect. A later round can find something else for it, since the
  // paths that are looked for become more.
  type Sights = (nat, nat, string) -> Sight

  function SightOf(sights: Sights, k: nat, suspect: Suspect): Sight {
    sights(k, suspect.commit, suspect.path)
  }

  // What is found is true of the files, and in parents of earlier generations.
  ghost predicate Truthful<L>(sights: Sights, gen: nat -> nat, files: (nat, string) -> File<L>) {
    forall k: nat, suspect: Suspect, f: Found :: Some(f) in SightOf(sights, k, suspect).parents ==>
      Trusted(suspect, SightOf(sights, k, suspect).blob, f, files) && gen(f.commit) < gen(suspect.commit)
  }

  // The board, and how many counts have been taken that nobody gives back.
  datatype Stage = Stage(board: seq<Piece>, lost: nat) {
    predicate IsDone() {
      First(board) == |board|
    }

    function Suspected(): Suspect
      requires !IsDone()
    {
      board[First(board)].suspect
    }
  }

  // The k-th round.
  function NextStage(s: Stage, sights: Sights, k: nat): Stage {
    if s.IsDone() then s
    else
      var suspect := s.Suspected();
      var sight := SightOf(sights, k, suspect);
      Stage(Owned(Passed(s.board, suspect, sight.blob, sight.parents), suspect),
            s.lost + Leaks(s.board, sight.blob, sight.parents))
  }

  function AfterRounds(first: seq<Piece>, sights: Sights, k: nat): Stage {
    if k == 0 then Stage(first, 0) else NextStage(AfterRounds(first, sights, k - 1), sights, k - 1)
  }

  lemma DoneIsGuilty(s: Stage)
    ensures s.IsDone() <==> forall p :: p in s.board ==> p.guilty
  {
    if !s.IsDone() {
      assert s.board[First(s.board)] in s.board;
    }
  }

  // When nobody is suspected any more the rounds change nothing.
  lemma {:induction false} Settled(first: seq<Piece>, sights: Sights, k: nat, n: nat)
    requires k <= n && AfterRounds(first, sights, k).IsDone()
    ensures AfterRounds(first, sights, n) == AfterRounds(first, sights, k)
    decreases n
  {
    hide First, Passed, Owned, Leaks;
    if k < n {
      Settled(first, sights, k, n - 1);
    }
  }

  // ----- the meaning of the board

  lemma {:induction false} PassedAllMeans<L>(board: seq<Piece>, suspect: Suspect, blob: nat, kept: seq<Found>,
                                             from: nat, to: nat, files: (nat, string) -> File<L>, final: File<L>)
    requires Covers(board, from, to) && Means(board, from, to, files, final)
    requires forall f :: f in kept ==> Trusted(suspect, blob, f, files)
    ensures Covers(PassedAll(board, suspect, kept), from, to)
    ensures Means(PassedAll(board, suspect, kept), from, to, files, final)
    decreases |kept|
  {
    hide Covers, Means, Pass, Diff, Bounded, Last, Sorted;
    if kept != [] {
      var f := kept[0];
      assert f in kept && Trusted(suspect, blob, f, files);
      PassMeans(board, f.hunks, suspect, f.Who(), from, to, files, final);
      PassedAllMeans(PassedTo(board, suspect, f), suspect, blob, kept[1..], from, to, files, final);
    }
  }

  lemma PassedMeans<L>(board: seq<Piece>, suspect: Suspect, sight: Sight, from: nat, to: nat,
                       files: (nat, string) -> File<L>, final: File<L>)
    requires Covers(board, from, to) && Means(board, from, to, files, final)
    requires forall f :: Some(f) in sight.parents ==> Trusted(suspect, sight.blob, f, files)
    ensures var b := Passed(board, suspect, sight.blob, sight.parents);
      Covers(b, from, to) && Means(b, from, to, files, final)
  {
    hide Covers, Means, Whole, PassedAll, Diff, Kept;
    SameBlobIsParent(sight.parents, sight.blob);
    KeptAreParents(sight.parents);
    var whole := SameBlob(sight.parents, sight.blob);
    if whole.Some? {
      WholeMeans(board, suspect, whole.value.Who(), from, to, files, final);
    } else {
      PassedAllMeans(board, suspect, sight.blob, Kept(sight.parents), from, to, files, final);
    }
  }

  // After any number of rounds the pieces cover the lines and each line reads the same.
  lemma {:induction false} StageMeans<L>(first: seq<Piece>, sights: Sights, gen: nat -> nat, k: nat, from: nat, to: nat,
                                         files: (nat, string) -> File<L>, final: File<L>)
    requires Covers(first, from, to) && Means(first, from, to, files, final) && Truthful(sights, gen, files)
    ensures var b := AfterRounds(first, sights, k).board;
      Covers(b, from, to) && Means(b, from, to, files, final)
  {
    hide Covers, Means, Passed, Owned, Trusted;
    if k > 0 {
      StageMeans(first, sights, gen, k - 1, from, to, files, final);
      var s := AfterRounds(first, sights, k - 1);
      if !s.IsDone() {
        var suspect := s.Suspected();
        var sight := SightOf(sights, k - 1, suspect);
        PassedMeans(s.board, suspect, sight, from, to, files, final);
        OwnedMeans(Passed(s.board, suspect, sight.blob, sight.parents), suspect, from, to, files, final);
      }
    }
  }

  // ----- the end

  // How many generations the blame of a line can still go back.
  ghost function Distance(b: Blamed, gen: nat -> nat): nat {
    if b.guilty then 0 else gen(b.suspect.commit) + 1
  }

  // The distances of the lines below l.
  ghost function Distances(board: seq<Piece>, from: nat, to: nat, gen: nat -> nat, l: nat): nat
    requires Covers(board, from, to) && l <= to
  {
    if l <= from then 0 else Distances(board, from, to, gen, l - 1) + Distance(At(board, from, to, l - 1), gen)
  }

  // A line stays with its suspect or is handed to an earlier generation.
  ghost predicate Handed(b: Blamed, b': Blamed, suspect: Suspect, gen: nat -> nat) {
    || b' == b
    || (Same(b.suspect, suspect) && b'.guilty == b.guilty && gen(b'.suspect.commit) < gen(suspect.commit))
  }

  lemma {:induction false} PassedIsHanded(board: seq<Piece>, suspect: Suspect, kept: seq<Found>, from: nat, to: nat,
                                          gen: nat -> nat)
    requires Covers(board, from, to) && forall f :: f in kept ==> gen(f.commit) < gen(suspect.commit)
    ensures Covers(PassedAll(board, suspect, kept), from, to)
    ensures forall l :: from <= l < to ==>
      Handed(At(board, from, to, l), At(PassedAll(board, suspect, kept), from, to, l), suspect, gen)
    decreases |kept|
  {
    hide At, Covers, PassedTo;
    if kept != [] {
      var next := PassedTo(board, suspect, kept[0]);
      OneIsHanded(board, suspect, kept[0], from, to, gen);
      PassedIsHanded(next, suspect, kept[1..], from, to, gen);
    }
  }

  lemma OneIsHanded(board: seq<Piece>, suspect: Suspect, f: Found, from: nat, to: nat, gen: nat -> nat)
    requires Covers(board, from, to) && gen(f.commit) < gen(suspect.commit)
    ensures Covers(PassedTo(board, suspect, f), from, to)
    ensures forall l :: from <= l < to ==>
      Handed(At(board, from, to, l), At(PassedTo(board, suspect, f), from, to, l), suspect, gen)
  {
    hide At, Covers, Pass, Bounded, Last, Sorted, Origins;
    if Sorted(f.hunks, 0, 0) && Bounded(board, suspect, Last(board, suspect)) && !Same(f.Who(), suspect) {
      PassMoves(board, f.hunks, 0, 0, Last(board, suspect), suspect, f.Who(), from, to);
    }
  }

  // All that is found is of earlier generations.
  ghost predicate Earlier(suspect: Suspect, parents: seq<Option<Found>>, gen: nat -> nat) {
    forall f :: Some(f) in parents ==> gen(f.commit) < gen(suspect.commit)
  }

  lemma RoundHands(board: seq<Piece>, suspect: Suspect, sight: Sight, from: nat, to: nat, gen: nat -> nat)
    requires Covers(board, from, to) && Earlier(suspect, sight.parents, gen)
    ensures var b := Passed(board, suspect, sight.blob, sight.parents);
      && Covers(b, from, to)
      && forall l :: from <= l < to ==> Handed(At(board, from, to, l), At(b, from, to, l), suspect, gen)
  {
    hide At, Covers, Whole, PassedAll, Kept;
    SameBlobIsParent(sight.parents, sight.blob);
    KeptAreParents(sight.parents);
    var whole := SameBlob(sight.parents, sight.blob);
    if whole.Some? {
      WholeMoves(board, suspect, whole.value.Who(), from, to);
    } else {
      PassedIsHanded(board, suspect, Kept(sight.parents), from, to, gen);
    }
  }

  // A round brings no line further away, and every line of the suspect nearer.
  lemma RoundLowers(board: seq<Piece>, suspect: Suspect, sight: Sight, from: nat, to: nat, gen: nat -> nat)
    requires Covers(board, from, to) && Earlier(suspect, sight.parents, gen)
    ensures var b := Owned(Passed(board, suspect, sight.blob, sight.parents), suspect);
      && Covers(b, from, to)
      && forall l :: from <= l < to ==>
        var was, now := Distance(At(board, from, to, l), gen), Distance(At(b, from, to, l), gen);
        now <= was && (!At(board, from, to, l).guilty && Same(At(board, from, to, l).suspect, suspect) ==> now < was)
  {
    hide At, Covers, Passed, Owned, Earlier;
    RoundHands(board, suspect, sight, from, to, gen);
    OwnedMoves(Passed(board, suspect, sight.blob, sight.parents), suspect, from, to);
  }

  lemma {:induction false} SumLowers(board: seq<Piece>, board': seq<Piece>, from: nat, to: nat, gen: nat -> nat, l: nat,
                                     at: nat)
    requires Covers(board, from, to) && Covers(board', from, to) && l <= to && from <= at < to
    requires forall k :: from <= k < l ==>
      Distance(At(board', from, to, k), gen) <= Distance(At(board, from, to, k), gen)
    requires Distance(At(board', from, to, at), gen) < Distance(At(board, from, to, at), gen)
    ensures Distances(board', from, to, gen, l) <= Distances(board, from, to, gen, l) - (if at < l then 1 else 0)
  {
    hide At, Covers, Distance;
    if l > from {
      SumLowers(board, board', from, to, gen, l - 1, at);
    }
  }

  // What a line of a piece is blamed on.
  lemma {:induction false} LineOf(board: seq<Piece>, from: nat, to: nat, i: nat, j: nat)
    requires Covers(board, from, to) && i < |board| && j < board[i].num
    ensures var p := board[i];
      from <= p.lno + j < to && At(board, from, to, p.lno + j) == Blamed(p.suspect, p.s_lno + j, p.guilty)
  {
    CoversUp(board[1..], from + board[0].num, to);
    if i > 0 {
      LineOf(board[1..], from + board[0].num, to, i - 1, j);
    }
  }

  // A round brings the board nearer to its end.
  lemma RoundEnds(s: Stage, sights: Sights, k: nat, from: nat, to: nat, gen: nat -> nat)
    requires Covers(s.board, from, to) && !s.IsDone()
    requires Earlier(s.Suspected(), SightOf(sights, k, s.Suspected()).parents, gen)
    ensures var b := NextStage(s, sights, k).board;
      Covers(b, from, to) && Distances(b, from, to, gen, to) < Distances(s.board, from, to, gen, to)
  {
    hide At, Covers, Passed, Owned, Earlier, Distance, Distances, First;
    var i, sight := First(s.board), SightOf(sights, k, s.Suspected());
    CoversAt(s.board, i, from, to);
    LineOf(s.board, from, to, i, 0);
    RoundLowers(s.board, s.Suspected(), sight, from, to, gen);
    SumLowers(s.board, NextStage(s, sights, k).board, from, to, gen, to, s.board[i].lno);
  }

  lemma {:induction false} StageCovers<L>(first: seq<Piece>, sights: Sights, gen: nat -> nat, k: nat, from: nat,
                                          to: nat, files: (nat, string) -> File<L>)
    requires Covers(first, from, to) && Truthful(sights, gen, files)
    ensures var s := AfterRounds(first, sights, k);
      && Covers(s.board, from, to)
      && (s.IsDone() || k + Distances(s.board, from, to, gen, to) <= Distances(first, from, to, gen, to))
  {
    hide Covers, Distances, Passed, Owned, First, Trusted;
    if k > 0 {
      StageCovers(first, sights, gen, k - 1, from, to, files);
      var s := AfterRounds(first, sights, k - 1);
      if !s.IsDone() {
        RoundEnds(s, sights, k - 1, from, to, gen);
      }
    }
  }

  // After as many rounds as the lines are generations away from their end nobody is suspected.
  lemma EndsIn<L>(first: seq<Piece>, sights: Sights, gen: nat -> nat, k: nat, from: nat, to: nat,
                  files: (nat, string) -> File<L>)
    requires Covers(first, from, to) && Truthful(sights, gen, files) && k >= Distances(first, from, to, gen, to)
    ensures AfterRounds(first, sights, k).IsDone()
  {
    hide Covers, Truthful, First, AfterRounds;
    StageCovers(first, sights, gen, k, from, to, files);
    var s := AfterRounds(first, sights, k);
    if !s.IsDone() {
      hide Distances;
      NotDone(s.board, from, to, gen);
    }
  }

  lemma NotDone(board: seq<Piece>, from: nat, to: nat, gen: nat -> nat)
    requires Covers(board, from, to) && First(board) < |board|
    ensures Distances(board, from, to, gen, to) > 0
  {
    hide Covers, At;
    var i := First(board);
    CoversAt(board, i, from, to);
    LineOf(board, from, to, i, 0);
    SomeDistance(board, from, to, gen, to, board[i].lno);
  }

  lemma {:induction false} SomeDistance(board: seq<Piece>, from: nat, to: nat, gen: nat -> nat, l: nat, at: nat)
    requires Covers(board, from, to) && from <= at < l <= to && !At(board, from, to, at).guilty
    ensures Distances(board, from, to, gen, l) > 0
  {
    hide Covers, At;
    if at < l - 1 {
      SomeDistance(board, from, to, gen, l - 1, at);
    }
  }

  // ----- who brought a line

  // The line is in a hunk against this parent, or against another one with the same file.
  predicate IsNew(parents: seq<Option<Found>>, f: Found, line: nat) {
    exists i :: 0 <= i < |parents| && parents[i].Some?
                && parents[i].value.blob == f.blob && Origins(0, 0, parents[i].value.hunks, line).InTarget?
  }

  // The k-th round makes its suspect guilty of line l: no parent has the same file, and against each parent in
  // which the file was found the line is in a hunk, so that it comes from none of them.
  ghost predicate Brings(s: Stage, sights: Sights, k: nat, from: nat, to: nat, l: nat) {
    && !s.IsDone() && Covers(s.board, from, to) && from <= l < to
    && var suspect, b := s.Suspected(), At(s.board, from, to, l);
       var sight := SightOf(sights, k, suspect);
       && !b.guilty && Same(b.suspect, suspect) && NoneHas(sight.parents, sight.blob)
       && forall f :: Some(f) in sight.parents ==> IsNew(sight.parents, f, b.line)
  }

  // A line of the suspect that is not handed on is in a hunk of every parent.
  lemma {:induction false} StaysInHunks<L>(board: seq<Piece>, suspect: Suspect, blob: nat, kept: seq<Found>, from: nat,
                                           to: nat, gen: nat -> nat, files: (nat, string) -> File<L>, l: nat)
    requires Covers(board, from, to) && from <= l < to
    requires forall f :: f in kept ==> Trusted(suspect, blob, f, files) && gen(f.commit) < gen(suspect.commit)
    requires var b := At(board, from, to, l); !b.guilty && Same(b.suspect, suspect)
    ensures Covers(PassedAll(board, suspect, kept), from, to)
    ensures At(PassedAll(board, suspect, kept), from, to, l) == At(board, from, to, l) ==>
      forall f :: f in kept ==> Origins(0, 0, f.hunks, At(board, from, to, l).line).InTarget?
    decreases |kept|
  {
    hide At, Covers, PassedTo, Origins, Diff;
    if kept != [] {
      var f := kept[0];
      assert f in kept && Trusted(suspect, blob, f, files);
      assert kept == [f] + kept[1..];
      var next := PassedTo(board, suspect, f);
      OneStays(board, suspect, blob, f, from, to, files, l);
      PassedIsHanded(next, suspect, kept[1..], from, to, gen);
      if At(next, from, to, l) == At(board, from, to, l) {
        StaysInHunks(next, suspect, blob, kept[1..], from, to, gen, files, l);
      }
    }
  }

  lemma OneStays<L>(board: seq<Piece>, suspect: Suspect, blob: nat, f: Found, from: nat, to: nat,
                    files: (nat, string) -> File<L>, l: nat)
    requires Covers(board, from, to) && from <= l < to && Trusted(suspect, blob, f, files)
    requires var b := At(board, from, to, l); !b.guilty && Same(b.suspect, suspect)
    ensures Covers(PassedTo(board, suspect, f), from, to)
    ensures var b, b' := At(board, from, to, l), At(PassedTo(board, suspect, f), from, to, l);
      if Origins(0, 0, f.hunks, b.line).InTarget? then b' == b else b'.suspect == f.Who() && !b'.guilty
  {
    hide At, Covers, Pass, Bounded, Last, Sorted, Origins, Diff;
    DiffSorted(files(f.commit, f.path), files(suspect.commit, suspect.path), 0, 0, f.hunks);
    LastBounds(board, suspect, from, to);
    PassMoves(board, f.hunks, 0, 0, Last(board, suspect), suspect, f.Who(), from, to);
  }

  // Whoever becomes guilty in a round is its suspect, and brought the line.
  lemma GuiltyBrings<L>(s: Stage, sights: Sights, gen: nat -> nat, k: nat, from: nat, to: nat,
                        files: (nat, string) -> File<L>, l: nat)
    requires Covers(s.board, from, to) && from <= l < to && Truthful(sights, gen, files)
    requires !At(s.board, from, to, l).guilty
    ensures var b := NextStage(s, sights, k).board;
      && Covers(b, from, to)
      && (At(b, from, to, l).guilty ==>
            Brings(s, sights, k, from, to, l) && At(b, from, to, l) == At(s.board, from, to, l).(guilty := true))
  {
    hide At, Covers, Passed, Owned, Trusted, Origins, First, Whole, PassedAll, Kept;
    if !s.IsDone() {
      var suspect := s.Suspected();
      var sight := SightOf(sights, k, suspect);
      var passed := Passed(s.board, suspect, sight.blob, sight.parents);
      RoundHands(s.board, suspect, sight, from, to, gen);
      OwnedMoves(passed, suspect, from, to);
      if At(NextStage(s, sights, k).board, from, to, l).guilty {
        StayedBrings(s, sights, gen, k, from, to, files, l);
      }
    }
  }

  lemma StayedBrings<L>(s: Stage, sights: Sights, gen: nat -> nat, k: nat, from: nat, to: nat,
                        files: (nat, string) -> File<L>, l: nat)
    requires Covers(s.board, from, to) && from <= l < to && Truthful(sights, gen, files) && !s.IsDone()
    requires var b, suspect := At(s.board, from, to, l), s.Suspected();
      var sight := SightOf(sights, k, suspect);
      var passed := Passed(s.board, suspect, sight.blob, sight.parents);
      && !b.guilty && Same(b.suspect, suspect)
      && Covers(passed, from, to) && At(passed, from, to, l) == b
    ensures Brings(s, sights, k, from, to, l)
  {
    hide At, Covers, Origins, First, Whole, PassedAll, Kept, Diff, IsNew, NoneHas;
    var suspect := s.Suspected();
    var sight := SightOf(sights, k, suspect);
    SameBlobIsParent(sight.parents, sight.blob);
    KeptAreParents(sight.parents);
    var whole := SameBlob(sight.parents, sight.blob);
    if whole.Some? {
      assert Some(whole.value) in sight.parents;
      WholeMoves(s.board, suspect, whole.value.Who(), from, to);
    } else {
      StaysInHunks(s.board, suspect, sight.blob, Kept(sight.parents), from, to, gen, files, l);
      SameBlobOrNone(sight.parents, sight.blob);
      KeptAreNew(sight.parents, At(s.board, from, to, l).line);
    }
  }

  lemma KeptAreNew(parents: seq<Option<Found>>, line: nat)
    requires forall f :: f in Kept(parents) ==> Origins(0, 0, f.hunks, line).InTarget?
    ensures forall f :: Some(f) in parents ==> IsNew(parents, f, line)
  {
    hide Kept, Origins;
    forall f | Some(f) in parents ensures IsNew(parents, f, line) {
      var g := KeptFor(parents, f);
      var i :| 0 <= i < |parents| && parents[i] == Some(g);
    }
  }

  // A guilty line stays where it is, unless a later round gives its file whole to a parent.
  lemma GuiltyStays<L>(s: Stage, sights: Sights, gen: nat -> nat, k: nat, from: nat, to: nat,
                       files: (nat, string) -> File<L>, l: nat)
    requires Covers(s.board, from, to) && from <= l < to && Truthful(sights, gen, files)
    requires At(s.board, from, to, l).guilty
    ensures var b := NextStage(s, sights, k).board;
      && Covers(b, from, to) && At(b, from, to, l).guilty
      && (At(b, from, to, l) == At(s.board, from, to, l) || GivesAway(s, sights, k, At(s.board, from, to, l).suspect))
  {
    hide At, Covers, Owned, Origins, First, Whole, PassedAll, Kept, Diff;
    if !s.IsDone() {
      var suspect := s.Suspected();
      var sight := SightOf(sights, k, suspect);
      var passed := Passed(s.board, suspect, sight.blob, sight.parents);
      RoundHands(s.board, suspect, sight, from, to, gen);
      OwnedMoves(passed, suspect, from, to);
      if SameBlob(sight.parents, sight.blob).Some? {
        WholeMoves(s.board, suspect, SameBlob(sight.parents, sight.blob).value.Who(), from, to);
      } else {
        GuiltyIsKept(s.board, suspect, Kept(sight.parents), from, to, l);
      }
    }
  }

  lemma {:induction false} GuiltyIsKept(board: seq<Piece>, suspect: Suspect, kept: seq<Found>, from: nat, to: nat,
                                        l: nat)
    requires Covers(board, from, to) && from <= l < to && At(board, from, to, l).guilty
    ensures Covers(PassedAll(board, suspect, kept), from, to)
    ensures At(PassedAll(board, suspect, kept), from, to, l) == At(board, from, to, l)
    decreases |kept|
  {
    hide At, Covers, Pass, Bounded, Last, Sorted, Origins;
    if kept != [] {
      var f := kept[0];
      if Sorted(f.hunks, 0, 0) && Bounded(board, suspect, Last(board, suspect)) && !Same(f.Who(), suspect) {
        PassMoves(board, f.hunks, 0, 0, Last(board, suspect), suspect, f.Who(), from, to);
      }
      GuiltyIsKept(PassedTo(board, suspect, f), suspect, kept[1..], from, to, l);
    }
  }

  // The k-th round gives everything of this suspect to a parent.
  ghost predicate GivesAway(s: Stage, sights: Sights, k: nat, who: Suspect) {
    && !s.IsDone() && Same(who, s.Suspected())
    && var sight := SightOf(sights, k, s.Suspected()); SameBlob(sight.parents, sight.blob).Some?
  }

  // Every line that somebody is guilty of was brought: in some round by the suspect it had then, of
  // whom it stays, unless that suspect is looked at again and then found to have its file whole from a
  // parent.
  lemma {:induction false} GuiltyBrought<L>(first: seq<Piece>, sights: Sights, gen: nat -> nat, n: nat, from: nat,
                                            to: nat, files: (nat, string) -> File<L>, l: nat) returns (k: nat)
    requires Covers(first, from, to) && from <= l < to && Truthful(sights, gen, files)
    requires !At(first, from, to, l).guilty
    requires Covers(AfterRounds(first, sights, n).board, from, to)
    requires At(AfterRounds(first, sights, n).board, from, to, l).guilty
    ensures k < n && Brings(AfterRounds(first, sights, k), sights, k, from, to, l)
    ensures var b := At(AfterRounds(first, sights, k).board, from, to, l).(guilty := true);
      || At(AfterRounds(first, sights, n).board, from, to, l) == b
      || exists j :: k < j < n && GivesAway(AfterRounds(first, sights, j), sights, j, b.suspect)
  {
    hide At, Covers, Truthful, NextStage, Brings, GivesAway;
    var s := AfterRounds(first, sights, n - 1);
    StageCovers(first, sights, gen, n - 1, from, to, files);
    if At(s.board, from, to, l).guilty {
      k := GuiltyBrought(first, sights, gen, n - 1, from, to, files, l);
      GuiltyStays(s, sights, gen, n - 1, from, to, files, l);
    } else {
      k := n - 1;
      GuiltyBrings(s, sights, gen, n - 1, from, to, files, l);
    }
  }

  // What is found for a suspect does not depend on the round.
  ghost predicate Steady(sights: Sights) {
    forall k: nat, suspect: Suspect :: SightOf(sights, k, suspect) == SightOf(sights, 0, suspect)
  }

  // When the rounds find the same each time, whoever is guilty of a line in the end brought it.
  lemma TheGuiltyBrought<L>(first: seq<Piece>, sights: Sights, gen: nat -> nat, n: nat, from: nat, to: nat,
                            files: (nat, string) -> File<L>, l: nat) returns (k: nat)
    requires Covers(first, from, to) && from <= l < to && Truthful(sights, gen, files) && Steady(sights)
    requires !At(first, from, to, l).guilty
    requires Covers(AfterRounds(first, sights, n).board, from, to)
    requires At(AfterRounds(first, sights, n).board, from, to, l).guilty
    ensures k < n && Brings(AfterRounds(first, sights, k), sights, k, from, to, l)
    ensures At(AfterRounds(first, sights, n).board, from, to, l)
         == At(AfterRounds(first, sights, k).board, from, to, l).(guilty := true)
  {
    hide Truthful, At, Covers, AfterRounds, First, Steady;
    k := GuiltyBrought(first, sights, gen, n, from, to, files, l);
    var s := AfterRounds(first, sights, k);
    forall j | k < j < n
      ensures !GivesAway(AfterRounds(first, sights, j), sights, j, At(s.board, from, to, l).suspect)
    {
      NotGivenAway(s, AfterRounds(first, sights, j), sights, k, j, from, to, l);
    }
  }

  lemma NotGivenAway(s: Stage, s': Stage, sights: Sights, k: nat, j: nat, from: nat, to: nat, l: nat)
    requires Steady(sights) && Brings(s, sights, k, from, to, l)
    ensures !GivesAway(s', sights, j, At(s.board, from, to, l).suspect)
  {
    hide At, Covers, First, Kept, Origins, IsNew;
    SameBlobOrNone(SightOf(sights, k, s.Suspected()).parents, SightOf(sights, k, s.Suspected()).blob);
    if !s'.IsDone() && Same(s'.Suspected(), s.Suspected()) {
      SteadyFor(sights, k, s.Suspected());
      SteadyFor(sights, j, s'.Suspected());
    }
  }

  lemma SteadyFor(sights: Sights, k: nat, suspect: Suspect)
    requires Steady(sights)
    ensures SightOf(sights, k, suspect) == sights(0, suspect.commit, suspect.path)
  {
    assert SightOf(sights, k, suspect) == SightOf(sights, 0, suspect);
  }
}
