// git_blame__like_git: rounds are made until somebody is responsible for every line; and
// blame_internal, which reports the lines and frees the origins. What they compute is the function on
// values of BlameHistory.

module BlameRun {
  import opened BlameBoard
  import opened BlameEntries
  import opened BlameHistory
  import opened BlameLosses
  import opened BlameOrigins
  import opened BlameParents
  import opened BlameScoreboard
  import opened Options

  // ----- the origins

  // An origin's previous origin is of an earlier generation.
  ghost predicate Ordered(live: set<Origin>, gen: nat -> nat)
    reads live`previous
  {
    forall o :: o in live ==> o.previous == null || gen(o.previous.who.commit) < gen(o.who.commit)
  }

  lemma {:induction false} Youngest(live: set<Origin>, gen: nat -> nat) returns (o: Origin)
    requires live != {}
    ensures o in live && forall p :: p in live ==> gen(p.who.commit) <= gen(o.who.commit)
    decreases |live|
  {
    o :| o in live;
    var rest := live - {o};
    if rest == {} {
      assert live == {o};
    } else {
      var p := Youngest(rest, gen);
      assert live == rest + {o};
      if gen(o.who.commit) < gen(p.who.commit) {
        o := p;
      }
    }
  }

  // Origins that own each other do not keep each other: where there is one, somebody else owns one.
  lemma YoungestIsOwned(live: set<Origin>, owners: multiset<Origin>, gen: nat -> nat)
    requires Accounted(live, owners) && Ordered(live, gen) && live != {}
    ensures owners != multiset{}
  {
    var o := Youngest(live, gen);
    assert Successors(live, o) == {};
    assert o in owners;
  }

  lemma OwnedBySomebody(live: set<Origin>, owners: multiset<Origin>, gen: nat -> nat)
    requires Accounted(live, owners) && Ordered(live, gen)
    ensures live == {} <==> |owners| == 0
  {
    if live != {} {
      YoungestIsOwned(live, owners, gen);
    }
    if owners != multiset{} {
      var o :| o in owners;
      assert o in live;
    }
  }

  lemma PrecededIsEarlier(was: Origin?, now: Origin?, suspect: Suspect, sight: Sight, gen: nat -> nat)
    requires Preceded(was, now, sight.blob, sight.parents) && Earlier(suspect, sight.parents, gen)
    ensures now == was || (now != null && gen(now.who.commit) < gen(suspect.commit))
  {
    hide Kept, SameBlob;
    KeptAreParents(sight.parents);
    if Kept(sight.parents) != [] {
      assert Kept(sight.parents)[0] in Kept(sight.parents);
    }
  }

  // ----- git_blame__like_git

  // The loop makes the rounds of the history, and ends after as many as the lines are generations away
  // from their end.
  method LikeGit<L>(sb: Scoreboard, sights: Sights, ghost gen: nat -> nat, ghost from: nat, ghost to: nat,
                    ghost files: (nat, string) -> File<L>, ghost final: File<L>)
    returns (rounds: nat, ghost lost: multiset<Origin>)
    requires sb.Valid() && Covers(sb.Board(), from, to) && Means(sb.Board(), from, to, files, final)
    requires Truthful(sights, gen, files) && Ordered(sb.live, gen)
    modifies sb, sb.entries, sb.live
    ensures sb.Valid() && fresh(sb.live - old(sb.live)) && Ordered(sb.live, gen)
    ensures AfterRounds(old(sb.Board()), sights, rounds) == Stage(sb.Board(), |lost|)
    ensures sb.holds == old(sb.holds) + lost && forall p :: p in sb.Board() ==> p.guilty
    ensures Covers(sb.Board(), from, to) && Means(sb.Board(), from, to, files, final)
    ensures rounds <= old(Distances(sb.Board(), from, to, gen, to))
  {
    hide Scoreboard.Counted, Scoreboard.Listed, Covers, Means, Distances, Ordered, Truthful, NextStage, Values, First;
    hide AfterRounds, Chases;
    rounds, lost := 0, multiset{};
    ghost var first := sb.Board();
    NoRounds(first, sights);
    var suspect := Chase(sb);
    while suspect != null
      invariant sb.Valid() && fresh(sb.live - old(sb.live)) && Ordered(sb.live, gen)
      invariant AfterRounds(first, sights, rounds) == Stage(sb.Board(), |lost|) && sb.holds == old(sb.holds) + lost
      invariant Covers(sb.Board(), from, to) && Means(sb.Board(), from, to, files, final)
      invariant fresh((set x | x in sb.entries) - old(set x | x in sb.entries))
      invariant Chases(sb, suspect)
      invariant rounds + Distances(sb.Board(), from, to, gen, to) <= Distances(first, from, to, gen, to)
      decreases Distances(sb.Board(), from, to, gen, to)
    {
      ghost var more := OneRound(sb, suspect, rounds, |lost|, sights, gen, from, to, files, final);
      OneMore(first, sights, rounds);
      rounds, lost := rounds + 1, lost + more;
      suspect := Chase(sb);
    }
    NobodyChased(sb);
  }

  method Chase(sb: Scoreboard) returns (suspect: Origin?)
    requires sb.Valid()
    ensures Chases(sb, suspect)
  {
    hide Scoreboard.Counted, Scoreboard.Listed, First, Values;
    suspect := sb.FindSuspect();
  }

  lemma NobodyChased(sb: Scoreboard)
    requires Chases(sb, null)
    ensures forall p :: p in sb.Board() ==> p.guilty
  {
    hide Values;
    DoneIsGuilty(Stage(sb.Board(), 0));
  }

  lemma NoRounds(first: seq<Piece>, sights: Sights)
    ensures AfterRounds(first, sights, 0) == Stage(first, 0)
  {}

  lemma OneMore(first: seq<Piece>, sights: Sights, k: nat)
    ensures AfterRounds(first, sights, k + 1) == NextStage(AfterRounds(first, sights, k), sights, k)
  {}

  // suspect is of the first entry that nobody is guilty of.
  ghost predicate Chases(sb: Scoreboard, suspect: Origin?)
    reads sb
  {
    var i := First(sb.Board());
    if i == |sb.Board()| then suspect == null
    else suspect != null && suspect in sb.live && suspect.who == sb.Board()[i].suspect
  }

  // A round is the round of the history.
  method OneRound<L>(sb: Scoreboard, suspect: Origin, k: nat, ghost before: nat, sights: Sights, ghost gen: nat -> nat,
                     ghost from: nat, ghost to: nat, ghost files: (nat, string) -> File<L>, ghost final: File<L>)
    returns (ghost more: multiset<Origin>)
    requires sb.Valid() && Covers(sb.Board(), from, to) && Means(sb.Board(), from, to, files, final)
    requires Truthful(sights, gen, files) && Ordered(sb.live, gen) && Chases(sb, suspect)
    modifies sb, sb.entries, sb.live
    ensures sb.Valid() && fresh(sb.live - old(sb.live)) && Ordered(sb.live, gen)
    ensures NextStage(Stage(old(sb.Board()), before), sights, k) == Stage(sb.Board(), before + |more|)
    ensures sb.holds == old(sb.holds) + more
    ensures Covers(sb.Board(), from, to) && Means(sb.Board(), from, to, files, final)
    ensures Distances(sb.Board(), from, to, gen, to) < Distances(old(sb.Board()), from, to, gen, to)
    ensures fresh((set x | x in sb.entries) - old(set x | x in sb.entries))
  {
    hide Scoreboard.Counted, Scoreboard.Listed, Covers, Means, Passed, Owned, Distances, Trusted, Leaks, Values, First;
    hide Preceded;
    var sight := sights(k, suspect.who.commit, suspect.who.path);
    assert sight == SightOf(sights, k, suspect.who);
    RoundEnds(Stage(sb.Board(), before), sights, k, from, to, gen);
    more := sb.Round(suspect, sight.blob, sight.parents, from, to, files, final);
    PrecededIsEarlier(old(suspect.previous), suspect.previous, suspect.who, sight, gen);
  }

  // ----- blame_internal

  // The hunks tile the lines up to end.
  ghost predicate Tile(hunks: seq<Reported>, start: nat, end: nat) {
    if hunks == [] then start == end
    else hunks[0].start == start && hunks[0].lines > 0 && Tile(hunks[1..], start + hunks[0].lines, end)
  }

  // Each line of the hunk reads as it did in the file that brought it.
  ghost predicate ReadsAs<L>(h: Reported, files: (nat, string) -> File<L>, final: File<L>) {
    && h.start > 0 && h.origStart > 0
    && h.start - 1 + h.lines <= |final| && h.origStart - 1 + h.lines <= |files(h.commit, h.path)|
    && final[h.start - 1..][..h.lines] == files(h.commit, h.path)[h.origStart - 1..][..h.lines]
  }

  lemma {:induction false} HunksTile(board: seq<Piece>, hunks: seq<Reported>, from: nat, to: nat)
    requires Covers(board, from, to) && |hunks| == |board|
    requires forall i :: 0 <= i < |hunks| ==> hunks[i] == Hunked(board[i])
    ensures Tile(hunks, from + 1, to + 1)
  {
    if board != [] {
      HunksTile(board[1..], hunks[1..], from + board[0].num, to);
    }
  }

  lemma LineReads<L>(board: seq<Piece>, i: nat, j: nat, from: nat, to: nat, files: (nat, string) -> File<L>,
                     final: File<L>)
    requires Covers(board, from, to) && Means(board, from, to, files, final) && i < |board| && j < board[i].num
    ensures var p := board[i];
      var file := files(p.suspect.commit, p.suspect.path);
      p.lno + j < |final| && p.s_lno + j < |file| && file[p.s_lno + j] == final[p.lno + j]
  {
    hide At, Covers;
    LineOf(board, from, to, i, j);
    assert Reads(At(board, from, to, board[i].lno + j), files, final[board[i].lno + j]);
  }

  lemma HunkReads<L>(board: seq<Piece>, i: nat, from: nat, to: nat, files: (nat, string) -> File<L>, final: File<L>)
    requires Covers(board, from, to) && Means(board, from, to, files, final) && i < |board|
    ensures ReadsAs(Hunked(board[i]), files, final)
  {
    hide At, Covers, Means;
    var p := board[i];
    var file := files(p.suspect.commit, p.suspect.path);
    CoversAt(board, i, from, to);
    LineReads(board, i, p.num - 1, from, to, files, final);
    forall k | 0 <= k < p.num ensures final[p.lno..][..p.num][k] == file[p.s_lno..][..p.num][k] {
      LineReads(board, i, k, from, to, files, final);
    }
  }

  // The one entry of the start.
  function StartOf(who: Suspect, from: nat, to: nat): seq<Piece> {
    [Piece(from, if from < to then to - from else 0, from, who, false)]
  }

  lemma StartMeans<L>(who: Suspect, from: nat, to: nat, files: (nat, string) -> File<L>)
    requires from < to <= |files(who.commit, who.path)|
    ensures Covers(StartOf(who, from, to), from, to)
    ensures Means(StartOf(who, from, to), from, to, files, files(who.commit, who.path))
  {
    One(Piece(from, to - from, from, who, false));
  }

  lemma {:induction false} StartDistance(who: Suspect, from: nat, to: nat, gen: nat -> nat, l: nat)
    requires from < to && from <= l <= to
    ensures Covers(StartOf(who, from, to), from, to)
    ensures Distances(StartOf(who, from, to), from, to, gen, l) == (l - from) * (gen(who.commit) + 1)
  {
    One(Piece(from, to - from, from, who, false));
    if l > from {
      StartDistance(who, from, to, gen, l - 1);
    }
  }

  method Start<L>(who: Suspect, from: nat, to: nat, ghost gen: nat -> nat, ghost files: (nat, string) -> File<L>)
    returns (sb: Scoreboard)
    requires from < to <= |files(who.commit, who.path)|
    ensures sb.Valid() && fresh(sb) && fresh(sb.entries) && fresh(sb.live)
    ensures Ordered(sb.live, gen) && sb.holds == multiset{} && sb.Board() == StartOf(who, from, to)
    ensures Covers(sb.Board(), from, to) && Means(sb.Board(), from, to, files, files(who.commit, who.path))
    ensures Distances(sb.Board(), from, to, gen, to) == (to - from) * (gen(who.commit) + 1)
  {
    hide Covers, Means, Scoreboard.Listed, Scoreboard.Counted, Distances, Values;
    var o := new Origin(who);
    sb := new Scoreboard(o, from, to);
    StartMeans(who, from, to, files);
    StartDistance(who, from, to, gen, to);
  }

  method ReportAll<L>(sb: Scoreboard, ghost gen: nat -> nat, ghost from: nat, ghost to: nat,
                      ghost files: (nat, string) -> File<L>, ghost final: File<L>)
    returns (hunks: seq<Reported>)
    requires sb.Valid() && Covers(sb.Board(), from, to) && Means(sb.Board(), from, to, files, final)
    requires Ordered(sb.live, gen)
    modifies sb, sb.live`refcnt
    ensures sb.Valid() && Ordered(sb.live, gen) && sb.Board() == []
    ensures sb.live <= old(sb.live) && sb.holds == old(sb.holds)
    ensures |hunks| == |old(sb.Board())| && forall i :: 0 <= i < |hunks| ==> hunks[i] == Hunked(old(sb.Board())[i])
    ensures Tile(hunks, from + 1, to + 1) && forall h :: h in hunks ==> ReadsAs(h, files, final)
  {
    hide Covers, Means, Scoreboard.Listed, Scoreboard.Counted, Tile, ReadsAs;
    ghost var board := sb.Board();
    hunks := sb.Report();
    HunksTile(board, hunks, from, to);
    forall h | h in hunks ensures ReadsAs(h, files, final) {
      var i :| 0 <= i < |hunks| && h == hunks[i];
      HunkReads(board, i, from, to, files, final);
    }
  }

  lemma AllOwned(sb: Scoreboard, lost: multiset<Origin>, gen: nat -> nat)
    requires sb.Valid() && sb.Board() == [] && sb.holds == lost && Ordered(sb.live, gen)
    ensures sb.live == {} <==> |lost| == 0
  {
    assert sb.shares == [];
    NamedNone(lost);
    OwnedBySomebody(sb.live, lost, gen);
  }

  // How many rounds are enough: as many as the lines are generations away from their end at most.
  function Enough(who: Suspect, from: nat, to: nat, gen: nat -> nat): nat {
    if from < to then (to - from) * (gen(who.commit) + 1) else 0
  }

  // The stage at which the rounds for these lines have ended, however many more are made.
  lemma EndStage<L>(who: Suspect, from: nat, to: nat, sights: Sights, gen: nat -> nat, rounds: nat, enough: nat,
                    files: (nat, string) -> File<L>)
    requires from < to && Truthful(sights, gen, files) && AfterRounds(StartOf(who, from, to), sights, rounds).IsDone()
    requires enough >= Enough(who, from, to, gen)
    ensures AfterRounds(StartOf(who, from, to), sights, enough) == AfterRounds(StartOf(who, from, to), sights, rounds)
  {
    hide Truthful, AfterRounds, First, Distances;
    var first := StartOf(who, from, to);
    StartDistance(who, from, to, gen, to);
    EndsIn(first, sights, gen, enough, from, to, files);
    if rounds <= enough {
      Settled(first, sights, rounds, enough);
    } else {
      Settled(first, sights, enough, rounds);
    }
  }

  // The hunks are those of a board of which every entry is guilty.
  predicate Tells(hunks: seq<Reported>, board: seq<Piece>) {
    && |hunks| == |board| && (forall i :: 0 <= i < |hunks| ==> hunks[i] == Hunked(board[i]))
    && forall p :: p in board ==> p.guilty
  }

  lemma {:induction false} TileEnds(hunks: seq<Reported>, start: nat, end: nat)
    requires Tile(hunks, start, end) && start < end
    ensures hunks != [] && hunks[0].start == start
    ensures var h := hunks[|hunks| - 1]; h.start + h.lines == end
    decreases |hunks|
  {
    if |hunks| > 1 {
      var next := start + hunks[0].lines;
      assert hunks[1..][|hunks| - 2] == hunks[|hunks| - 1];
      TileGrows(hunks[1..], next, end);
      TileEnds(hunks[1..], next, end);
    } else {
      assert hunks[1..] == [];
    }
  }

  lemma TileGrows(hunks: seq<Reported>, start: nat, end: nat)
    requires Tile(hunks, start, end) && hunks != []
    ensures start < end
    decreases |hunks|
  {
    if |hunks| > 1 {
      TileGrows(hunks[1..], start + hunks[0].lines, end);
    }
  }

  // blame_internal, for lines minLine to maxLine of a file with this many lines; 0 stands for the first and the
  // last. What is reported is the stage of the history after enough rounds, and whether it has lost a count decides
  // whether an origin is left.
  method BlameInternal<L>(who: Suspect, lines: nat, minLine: nat, maxLine: nat, sights: Sights, ghost gen: nat -> nat,
                          ghost enough: nat, ghost files: (nat, string) -> File<L>)
    returns (sb: Scoreboard, hunks: seq<Reported>)
    requires lines == |files(who.commit, who.path)| > 0 && minLine <= lines && maxLine <= lines
    requires maxLine > 0 ==> minLine <= maxLine
    requires Truthful(sights, gen, files) && enough >= Enough(who, 0, lines, gen)
    ensures var first, last := if minLine == 0 then 1 else minLine, if maxLine == 0 then lines else maxLine;
      && Tile(hunks, first, last + 1)
      && hunks != [] && hunks[0].start == first && hunks[|hunks| - 1].start + hunks[|hunks| - 1].lines - 1 == last
    ensures var first, last := if minLine == 0 then 1 else minLine, if maxLine == 0 then lines else maxLine;
      var end := AfterRounds(StartOf(who, first - 1, last), sights, enough);
      Tells(hunks, end.board) && |sb.holds| == end.lost && (sb.live == {} <==> end.lost == 0)
    ensures forall h :: h in hunks ==> ReadsAs(h, files, files(who.commit, who.path))
    ensures fresh(sb) && fresh(sb.live) && sb.Valid() && sb.Board() == []
  {
    hide Covers, Means, Truthful, Scoreboard.Listed, Scoreboard.Counted, Tile, ReadsAs, Ordered, Distances, Values;
    hide AfterRounds, First, StartOf;
    var from := if minLine == 0 then 0 else minLine - 1;
    var to := if maxLine > 0 then maxLine else lines;
    EnoughForAll(who, from, to, lines, gen);
    sb := Start(who, from, to, gen, files);
    var rounds;
    ghost var lost;
    rounds, lost := LikeGit(sb, sights, gen, from, to, files, files(who.commit, who.path));
    DoneIsGuilty(Stage(sb.Board(), |lost|));
    EndStage(who, from, to, sights, gen, rounds, enough, files);
    hunks := ReportAll(sb, gen, from, to, files, files(who.commit, who.path));
    AllOwned(sb, lost, gen);
    TileEnds(hunks, from + 1, to + 1);
  }

  lemma EnoughForAll(who: Suspect, from: nat, to: nat, lines: nat, gen: nat -> nat)
    requires from < to <= lines
    ensures Enough(who, from, to, gen) <= Enough(who, 0, lines, gen)
  {
    var g := gen(who.commit) + 1;
    assert lines * g == (to - from) * g + (lines - (to - from)) * g;
  }

  // A file of a commit without parents: it brought the lines that are asked for, and no others are reported.
  method BlameOfRoot<L>(who: Suspect, lines: nat, minLine: nat, maxLine: nat, ghost files: (nat, string) -> File<L>)
    returns (sb: Scoreboard, hunks: seq<Reported>)
    requires lines == |files(who.commit, who.path)| > 0 && 0 < minLine <= maxLine <= lines
    ensures hunks == [Reported(minLine, maxLine - minLine + 1, minLine, who.commit, who.path)] && sb.live == {}
  {
    hide Truthful, AfterRounds, Tile, ReadsAs, Scoreboard.Listed, Scoreboard.Counted, First, StartOf;
    var sights := (k: nat, commit: nat, path: string) => Sight(0, []);
    ghost var gen := (commit: nat) => 0;
    NoParents(who, minLine - 1, maxLine, lines, sights, gen, files);
    sb, hunks := BlameInternal(who, lines, minLine, maxLine, sights, gen, lines, files);
  }

  lemma NoParents<L>(who: Suspect, from: nat, to: nat, enough: nat, sights: Sights, gen: nat -> nat,
                     files: (nat, string) -> File<L>)
    requires from < to && enough > 0 && forall k: nat, suspect: Suspect :: SightOf(sights, k, suspect) == Sight(0, [])
    ensures Truthful(sights, gen, files)
    ensures AfterRounds(StartOf(who, from, to), sights, enough)
         == Stage([Piece(from, to - from, from, who, true)], 0)
  {
    var p, q := Piece(from, to - from, from, who, false), Piece(from, to - from, from, who, true);
    var first := StartOf(who, from, to);
    assert first == [p];
    FirstIs([p], 0);
    FirstIs([q], 1);
    assert Owned([p], who) == [q];
    NobodyFound([p], who, Sight(0, []));
    assert SightOf(sights, 0, who) == Sight(0, []);
    assert AfterRounds(first, sights, 0) == Stage([p], 0);
    assert AfterRounds(first, sights, 1) == Stage([q], 0);
    Settled(first, sights, 1, enough);
  }

  // Over the history with a merge an origin is left.
  method MergeKeepsAnOrigin() returns (sb: Scoreboard, hunks: seq<Reported>)
    ensures hunks == [Reported(1, 1, 1, 1, "f"), Reported(2, 1, 1, 0, "f"), Reported(3, 1, 2, 0, "f")]
    ensures sb.Valid() && sb.Board() == [] && sb.live != {}
  {
    hide Truthful, AfterRounds, Tile, ReadsAs, MergeSights, Scoreboard.Listed, Scoreboard.Counted;
    MergeIsTruthful();
    MergeLoses(9);
    sb, hunks := BlameInternal(Of(3), 3, 0, 0, MergeSights, MergeGen, 9, MergeFiles);
  }
}
