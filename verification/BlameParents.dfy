// pass_blame on values: what is found of a file in the parents of a commit, which parents are looked
// at, and what the entries become.

module BlameParents {
  import opened BlameBoard
  import opened Options

  // How find_origin comes to an origin: by the path it had before, or by renames, where all but
  // the last origin that is made are dropped.
  datatype Finding = AsBefore | Renamed(dropped: seq<string>)

  // What is found of a suspect's file in one parent: where it is, and how it differs.
  datatype Found = Found(commit: nat, handle: nat, path: string, how: Finding, blob: nat, hunks: seq<Hunk>) {
    function Who(): Suspect {
      Suspect(commit, handle, path)
    }
  }

  // What the blob ids and the diff engine tell of a parent is true.
  ghost predicate Trusted<L>(suspect: Suspect, blob: nat, f: Found, files: (nat, string) -> File<L>) {
    && !Same(f.Who(), suspect)
    && Diff(files(f.commit, f.path), files(suspect.commit, suspect.path), 0, 0, f.hunks)
    && (f.blob == blob ==> files(f.commit, f.path) == files(suspect.commit, suspect.path))
  }

  // The first parent with this blob.
  function SameBlob(parents: seq<Option<Found>>, blob: nat): Option<Found> {
    if parents == [] then None
    else if parents[0].Some? && parents[0].value.blob == blob then parents[0]
    else SameBlob(parents[1..], blob)
  }

  // The parents without those whose blob an earlier one has.
  function Kept(parents: seq<Option<Found>>): seq<Found> {
    if parents == [] then []
    else
      var kept, last := Kept(parents[..|parents| - 1]), parents[|parents| - 1];
      if last.None? || (exists f :: f in kept && f.blob == last.value.blob) then kept else kept + [last.value]
  }

  lemma {:induction false} KeptAreParents(parents: seq<Option<Found>>)
    ensures forall f :: f in Kept(parents) ==> Some(f) in parents
  {
    if parents != [] {
      KeptAreParents(parents[..|parents| - 1]);
    }
  }

  // For each parent in which the file was found one with the same blob is kept.
  lemma {:induction false} KeptFor(parents: seq<Option<Found>>, f: Found) returns (g: Found)
    requires Some(f) in parents
    ensures g in Kept(parents) && g.blob == f.blob && Some(g) in parents
  {
    var front, last := parents[..|parents| - 1], parents[|parents| - 1];
    assert parents == front + [last];
    if Some(f) in front {
      g := KeptFor(front, f);
    } else if x :| x in Kept(front) && x.blob == f.blob {
      KeptAreParents(front);
      g := x;
    } else {
      g := f;
      assert last == Some(f);
    }
    assert g in Kept(parents);
  }

  predicate BlobsDiffer(fs: seq<Found>) {
    forall i, j :: 0 <= i < j < |fs| ==> fs[i].blob != fs[j].blob
  }

  // No two that are kept have the same blob.
  lemma {:induction false} KeptDiffer(parents: seq<Option<Found>>)
    ensures BlobsDiffer(Kept(parents))
  {
    if parents != [] {
      var front, last := parents[..|parents| - 1], parents[|parents| - 1];
      KeptDiffer(front);
      if last.Some? && !(exists f :: f in Kept(front) && f.blob == last.value.blob) {
        OneMoreDiffers(Kept(front), last.value);
      }
    }
  }

  lemma OneMoreDiffers(fs: seq<Found>, f: Found)
    requires BlobsDiffer(fs) && !(exists g :: g in fs && g.blob == f.blob)
    ensures BlobsDiffer(fs + [f])
  {
    forall i | 0 <= i < |fs| ensures fs[i].blob != f.blob {
      assert fs[i] in fs;
    }
  }

  // No parent has this blob.
  predicate NoneHas(parents: seq<Option<Found>>, blob: nat) {
    forall i :: 0 <= i < |parents| && parents[i].Some? ==> parents[i].value.blob != blob
  }

  lemma {:induction false} SameBlobOrNone(parents: seq<Option<Found>>, blob: nat)
    ensures SameBlob(parents, blob).None? <==> NoneHas(parents, blob)
  {
    if parents != [] {
      SameBlobOrNone(parents[1..], blob);
      assert parents == [parents[0]] + parents[1..];
      if NoneHas(parents, blob) {
        forall i | 0 <= i < |parents[1..]| && parents[1..][i].Some? ensures parents[1..][i].value.blob != blob {
          assert parents[1..][i] == parents[i + 1];
        }
      }
    }
  }

  lemma {:induction false} SameBlobIsParent(parents: seq<Option<Found>>, blob: nat)
    ensures var whole := SameBlob(parents, blob);
            whole.Some? ==> whole in parents && whole.value.blob == blob
  {
    if parents != [] {
      SameBlobIsParent(parents[1..], blob);
    }
  }

  function PassedTo(board: seq<Piece>, suspect: Suspect, f: Found): seq<Piece> {
    if Sorted(f.hunks, 0, 0) && Bounded(board, suspect, Last(board, suspect)) && !Same(f.Who(), suspect)
    then Pass(board, f.hunks, 0, 0, Last(board, suspect), suspect, f.Who())
    else board
  }

  function PassedAll(board: seq<Piece>, suspect: Suspect, kept: seq<Found>): seq<Piece>
    decreases |kept|
  {
    if kept == [] then board else PassedAll(PassedTo(board, suspect, kept[0]), suspect, kept[1..])
  }

  // pass_blame, when one parent has the same blob, or for the parents that are kept.
  function PassedBy(board: seq<Piece>, suspect: Suspect, whole: Option<Found>, kept: seq<Found>): seq<Piece> {
    if whole.Some? then Whole(board, suspect, whole.value.Who()) else PassedAll(board, suspect, kept)
  }

  // pass_blame
  function Passed(board: seq<Piece>, suspect: Suspect, blob: nat, parents: seq<Option<Found>>): seq<Piece> {
    PassedBy(board, suspect, SameBlob(parents, blob), Kept(parents))
  }

  lemma PassedStep(board: seq<Piece>, suspect: Suspect, kept: seq<Found>, k: nat)
    requires k < |kept|
    ensures PassedAll(board, suspect, kept[k..]) == PassedAll(PassedTo(board, suspect, kept[k]), suspect, kept[k + 1..])
  {
    hide PassedTo;
    assert kept[k..][1..] == kept[k + 1..];
  }

  lemma PassedNone(board: seq<Piece>, suspect: Suspect, kept: seq<Found>)
    ensures PassedAll(board, suspect, kept[|kept|..]) == board
  {}

  // A board on which the origin is suspected for nothing stays as it is.
  lemma {:induction false} PassedNothing(board: seq<Piece>, suspect: Suspect, kept: seq<Found>)
    requires Bounded(board, suspect, Last(board, suspect)) && Last(board, suspect) == 0
    ensures PassedAll(board, suspect, kept) == board
    ensures forall f :: f in kept ==> PassedTo(board, suspect, f) == board
    decreases |kept|
  {
    hide Bounded, Last, Pass, Sorted;
    if kept != [] {
      var f := kept[0];
      if Sorted(f.hunks, 0, 0) && !Same(f.Who(), suspect) {
        PassNothing(board, f.hunks, 0, 0, suspect, f.Who());
      }
      PassedNothing(board, suspect, kept[1..]);
    }
  }

  // ----- counts that nobody gives back

  // The entries with this commit object and path.
  function Matches(board: seq<Piece>, handle: nat, path: string): nat {
    if board == [] then 0
    else
      (if board[0].suspect.handle == handle && board[0].suspect.path == path then 1 else 0)
      + Matches(board[1..], handle, path)
  }

  lemma MatchesFirst(board: seq<Piece>, handle: nat, path: string)
    ensures board[0..] == board && board[|board|..] == [] && Matches([], handle, path) == 0
  {}

  lemma MatchesNext(board: seq<Piece>, i: nat, handle: nat, path: string)
    requires i < |board|
    ensures Matches(board[i..], handle, path) ==
      (if board[i].suspect.handle == handle && board[i].suspect.path == path then 1 else 0)
      + Matches(board[i + 1..], handle, path)
  {
    assert board[i..][1..] == board[i + 1..];
  }

  // How many counts find_origin takes that nobody gives back.
  function LeaksAt(board: seq<Piece>, f: Found): nat {
    match f.how
    case AsBefore => Matches(board, f.handle, f.path)
    case Renamed(dropped) => |dropped|
  }

  // How many pass_blame does: parents behind one with the same blob are not looked for.
  function Leaks(board: seq<Piece>, blob: nat, parents: seq<Option<Found>>): nat {
    if parents == [] then 0
    else if parents[0].None? then Leaks(board, blob, parents[1..])
    else
      LeaksAt(board, parents[0].value)
      + if parents[0].value.blob == blob then 0 else Leaks(board, blob, parents[1..])
  }

  lemma ParentStep(board: seq<Piece>, parents: seq<Option<Found>>, i: nat, blob: nat)
    requires i < |parents|
    ensures Leaks(board, blob, parents[i..]) ==
            if parents[i].None? then Leaks(board, blob, parents[i + 1..])
            else
              LeaksAt(board, parents[i].value)
              + if parents[i].value.blob == blob then 0 else Leaks(board, blob, parents[i + 1..])
    ensures SameBlob(parents[i..], blob) ==
            if parents[i].Some? && parents[i].value.blob == blob then parents[i] else SameBlob(parents[i + 1..], blob)
    ensures var kept := Kept(parents[..i]);
            Kept(parents[..i + 1]) ==
            if parents[i].None? || (exists f :: f in kept && f.blob == parents[i].value.blob) then kept
            else kept + [parents[i].value]
  {
    assert parents[i..][1..] == parents[i + 1..];
    assert parents[..i + 1][..i] == parents[..i];
  }

  // ----- the entries as they are met

  // The first piece that nobody is guilty of, or the end.
  function First(board: seq<Piece>): (i: nat)
    ensures i <= |board| && (forall j :: 0 <= j < i ==> board[j].guilty) && (i < |board| ==> !board[i].guilty)
  {
    if board == [] || !board[0].guilty then 0 else 1 + First(board[1..])
  }

  lemma FirstIs(board: seq<Piece>, i: nat)
    requires i <= |board| && (forall j :: 0 <= j < i ==> board[j].guilty) && (i < |board| ==> !board[i].guilty)
    ensures First(board) == i
  {}

  // A hunk as it is reported: lines from start on, which were lines from origStart on in the file
  // that brought them.
  datatype Reported = Reported(start: nat, lines: nat, origStart: nat, commit: nat, path: string)

  // hunk_from_entry
  function Hunked(p: Piece): Reported {
    Reported(p.lno + 1, p.num, p.s_lno + 1, p.suspect.commit, p.suspect.path)
  }
}
