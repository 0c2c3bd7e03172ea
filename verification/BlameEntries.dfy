// The entries of blame_git.c, and what they hold and name.

module BlameEntries {
  import opened BlameBoard
  import opened BlameOrigins

  // What an entry holds: a piece of the board, with the origin that stands for its suspect.
  datatype Share = Share(lno: nat, num: nat, s_lno: nat, suspect: Origin, guilty: bool) {
    function Value(): Piece {
      Piece(lno, num, s_lno, suspect.who, guilty)
    }
  }

  // The pieces that the shares stand for.
  function Values(shares: seq<Share>): (board: seq<Piece>)
    ensures |board| == |shares| && forall i :: 0 <= i < |shares| ==> board[i] == shares[i].Value()
  {
    seq(|shares|, i requires 0 <= i < |shares| => shares[i].Value())
  }

  lemma ValuesBoth(a: seq<Share>, b: seq<Share>)
    ensures Values(a + b) == Values(a) + Values(b)
  {}

  lemma ValuesAt(shares: seq<Share>, i: nat)
    requires i <= |shares|
    ensures Values(shares[..i]) == Values(shares)[..i] && Values(shares[i..]) == Values(shares)[i..]
  {}

  // Shares in the place of one.
  lemma ValuesInside(shares: seq<Share>, i: nat, more: seq<Share>)
    requires i < |shares|
    ensures Values(shares[..i] + more + shares[i + 1..])
         == Values(shares)[..i] + Values(more) + Values(shares)[i + 1..]
  {
    ValuesBoth(shares[..i], more);
    ValuesBoth(shares[..i] + more, shares[i + 1..]);
    ValuesAt(shares, i);
    ValuesAt(shares, i + 1);
  }

  class Entry {
    var prev: Entry?
    var next: Entry?
    var lno: nat
    var num: nat
    var s_lno: nat
    var suspect: Origin
    var guilty: bool

    constructor (p: Share)
      ensures Holds(p) && prev == null && next == null
    {
      prev, next, lno, num, s_lno, suspect, guilty := null, null, p.lno, p.num, p.s_lno, p.suspect, p.guilty;
    }

    ghost predicate Holds(p: Share)
      reads `lno, `num, `s_lno, `suspect, `guilty
    {
      lno == p.lno && num == p.num && s_lno == p.s_lno && suspect == p.suspect && guilty == p.guilty
    }
  }

  function Nth(entries: seq<Entry>, i: int): Entry? {
    if 0 <= i < |entries| then entries[i] else null
  }

  ghost predicate Linked(entries: seq<Entry>, i: nat)
    requires i < |entries|
    reads {entries[i]}`next, {entries[i]}`prev
  {
    entries[i].next == Nth(entries, i + 1) && entries[i].prev == Nth(entries, i - 1)
  }

  predicate Distinct(entries: seq<Entry>) {
    forall i, j :: 0 <= i < j < |entries| ==> entries[i] != entries[j]
  }

  predicate Increasing(shares: seq<Share>) {
    forall i, j :: 0 <= i < j < |shares| ==> shares[i].lno < shares[j].lno
  }

  // The entries hold the shares.
  ghost predicate Shown(entries: seq<Entry>, shares: seq<Share>)
    reads (set e | e in entries)`lno, (set e | e in entries)`num, (set e | e in entries)`s_lno
    reads (set e | e in entries)`suspect, (set e | e in entries)`guilty
  {
    |shares| == |entries| && forall i :: 0 <= i < |entries| ==> entries[i].Holds(shares[i])
  }

  lemma ShownInsert(entries: seq<Entry>, shares: seq<Share>, k: nat, e: Entry, p: Share)
    requires Shown(entries, shares) && e.Holds(p) && k <= |shares|
    ensures k <= |entries| && Shown(entries[..k] + [e] + entries[k..], shares[..k] + [p] + shares[k..])
  {
    var es, b := entries[..k] + [e] + entries[k..], shares[..k] + [p] + shares[k..];
    forall i | 0 <= i < |es| ensures es[i].Holds(b[i]) {
      if i < k {
        assert es[i] == entries[i] && b[i] == shares[i];
      } else if i > k {
        assert es[i] == entries[i - 1] && b[i] == shares[i - 1];
      }
    }
  }

  // How often the shares name each origin.
  ghost function Named(shares: seq<Share>): multiset<Origin> {
    if shares == [] then multiset{} else multiset{shares[0].suspect} + Named(shares[1..])
  }

  lemma Together(a: multiset<Origin>, b: multiset<Origin>, c: multiset<Origin>)
    ensures a + b + c == a + (b + c) && a + b == b + a && a + b + c == a + c + b
  {}

  lemma {:induction false} NamedBoth(a: seq<Share>, b: seq<Share>)
    ensures Named(a + b) == Named(a) + Named(b)
  {
    hide Named;
    if a == [] {
      NamedNone(Named(b));
      assert a + b == b;
    } else {
      NamedBoth(a[1..], b);
      assert (a + b)[1..] == a[1..] + b;
      NamedFirst(a + b);
      NamedFirst(a);
      Together(multiset{a[0].suspect}, Named(a[1..]), Named(b));
    }
  }

  lemma NamedNone(m: multiset<Origin>)
    ensures Named([]) + m == m
  {}

  lemma NamedFirst(a: seq<Share>)
    requires a != []
    ensures Named(a) == multiset{a[0].suspect} + Named(a[1..])
  {}

  lemma NamedOne(p: Share)
    ensures Named([p]) == multiset{p.suspect}
  {
    assert [p][1..] == [];
  }

  lemma NamedThree(a: seq<Share>, p: Share, b: seq<Share>)
    ensures Named(a + [p] + b) == Named(a + b) + multiset{p.suspect}
  {
    hide Named;
    NamedBoth(a, [p]);
    NamedBoth(a + [p], b);
    NamedBoth(a, b);
    NamedOne(p);
    Together(Named(a), multiset{p.suspect}, Named(b));
  }

  lemma NamedInsert(shares: seq<Share>, i: nat, p: Share)
    requires i <= |shares|
    ensures Named(shares[..i] + [p] + shares[i..]) == Named(shares) + multiset{p.suspect}
  {
    hide Named;
    NamedThree(shares[..i], p, shares[i..]);
    assert shares == shares[..i] + shares[i..];
  }

  // The shares without the i-th.
  ghost function Others(shares: seq<Share>, i: nat): multiset<Origin>
    requires i < |shares|
  {
    Named(shares[..i] + shares[i + 1..])
  }

  lemma NamedReplace(shares: seq<Share>, i: nat, p: Share)
    requires i < |shares|
    ensures Named(shares) == Others(shares, i) + multiset{shares[i].suspect}
    ensures Named(shares[i := p]) == Others(shares, i) + multiset{p.suspect}
  {
    hide Named;
    var a, b := shares[..i], shares[i + 1..];
    assert shares == a + [shares[i]] + b && shares[i := p] == a + [p] + b;
    NamedThree(a, shares[i], b);
    NamedThree(a, p, b);
  }

  // The split of an entry: the parts before and behind the chunk need not be there.
  datatype Parts = Parts(hasBefore: bool, before: Share, middle: Share, hasAfter: bool, after: Share) {
    function First(): Share {
      if hasBefore then before else middle
    }

    function Last(): Share {
      if hasAfter then after else middle
    }

    function List(): seq<Share> {
      (if hasBefore then [before] else []) + [middle] + (if hasAfter then [after] else [])
    }
  }

  lemma PartsList(parts: Parts)
    ensures parts.List() ==
      if parts.hasBefore && parts.hasAfter then [parts.before, parts.middle, parts.after]
      else if parts.hasBefore then [parts.before, parts.middle]
      else if parts.hasAfter then [parts.middle, parts.after]
      else [parts.middle]
  {}

  lemma NamedLess(shares: seq<Share>, i: nat, holds: multiset<Origin>)
    requires i < |shares|
    ensures var all := Named(shares[i..]) + holds;
      shares[i].suspect in all && all - multiset{shares[i].suspect} == Named(shares[i + 1..]) + holds
  {
    hide Named;
    NamedFirst(shares[i..]);
    assert shares[i..][1..] == shares[i + 1..];
  }

  ghost function SplitHolds(parts: Parts, passes: bool): multiset<Origin> {
    Only(parts.hasBefore, parts.before.suspect) + Only(parts.hasAfter, parts.after.suspect)
    + Only(passes, parts.middle.suspect)
  }

  // One owner, or none.
  ghost function Only(b: bool, o: Origin): multiset<Origin> {
    if b then multiset{o} else multiset{}
  }

  lemma Undone(h: multiset<Origin>, a: multiset<Origin>, b: multiset<Origin>, m: multiset<Origin>)
    ensures h + (a + b + m) - a - m - b == h
    ensures forall o :: o in a ==> o in h + (a + b + m)
    ensures forall o :: o in m ==> o in h + (a + b + m) - a
    ensures forall o :: o in b ==> o in h + (a + b + m) - a - m
  {}

  lemma Inserted(entries: seq<Entry>, k: nat, e: Entry)
    requires Distinct(entries) && e !in entries && k <= |entries|
    ensures var more := entries[..k] + [e] + entries[k..];
            && Distinct(more) && |more| == |entries| + 1
            && forall i :: 0 <= i < |more| ==>
              more[i] == if i < k then entries[i] else if i == k then e else entries[i - 1]
  {}

  lemma InsertedShare(shares: seq<Share>, k: nat, p: Share)
    requires Increasing(shares) && k <= |shares|
    requires forall j :: 0 <= j < k ==> shares[j].lno < p.lno
    requires forall j :: k <= j < |shares| ==> p.lno < shares[j].lno
    ensures var more := shares[..k] + [p] + shares[k..];
            && Increasing(more) && |more| == |shares| + 1
            && forall i :: 0 <= i < |more| ==>
              more[i] == if i < k then shares[i] else if i == k then p else shares[i - 1]
  {}
}
