// The scoreboard of blame_git.c: a linked list of entries, sorted by line, and the counts of the
// origins. Its methods are proved against the functions on values of BlameParents.

module BlameScoreboard {
  import opened BlameBoard
  import opened BlameEntries
  import opened BlameOrigins
  import opened BlameParents
  import opened Options

  // The origin that was made for what was found, and that blame may be passed to.
  datatype Candidate = Candidate(origin: Origin, how: Finding, blob: nat, hunks: seq<Hunk>) {
    function Told(): Found {
      Found(origin.who.commit, origin.who.handle, origin.who.path, how, blob, hunks)
    }
  }

  class Scoreboard {
    var ent: Entry?
    ghost var entries: seq<Entry>
    ghost var shares: seq<Share>
    ghost var live: set<Origin>
    ghost var holds: multiset<Origin>  // the variables of the callers that count

    // One entry for lines from to to of the final file.
    constructor (origin: Origin, from: nat, to: nat)
      requires from < to && origin.refcnt == 1 && origin.previous == null
      ensures Valid() && fresh(entries) && holds == multiset{} && live == {origin}
      ensures Board() == [Piece(from, to - from, from, origin.who, false)] && Covers(Board(), from, to)
    {
      var p := Share(from, to - from, from, origin, false);
      var e := new Entry(p);
      ent, entries, shares, live, holds := e, [e], [p], {origin}, multiset{};
      new;
      hide Accounted, Named;
      NamedOne(p);
      One(p.Value());
      assert Board() == [p.Value()];
      OnlyOne(origin);
      assert Linked(entries, 0);
      assert Named(shares) + holds == multiset{origin};
    }

    // What the entries say.
    ghost function Board(): seq<Piece>
      reads `shares
    {
      Values(shares)
    }

    // es is the list that starts at ent, with its links both ways.
    ghost predicate Chained(es: seq<Entry>)
      reads `ent, (set e | e in es)`next, (set e | e in es)`prev
    {
      ent == Nth(es, 0) && Distinct(es) && forall i :: 0 <= i < |es| ==> Linked(es, i)
    }

    // The list is well linked and holds the shares.
    ghost predicate Listed()
      reads `ent, `entries, `shares, entries
    {
      Chained(entries) && Shown(entries, shares) && Increasing(shares)
    }

    ghost predicate Counted()
      reads `shares, `live, `holds, live`previous, live`refcnt
    {
      Accounted(live, Named(shares) + holds)
    }

    ghost predicate Valid()
      reads this, entries, live`previous, live`refcnt
    {
      Listed() && Counted()
    }

    // A variable that counts is set to an origin: origin_incref.
    method Hold(o: Origin)
      requires Counted() && o in live
      modifies this`holds, o`refcnt
      ensures Counted() && holds == old(holds) + multiset{o}
    {
      hide Accounted;
      Incref(o, live, Named(shares) + holds);
      holds := holds + multiset{o};
      assert Named(shares) + old(holds) + multiset{o} == Named(shares) + holds;
    }

    // A variable that counts gets a new origin: make_origin.
    method MakeOrigin(who: Suspect) returns (o: Origin)
      requires Counted()
      modifies `live, `holds
      ensures Counted() && fresh(o) && o.who == who
      ensures o.refcnt == 1 && o.previous == null
      ensures live == old(live) + {o} && holds == old(holds) + multiset{o}
    {
      hide Accounted;
      o := new Origin(who);
      Joined(o, live, Named(shares) + holds);
      live, holds := live + {o}, holds + multiset{o};
      assert Named(shares) + old(holds) + multiset{o} == Named(shares) + holds;
    }

    lemma CountIsPositive(o: Origin)
      requires Counted() && o in holds
      ensures o in Named(shares) + holds && o in live && o.refcnt >= 1
    {}

    // origin_decref of a variable that counts.
    method Release(o: Origin)
      requires Counted() && o in holds
      modifies this`holds, this`live, live`refcnt
      ensures Counted() && holds == old(holds) - multiset{o} && live <= old(live)
      ensures old(o.refcnt) > 1 ==> live == old(live)
      ensures old(o.refcnt) == 1 ==> o !in live && (o.previous == null ==> live == old(live) - {o})
    {
      hide Accounted;
      CountIsPositive(o);
      live := Decref(o, live, Named(shares) + holds);
      assert Named(shares) + holds - multiset{o} == Named(shares) + (holds - multiset{o});
      holds := holds - multiset{o};
    }

    // The memcpy of dup_entry, which keeps the links.
    method Overwrite(dst: Entry, src: Share, ghost i: nat)
      requires Listed() && i < |entries| && dst == entries[i] && src.lno == shares[i].lno
      modifies this`shares, dst`lno, dst`num, dst`s_lno, dst`suspect, dst`guilty
      ensures Listed() && shares == old(shares)[i := src]
    {
      hide Chained;
      ListedDistinct();
      dst.lno, dst.num, dst.s_lno, dst.suspect, dst.guilty := src.lno, src.num, src.s_lno, src.suspect, src.guilty;
      shares := shares[i := src];
      forall j | 0 <= j < |entries| ensures entries[j].Holds(shares[j]) {
        assert j != i ==> entries[j] != dst && old(entries[j].Holds(shares[j]));
      }
    }

    lemma ListedLength()
      requires Listed()
      ensures |shares| == |entries| && Increasing(shares)
    {}

    lemma ListedDistinct()
      requires Listed()
      ensures Distinct(entries)
    {}

    // dup_entry
    method DupEntry(dst: Entry, src: Share, ghost i: nat)
      requires Valid() && i < |entries| && dst == entries[i] && src.suspect in live && src.lno == shares[i].lno
      modifies this`shares, this`live, dst`lno, dst`num, dst`s_lno, dst`suspect, dst`guilty, live`refcnt
      ensures Valid() && shares == old(shares)[i := src] && live <= old(live)
    {
      hide Accounted, Named, Listed;
      ListedAt(i);
      NamedReplace(shares, i, src);
      ghost var others := Others(shares, i);
      Together(others, multiset{shares[i].suspect}, holds);
      Together(others, multiset{src.suspect}, holds);
      live := Exchange(dst.suspect, src.suspect, live, others + holds);
      Overwrite(dst, src, i);
    }

    lemma ListedAt(i: nat)
      requires Listed() && i < |entries|
      ensures |shares| == |entries| && entries[i].Holds(shares[i]) && Linked(entries, i)
    {}

    // The place of a line in the sorted list: behind k entries.
    ghost predicate Place(k: nat, lno: nat)
      reads `shares
    {
      && k <= |shares| && (forall j :: 0 <= j < k ==> shares[j].lno < lno)
      && forall j :: k <= j < |shares| ==> lno < shares[j].lno
    }

    // The loop of add_blame_entry.
    method FindPlace(lno: nat, ghost k: nat) returns (prev: Entry?)
      requires Listed() && Place(k, lno)
      ensures prev == Nth(entries, k - 1)
    {
      prev := null;
      var e := ent;
      ghost var i := 0;
      while e != null && e.lno < lno
        invariant 0 <= i <= k <= |entries| && e == Nth(entries, i) && prev == Nth(entries, i - 1)
        decreases |entries| - i
      {
        ListedAt(i);
        prev, e, i := e, e.next, i + 1;
      }
      if e != null {
        ListedAt(i);
      }
    }

    // The part of add_blame_entry that changes the links.
    method Link(e: Entry, prev: Entry?, ghost es: seq<Entry>, ghost k: nat)
      requires Chained(es) && e !in es && k <= |es| && prev == Nth(es, k - 1)
      modifies `ent, e`prev, e`next, (set x | x in es)`prev, (set x | x in es)`next
      ensures Chained(es[..k] + [e] + es[k..])
    {
      assert k < |es| ==> Linked(es, k);
      assert k > 0 ==> Linked(es, k - 1);
      e.prev := prev;
      if prev != null {
        e.next := prev.next;
        prev.next := e;
      } else {
        e.next := ent;
        ent := e;
      }
      if e.next != null {
        e.next.prev := e;
      }
      ghost var more := es[..k] + [e] + es[k..];
      Inserted(es, k, e);
      forall i | 0 <= i < |more| ensures Linked(more, i) {
        if i < k {
          assert old(Linked(es, i));
        } else if i > k {
          assert old(Linked(es, i - 1));
        }
      }
    }

    // add_blame_entry, but for the count.
    method AddEntry(e: Entry, p: Share, ghost k: nat)
      requires Listed() && e !in entries && e.Holds(p) && Place(k, p.lno)
      modifies `ent, `entries, `shares, e`prev, e`next, (set x | x in entries)`prev, (set x | x in entries)`next
      ensures Listed() && shares == old(shares[..k]) + [p] + old(shares[k..])
      ensures entries == old(entries[..k]) + [e] + old(entries[k..])
    {
      hide Chained, Increasing, Linked, Shown, Entry.Holds, Distinct, Nth;
      ListedLength();
      var prev := FindPlace(p.lno, k);
      ghost var es, b := entries[..k] + [e] + entries[k..], shares[..k] + [p] + shares[k..];
      InsertedShare(shares, k, p);
      Link(e, prev, entries, k);
      ShownInsert(entries, shares, k, e, p);
      entries, shares := es, b;
    }

    // add_blame_entry
    method AddBlameEntry(e: Entry, p: Share, ghost k: nat)
      requires Valid() && e !in entries && e.Holds(p) && Place(k, p.lno) && p.suspect in live
      modifies `ent, `entries, `shares, e`prev, e`next, (set x | x in entries)`prev, (set x | x in entries)`next
      modifies p.suspect`refcnt
      ensures Valid() && shares == old(shares[..k]) + [p] + old(shares[k..])
      ensures entries == old(entries[..k]) + [e] + old(entries[k..])
    {
      hide Accounted, Named, Listed;
      NamedInsert(shares, k, p);
      Together(Named(shares), holds, multiset{p.suspect});
      Incref(p.suspect, live, Named(shares) + holds);
      AddEntry(e, p, k);
    }

    // The place behind entry i, in front of the next.
    lemma PlaceBehind(i: nat, lno: nat)
      requires Listed() && i < |shares| && shares[i].lno < lno && (i + 1 < |shares| ==> lno < shares[i + 1].lno)
      ensures Place(i + 1, lno)
    {
      ListedLength();
    }

    // A new entry behind entry i.
    method AddBehind(p: Share, ghost i: nat)
      requires Valid() && i < |shares| && shares[i].lno < p.lno && (i + 1 < |shares| ==> p.lno < shares[i + 1].lno)
      requires p.suspect in live
      modifies `ent, `entries, `shares, (set x | x in entries)`prev, (set x | x in entries)`next, p.suspect`refcnt
      ensures Valid() && shares == old(shares[..i + 1]) + [p] + old(shares[i + 1..])
      ensures |entries| == |shares| && entries[..i + 1] == old(entries[..i + 1])
      ensures fresh((set x | x in entries) - old(set x | x in entries))
    {
      hide Counted, Linked;
      ListedLength();
      PlaceBehind(i, p.lno);
      var e := new Entry(p);
      AddBlameEntry(e, p, i + 1);
      ListedLength();
    }

    lemma HeldIsLive(o: Origin)
      requires Counted() && o in holds
      ensures o in live
    {}

    // The parts fit between the pieces around piece i.
    ghost predicate FitsAt(parts: Parts, i: nat)
      reads `shares
    {
      && i < |shares| && parts.First().lno == shares[i].lno
      && (parts.hasBefore ==> parts.before.lno < parts.middle.lno)
      && (parts.hasAfter ==> parts.middle.lno < parts.after.lno)
      && (i + 1 < |shares| ==> parts.Last().lno < shares[i + 1].lno)
    }

    ghost predicate Held(parts: Parts)
      reads `holds
    {
      && (parts.hasBefore ==> parts.before.suspect in holds) && parts.middle.suspect in holds
      && (parts.hasAfter ==> parts.after.suspect in holds)
    }

    // split_blame
    method SplitBlame(e: Entry, parts: Parts, ghost i: nat)
      requires Valid() && i < |entries| && e == entries[i] && FitsAt(parts, i) && Held(parts)
      modifies `ent, `entries, `shares, `live, entries, live`refcnt
      ensures Valid() && live <= old(live) && i < |shares| == |entries|
      ensures shares == old(shares[..i]) + parts.List() + old(shares[i + 1..])
      ensures entries[..i + 1] == old(entries[..i + 1])
      ensures fresh((set x | x in entries) - old(set x | x in entries))
    {
      hide Counted, Listed, Parts.List;
      ListedLength();
      ghost var front, back := shares[..i], shares[i + 1..];
      var first := if parts.hasBefore then parts.before else parts.middle;
      HeldIsLive(first.suspect);
      DupEntry(e, first, i);
      ListedLength();
      AddParts(parts, i, front, first, back);
    }

    // The parts behind the first, the last one first.
    method AddParts(parts: Parts, ghost i: nat, ghost front: seq<Share>, ghost first: Share, ghost back: seq<Share>)
      requires Valid() && i == |front| && shares == front + [first] + back && first == parts.First() && Held(parts)
      requires parts.hasBefore ==> parts.before.lno < parts.middle.lno
      requires parts.hasAfter ==> parts.middle.lno < parts.after.lno
      requires back != [] ==> parts.Last().lno < back[0].lno
      modifies `ent, `entries, `shares, (set x | x in entries)`prev, (set x | x in entries)`next, live`refcnt
      ensures Valid() && shares == front + parts.List() + back
      ensures i < |entries| == |shares| && |entries| >= |old(entries)| > i && entries[..i + 1] == old(entries[..i + 1])
      ensures fresh((set x | x in entries) - old(set x | x in entries))
    {
      hide Counted, Listed, Parts.List;
      ListedLength();
      PartsList(parts);
      HeldIsLive(parts.middle.suspect);
      if parts.hasAfter {
        HeldIsLive(parts.after.suspect);
        AddPart(parts.after, i, front, [first], back);
      }
      if parts.hasBefore {
        HeldIsLive(parts.middle.suspect);
        AddPart(parts.middle, i, front, [first], if parts.hasAfter then [parts.after] + back else back);
      }
    }

    // A part that is linked in behind entry i.
    method AddPart(p: Share, ghost i: nat, ghost front: seq<Share>, ghost at: seq<Share>, ghost back: seq<Share>)
      requires Valid() && i == |front| && |at| == 1 && shares == front + at + back && p.suspect in holds
      requires at[0].lno < p.lno && (back != [] ==> p.lno < back[0].lno)
      modifies `ent, `entries, `shares, (set x | x in entries)`prev, (set x | x in entries)`next, p.suspect`refcnt
      ensures Valid() && shares == front + at + ([p] + back)
      ensures |entries| == |shares| && entries[..i + 1] == old(entries[..i + 1])
      ensures fresh((set x | x in entries) - old(set x | x in entries))
    {
      hide Counted, Listed;
      ListedLength();
      HeldIsLive(p.suspect);
      AddBehind(p, i);
    }

    // split_overlap, but for the counts. The middle part can be empty, and then nothing is split.
    method SplitOverlap(e: Entry, c: Range, parent: Origin, ghost p: Share) returns (parts: Parts, passes: bool)
      requires e.Holds(p) && Touched(p.Value(), c) && c.tlno <= c.same && p.num > 0 && parent.who == c.parent
      ensures Split(p.Value(), c) == Values(if passes then parts.List() else [p])
      ensures parts.before.suspect == parts.after.suspect == p.suspect && parts.middle.suspect == parent
      ensures passes ==> parts.First().lno == p.lno && parts.Last().lno < p.lno + p.num
      ensures passes && parts.hasBefore ==> parts.before.lno < parts.middle.lno
      ensures passes && parts.hasAfter ==> parts.middle.lno < parts.after.lno
    {
      var hasBefore := e.s_lno < c.tlno;
      var before := Share(e.lno, if hasBefore then c.tlno - e.s_lno else 0, e.s_lno, e.suspect, false);
      var lno, s_lno;
      if hasBefore {
        lno, s_lno := e.lno + c.tlno - e.s_lno, c.plno;
      } else {
        lno, s_lno := e.lno, c.plno + (e.s_lno - c.tlno);
      }
      var hasAfter := c.same < e.s_lno + e.num;
      var after := Share(e.lno + (c.same - e.s_lno), if hasAfter then e.s_lno + e.num - c.same else 0,
                         e.s_lno + (c.same - e.s_lno), e.suspect, false);
      var end := if hasAfter then after.lno else e.lno + e.num;
      parts := Parts(hasBefore, before, Share(lno, end - lno, s_lno, parent, false), hasAfter, after);
      passes := end - lno >= 1;
    }

    method HoldIf(b: bool, o: Origin)
      requires Counted() && (b ==> o in live)
      modifies this`holds, live`refcnt
      ensures Counted() && holds == old(holds) + Only(b, o)
    {
      hide Counted;
      if b {
        Hold(o);
      }
    }

    method ReleaseIf(b: bool, o: Origin)
      requires Counted() && (b ==> o in holds)
      modifies this`holds, this`live, live`refcnt
      ensures Counted() && holds == old(holds) - Only(b, o) && live <= old(live)
    {
      hide Counted;
      if b {
        Release(o);
      }
    }

    lemma NamedIsLive(i: nat)
      requires Counted() && i < |shares|
      ensures shares[i].suspect in live
    {
      NamedReplace(shares, i, shares[i]);
      assert shares[i].suspect in Named(shares) + holds;
    }

    lemma NamedAreLive()
      requires Counted()
      ensures forall p :: p in shares ==> p.suspect in live
    {
      hide Counted;
      forall i | 0 <= i < |shares| ensures shares[i].suspect in live {
        NamedIsLive(i);
      }
    }

    // The counts that split_overlap takes.
    method HoldSplit(parts: Parts, passes: bool)
      requires Counted() && parts.before.suspect == parts.after.suspect && parts.before.suspect in live
      requires parts.middle.suspect in live
      modifies this`holds, live`refcnt
      ensures Counted() && holds == old(holds) + SplitHolds(parts, passes)
      ensures passes ==> Held(parts)
    {
      hide Counted;
      HoldIf(parts.hasBefore, parts.before.suspect);
      HoldIf(parts.hasAfter, parts.after.suspect);
      HoldIf(passes, parts.middle.suspect);
    }

    // decref_split
    method ReleaseSplit(parts: Parts, passes: bool, ghost h: multiset<Origin>)
      requires Counted() && holds == h + SplitHolds(parts, passes)
      modifies this`holds, this`live, live`refcnt
      ensures Counted() && holds == h && live <= old(live)
    {
      hide Counted;
      Undone(h, Only(parts.hasBefore, parts.before.suspect), Only(parts.hasAfter, parts.after.suspect),
             Only(passes, parts.middle.suspect));
      ReleaseIf(parts.hasBefore, parts.before.suspect);
      ReleaseIf(passes, parts.middle.suspect);
      ReleaseIf(parts.hasAfter, parts.after.suspect);
    }

    method SplitIf(passes: bool, e: Entry, parts: Parts, ghost p: Share, ghost i: nat)
      requires Valid() && i < |entries| == |shares| && e == entries[i] && p == shares[i]
      requires passes ==> FitsAt(parts, i) && Held(parts)
      modifies `ent, `entries, `shares, `live, entries, live`refcnt
      ensures Valid() && live <= old(live) && i < |shares| == |entries|
      ensures shares == old(shares[..i]) + (if passes then parts.List() else [p]) + old(shares[i + 1..])
      ensures entries[..i + 1] == old(entries[..i + 1])
      ensures fresh((set x | x in entries) - old(set x | x in entries))
    {
      hide Counted, Listed, FitsAt, Held, Parts.List;
      if passes {
        SplitBlame(e, parts, i);
      } else {
        assert shares == shares[..i] + [p] + shares[i + 1..];
      }
    }

    // blame_overlap
    method BlameOverlap(e: Entry, c: Range, parent: Origin, ghost i: nat)
      requires Valid() && i < |entries| == |Board()| && e == entries[i] && parent in holds && parent.who == c.parent
      requires Touched(Board()[i], c) && c.tlno <= c.same && Board()[i].num > 0
      requires i + 1 < |Board()| ==> Board()[i].lno + Board()[i].num <= Board()[i + 1].lno
      modifies `ent, `entries, `shares, `live, `holds, entries, live`refcnt
      ensures Valid() && holds == old(holds) && live <= old(live) && i < |Board()| == |entries|
      ensures Board() == old(Board())[..i] + Split(old(Board())[i], c) + old(Board())[i + 1..]
      ensures entries[..i + 1] == old(entries[..i + 1])
      ensures fresh((set x | x in entries) - old(set x | x in entries))
    {
      hide Counted, Listed, Split, Touched, Linked, Held, SplitHolds, Parts.List, Values;
      ghost var p := shares[i];
      ListedAt(i);
      NamedIsLive(i);
      HeldIsLive(parent);
      var parts, passes := SplitOverlap(e, c, parent, p);
      ValuesInside(shares, i, if passes then parts.List() else [p]);
      HoldSplit(parts, passes);
      SplitIf(passes, e, parts, p, i);
      ReleaseSplit(parts, passes, old(holds));
    }

    // blame_chunk. New entries are met again behind the one that was split, and left alone.
    method BlameChunk(c: Range, parent: Origin, ghost from: nat, ghost to: nat)
      requires Valid() && Covers(Board(), from, to) && Fits(Board(), c) && !Same(c.parent, c.target)
      requires parent in holds && parent.who == c.parent
      modifies `ent, `entries, `shares, `live, `holds, entries, live`refcnt
      ensures Valid() && holds == old(holds) && live <= old(live)
      ensures Board() == Chunk(old(Board()), c)
      ensures forall o :: o in live ==>
        o.refcnt + Named(old(shares))[o] + old(|Successors(live, o)|)
        == old(o.refcnt) + Named(shares)[o] + |Successors(live, o)|
      ensures forall p :: p in shares ==> p.suspect in live
      ensures fresh((set x | x in entries) - old(set x | x in entries))
    {
      hide Counted, Listed, Split, Covers, Chunk, Linked, Named, Successors, Values;
      CountsAdd();
      ghost var goal, i := Chunk(Board(), c), 0;
      ListedLength();
      NothingDone(Board(), c);
      FirstEntry();
      var e := ent;
      while e != null
        invariant Valid() && holds == old(holds) && live <= old(live) && Covers(Board(), from, to)
        invariant 0 <= i <= |Board()| == |entries| && e == Nth(entries, i)
        invariant Fits(Board()[i..], c) && goal == Board()[..i] + Chunk(Board()[i..], c)
        invariant fresh((set x | x in entries) - old(set x | x in entries))
        decreases |goal| - i
      {
        ListedAt(i);
        ChunkGrows(Board(), i, c);
        if !e.guilty && Same(e.suspect.who, c.target) && c.same > e.s_lno && c.tlno < e.s_lno + e.num {
          SplitStep(Board(), i, c, from, to);
          BlameOverlap(e, c, parent, i);
          ListedAt(i);
        } else {
          SkipStep(Board(), i, c);
        }
        e, i := e.next, i + 1;
      }
      AllDone(Board(), i, c);
      CountsAdd();
      NamedAreLive();
    }

    lemma CountsAdd()
      requires Counted()
      ensures forall o :: o in live ==> o.refcnt == Named(shares)[o] + holds[o] + |Successors(live, o)|
    {}

    lemma FirstEntry()
      requires Listed()
      ensures ent == Nth(entries, 0)
    {}

    // What pass_whole_blame does to an entry.
    method SetSuspect(e: Entry, o: Origin, ghost i: nat)
      requires Valid() && i < |entries| == |shares| && e == entries[i] && o in live
      modifies `shares, `live, e`lno, e`num, e`s_lno, e`suspect, e`guilty, live`refcnt
      ensures Valid() && shares == old(shares)[i := old(shares[i]).(suspect := o)] && live <= old(live)
      ensures Board() == old(Board())[i := old(Board())[i].(suspect := o.who)]
    {
      hide Accounted, Named, Listed;
      ListedAt(i);
      var p := Share(e.lno, e.num, e.s_lno, o, e.guilty);
      NamedReplace(shares, i, p);
      Together(Others(shares, i), multiset{shares[i].suspect}, holds);
      Together(Others(shares, i), multiset{o}, holds);
      live := Exchange(e.suspect, o, live, Others(shares, i) + holds);
      Overwrite(e, p, i);
    }

    // pass_whole_blame
    method PassWholeBlame(origin: Origin, porigin: Origin)
      requires Valid() && origin in holds && porigin in holds
      modifies `shares, `live, entries, live`refcnt
      ensures Valid() && Board() == Whole(old(Board()), origin.who, porigin.who) && live <= old(live)
      ensures forall o :: o in live ==>
        o.refcnt + Named(old(shares))[o] + old(|Successors(live, o)|)
        == old(o.refcnt) + Named(shares)[o] + |Successors(live, o)|
      ensures forall p :: p in shares ==> p.suspect in live
    {
      hide Counted, Listed, Whole, Linked, Named, Successors, Values;
      CountsAdd();
      ghost var goal, i := Whole(Board(), origin.who, porigin.who), 0;
      ListedLength();
      FirstEntry();
      var e := ent;
      while e != null
        invariant Valid() && live <= old(live)
        invariant 0 <= i <= |Board()| == |entries| && e == Nth(entries, i)
        invariant goal == Whole(old(Board()), origin.who, porigin.who) && |goal| == |Board()|
        invariant forall j :: 0 <= j < |Board()| ==> Board()[j] == if j < i then goal[j] else old(Board())[j]
        decreases |Board()| - i
      {
        ListedAt(i);
        HeldIsLive(porigin);
        WholeAt(old(Board()), i, origin.who, porigin.who);
        if Same(e.suspect.who, origin.who) {
          SetSuspect(e, porigin, i);
          ListedAt(i);
        }
        e, i := e.next, i + 1;
      }
      assert Board() == goal;
      CountsAdd();
      NamedAreLive();
    }

    // An entry becomes guilty.
    method SetGuilty(e: Entry, ghost i: nat)
      requires Valid() && i < |entries| == |shares| && e == entries[i]
      modifies `shares, e`lno, e`num, e`s_lno, e`suspect, e`guilty
      ensures Valid() && shares == old(shares)[i := old(shares[i]).(guilty := true)]
      ensures Board() == old(Board())[i := old(Board())[i].(guilty := true)]
    {
      hide Accounted, Named, Listed;
      ListedAt(i);
      var p := Share(e.lno, e.num, e.s_lno, e.suspect, true);
      NamedReplace(shares, i, p);
      Overwrite(e, p, i);
    }

    // The loop at the end of a round of git_blame__like_git.
    method TakeResponsibility(suspect: Origin)
      requires Valid() && suspect in holds
      modifies `shares, entries
      ensures Valid() && Board() == Owned(old(Board()), suspect.who)
    {
      hide Counted, Listed, Owned, Linked, Values;
      ghost var goal, i := Owned(Board(), suspect.who), 0;
      ListedLength();
      FirstEntry();
      var e := ent;
      while e != null
        invariant Valid()
        invariant 0 <= i <= |Board()| == |entries| && e == Nth(entries, i)
        invariant goal == Owned(old(Board()), suspect.who) && |goal| == |Board()|
        invariant forall j :: 0 <= j < |Board()| ==> Board()[j] == if j < i then goal[j] else old(Board())[j]
        decreases |Board()| - i
      {
        ListedAt(i);
        OwnedAt(old(Board()), i, suspect.who);
        if Same(e.suspect.who, suspect.who) {
          SetGuilty(e, i);
          ListedAt(i);
        }
        e, i := e.next, i + 1;
      }
      assert Board() == goal;
    }

    // find_last_in_target
    method FindLastInTarget(target: Origin, ghost from: nat, ghost to: nat) returns (found: bool, last: nat)
      requires Listed() && Covers(Board(), from, to)
      ensures last == Last(Board(), target.who) && (found <==> last > 0)
    {
      hide Listed, Linked, Covers, Values;
      found, last := false, 0;
      ghost var i := 0;
      ListedLength();
      FirstEntry();
      var e := ent;
      assert Board()[0..] == Board();
      while e != null
        invariant 0 <= i <= |Board()| == |entries| && e == Nth(entries, i)
        invariant Max(last, Last(Board()[i..], target.who)) == Last(Board(), target.who) && (found <==> last > 0)
        decreases |Board()| - i
      {
        ListedAt(i);
        CoversAt(Board(), i, from, to);
        assert Board()[i..][1..] == Board()[i + 1..];
        if !e.guilty && Same(e.suspect.who, target.who) {
          if last < e.s_lno + e.num {
            found, last := true, e.s_lno + e.num;
          }
        }
        e, i := e.next, i + 1;
      }
    }

    // pass_blame_to_parent, for the hunks that the diff engine reports. False: nothing is left
    // that the target is suspected for.
    method PassBlameToParent(target: Origin, parent: Origin, hunks: seq<Hunk>, ghost from: nat, ghost to: nat)
      returns (found: bool)
      requires Valid() && Covers(Board(), from, to) && Sorted(hunks, 0, 0) && !Same(parent.who, target.who)
      requires target in holds && parent in holds
      modifies `ent, `entries, `shares, `live, `holds, entries, live`refcnt
      ensures Valid() && holds == old(holds) && live <= old(live)
      ensures Bounded(old(Board()), target.who, Last(old(Board()), target.who))
      ensures Board() == Pass(old(Board()), hunks, 0, 0, Last(old(Board()), target.who), target.who, parent.who)
      ensures found <==> Last(old(Board()), target.who) > 0
      ensures fresh((set x | x in entries) - old(set x | x in entries))
    {
      hide Counted, Listed, Covers, Chunk, Pass, Bounded, Last, Sorted, Values;
      LastBounds(Board(), target.who, from, to);
      var last;
      found, last := FindLastInTarget(target, from, to);
      if !found {
        PassNothing(Board(), hunks, 0, 0, target.who, parent.who);
        return;
      }
      ghost var goal := Pass(Board(), hunks, 0, 0, last, target.who, parent.who);
      var tlno: nat, plno: nat, i: nat := 0, 0, 0;
      assert hunks[0..] == hunks;
      while i < |hunks|
        invariant Valid() && holds == old(holds) && live <= old(live) && 0 <= i <= |hunks|
        invariant Covers(Board(), from, to) && Bounded(Board(), target.who, last) && Sorted(hunks[i..], plno, tlno)
        invariant goal == Pass(Board(), hunks[i..], plno, tlno, last, target.who, parent.who)
        invariant fresh((set x | x in entries) - old(set x | x in entries))
      {
        var h := hunks[i];
        ghost var c := Range(tlno, plno, h.startB, target.who, parent.who);
        PassStep(Board(), hunks, i, plno, tlno, last, target.who, parent.who);
        ChunkMoves(Board(), c, from, to);
        BlameChunk(Range(tlno, plno, h.startB, target.who, parent.who), parent, from, to);
        plno, tlno, i := h.startA + h.countA, h.startB + h.countB, i + 1;
      }
      PassEnd(Board(), plno, tlno, last, target.who, parent.who);
      assert hunks[i..] == [];
      BlameChunk(Range(tlno, plno, last, target.who, parent.who), parent, from, to);
    }

    // The first parent that an origin is compared with becomes its previous origin.
    method SetPrevious(origin: Origin, porigin: Origin)
      requires Valid() && origin in holds && porigin in holds
      modifies origin`previous, porigin`refcnt
      ensures Valid() && origin.previous == if old(origin.previous) == null then porigin else old(origin.previous)
    {
      hide Listed, Named;
      if origin.previous == null {
        Precede(origin, porigin, live, Named(shares) + holds);
      }
    }

    // git_blame__get_origin. Each entry with the same commit object and path counts once more, and
    // still a new origin is what the caller gets: lost is what nobody gives back.
    method GetOrigin(who: Suspect) returns (o: Origin, ghost lost: multiset<Origin>)
      requires Valid()
      modifies `live, `holds, live`refcnt
      ensures Valid() && fresh(o) && o.who == who
      ensures o.refcnt == 1 && o.previous == null
      ensures |lost| == Matches(Board(), who.handle, who.path) && Owners(lost) <= old(live)
      ensures live == old(live) + {o} && holds == old(holds) + lost + multiset{o}
    {
      hide Counted, Listed, Linked, Matches, Owners, Values;
      lost := multiset{};
      ghost var i := 0;
      NoneLost();
      ListedLength();
      FirstEntry();
      MatchesFirst(Board(), who.handle, who.path);
      var e := ent;
      while e != null
        invariant Valid() && live == old(live) && holds == old(holds) + lost
        invariant 0 <= i <= |Board()| == |entries| && e == Nth(entries, i)
        invariant |lost| + Matches(Board()[i..], who.handle, who.path) == Matches(Board(), who.handle, who.path)
        invariant Owners(lost) <= live
        decreases |Board()| - i
      {
        ListedAt(i);
        NamedIsLive(i);
        MatchesNext(Board(), i, who.handle, who.path);
        if e.suspect.who.handle == who.handle && e.suspect.who.path == who.path {
          Hold(e.suspect);
          OneLost(lost, e.suspect);
          lost := lost + multiset{e.suspect};
        }
        e, i := e.next, i + 1;
      }
      o := MakeOrigin(who);
    }

    // The renames of find_origin: an origin is made for each path, and the next takes its place.
    method MakeDropped(commit: nat, handle: nat, dropped: seq<string>) returns (ghost lost: multiset<Origin>)
      requires Counted()
      modifies `live, `holds
      ensures Counted() && |lost| == |dropped| && fresh(Owners(lost)) && Roots(Owners(lost))
      ensures live == old(live) + Owners(lost) && holds == old(holds) + lost
    {
      hide Counted, Owners;
      lost := multiset{};
      NoneLost();
      for i := 0 to |dropped|
        invariant Counted() && |lost| == i && fresh(Owners(lost)) && Roots(Owners(lost))
        invariant live == old(live) + Owners(lost) && holds == old(holds) + lost
      {
        var o := MakeOrigin(Suspect(commit, handle, dropped[i]));
        OneLost(lost, o);
        lost := lost + multiset{o};
      }
    }

    // find_origin, for what the tree diff finds.
    method FindOrigin(f: Found) returns (o: Origin, ghost lost: multiset<Origin>)
      requires Valid()
      modifies `live, `holds, live`refcnt
      ensures Valid() && fresh(o) && o.who == f.Who()
      ensures o.refcnt == 1 && o.previous == null && o !in Owners(lost)
      ensures |lost| == LeaksAt(Board(), f) && fresh(live - old(live)) && Roots(live - old(live))
      ensures live == old(live) + Owners(lost) + {o} && holds == old(holds) + lost + multiset{o}
    {
      hide Counted, Listed, Matches, Owners;
      match f.how
      case AsBefore =>
        o, lost := GetOrigin(f.Who());
      case Renamed(dropped) =>
        lost := MakeDropped(f.commit, f.handle, dropped);
        o := MakeOrigin(f.Who());
    }

    // The first loop of pass_blame. What is found in a parent becomes a new origin. A parent with
    // the same blob ends the loop; of several parents with one other blob only the first is kept,
    // and the origins of the others are freed again. What is kept, and whole, is held.
    method Collect(blob: nat, parents: seq<Option<Found>>)
      returns (whole: Option<Candidate>, kept: seq<Candidate>, ghost lost: multiset<Origin>)
      requires Valid()
      modifies `live, `holds, live`refcnt
      ensures Valid() && Chosen(whole, kept, blob, parents)
      ensures |lost| == Leaks(Board(), blob, parents) && fresh(live - old(live)) && Roots(live - old(live))
      ensures live == old(live) + Owners(lost) + OriginsOf(kept) + Whose(whole)
      ensures holds == old(holds) + lost + HeldBy(kept) + multiset(Whose(whole))
    {
      hide Counted, Listed, Named, HeldBy, OriginsOf, Owners, Whose, Linked, Met, Meets, Chosen, Leaks, LeaksAt, Roots;
      whole, kept, lost := None, [], multiset{};
      ghost var outer := holds;
      NothingKept(outer);
      NoneLost();
      NoRoots();
      MetNobody(Board(), blob, parents);
      for i := 0 to |parents|
        invariant Valid() && holds == outer + lost + HeldBy(kept) && whole.None?
        invariant Met(kept, lost, Board(), blob, parents, i)
        invariant live == old(live) + Owners(lost) + OriginsOf(kept)
        invariant fresh(live - old(live)) && Roots(live - old(live))
      {
        ghost var before := live;
        assert fresh(before - old(live));
        whole, kept, lost := CollectAt(parents, i, blob, kept, lost, old(live), outer);
        MoreRoots(before - old(live), live - before, live - old(live));
        if whole.Some? {
          return;
        }
      }
      MetAll(kept, lost, Board(), blob, parents);
    }

    // One round of the first loop.
    method CollectAt(parents: seq<Option<Found>>, i: nat, blob: nat, kept: seq<Candidate>, ghost lost: multiset<Origin>,
                     ghost was: set<Origin>, ghost outer: multiset<Origin>)
      returns (whole: Option<Candidate>, kept': seq<Candidate>, ghost lost': multiset<Origin>)
      requires Valid() && i < |parents| && Met(kept, lost, Board(), blob, parents, i)
      requires holds == outer + lost + HeldBy(kept) && live == was + Owners(lost) + OriginsOf(kept)
      modifies `live, `holds, live`refcnt
      ensures Valid() && holds == outer + lost' + HeldBy(kept') + multiset(Whose(whole))
      ensures live == was + Owners(lost') + OriginsOf(kept') + Whose(whole)
      ensures fresh(live - old(live)) && Roots(live - old(live))
      ensures if whole.Some? then Chosen(whole, kept', blob, parents) && |lost'| == Leaks(Board(), blob, parents)
              else Met(kept', lost', Board(), blob, parents, i + 1)
    {
      hide Counted, Listed, HeldBy, OriginsOf, Owners, Whose, Met, Meets, Chosen, Leaks, LeaksAt, Roots;
      if parents[i].Some? {
        ghost var more;
        whole, kept', more := Meet(parents[i].value, blob, kept, was + Owners(lost), outer + lost);
        MetNext(kept, whole, kept', lost, more, Board(), blob, parents, i);
        MoreLost(outer, lost, more);
        lost' := lost + more;
      } else {
        whole, kept', lost' := None, kept, lost;
        NothingKept(outer + lost + HeldBy(kept));
        NoRoots();
        MetNone(kept, lost, Board(), blob, parents, i);
      }
    }

    // The first loop for one parent.
    method Meet(f: Found, blob: nat, kept: seq<Candidate>, ghost was: set<Origin>, ghost outer: multiset<Origin>)
      returns (whole: Option<Candidate>, kept': seq<Candidate>, ghost more: multiset<Origin>)
      requires Valid() && holds == outer + HeldBy(kept) && live == was + OriginsOf(kept)
      modifies `live, `holds, live`refcnt
      ensures Valid() && holds == outer + more + HeldBy(kept') + multiset(Whose(whole))
      ensures live == was + Owners(more) + OriginsOf(kept') + Whose(whole)
      ensures fresh(live - old(live)) && Roots(live - old(live))
      ensures Meets(f, blob, kept, whole, kept') && |more| == LeaksAt(Board(), f)
    {
      hide Counted, Listed, HeldBy, OriginsOf, Owners, Whose, Meets, Told, LeaksAt, Roots, TellsMore;
      var o;
      o, more := FindOrigin(f);
      var c := Candidate(o, f.how, f.blob, f.hunks);
      ghost var all := live - old(live);
      Between(outer, more, HeldBy(kept), multiset{o});
      NothingKept(outer + more + HeldBy(kept));
      ToldParts(c);
      if c.blob == blob {
        whole, kept' := Some(c), kept;
        WholeMeets(c, blob, kept);
      } else {
        whole := None;
        kept' := Keep(kept, c, outer + more);
        KeepMeets(c, blob, kept, kept');
        FewerRoots(all, live - old(live));
      }
    }

    // A parent that is held is kept, unless an earlier one has its blob: then its origin is freed.
    method Keep(kept: seq<Candidate>, c: Candidate, ghost outer: multiset<Origin>) returns (kept': seq<Candidate>)
      requires Counted() && holds == outer + HeldBy(kept) + multiset{c.origin}
      requires c.origin.refcnt == 1 && c.origin.previous == null
      modifies `live, `holds, live`refcnt
      ensures Counted() && holds == outer + HeldBy(kept')
      ensures Told(kept') == TellsMore(kept, c.Told())
      ensures kept' == kept || kept' == kept + [c]
      ensures live == if kept' == kept then old(live) - {c.origin} else old(live)
    {
      hide Accounted, HeldBy, Named;
      var same := HasBlob(kept, c.blob);
      HeldMore(outer, kept, c);
      ToldBlob(kept, c.blob);
      if same {
        Release(c.origin);
        kept' := kept;
      } else {
        kept' := kept + [c];
        assert Told(kept') == Told(kept) + [c.Told()];
      }
    }

    // The end of pass_blame.
    method ReleaseAll(kept: seq<Candidate>, ghost outer: multiset<Origin>)
      requires Counted() && holds == outer + HeldBy(kept)
      modifies `live, `holds, live`refcnt
      ensures Counted() && live <= old(live) && holds == outer
    {
      hide Accounted, HeldBy;
      for i := 0 to |kept|
        invariant Counted() && live <= old(live) && holds == outer + HeldBy(kept[i..])
      {
        HeldFirst(kept, i);
        Release(kept[i].origin);
      }
      HeldByNone(kept);
    }

    // The second loop of pass_blame: the origin is compared with each parent that is kept, until
    // nothing is left that it is suspected for.
    method PassToParents<L>(origin: Origin, kept: seq<Candidate>, ghost from: nat, ghost to: nat,
                            ghost files: (nat, string) -> File<L>, ghost final: File<L>)
      requires Valid() && Covers(Board(), from, to) && Means(Board(), from, to, files, final) && origin in holds
      requires forall c :: c in kept ==> c.origin in holds && Allowed(PassTo(origin.who, c.origin.who, c.hunks), files)
      modifies `ent, `entries, `shares, `live, `holds, entries, live`refcnt, origin`previous
      ensures Valid() && holds == old(holds) && live <= old(live)
      ensures Covers(Board(), from, to) && Means(Board(), from, to, files, final)
      ensures Board() == PassedAll(old(Board()), origin.who, Told(kept))
      ensures origin.previous == After(old(origin.previous), None, kept)
      ensures fresh((set x | x in entries) - old(set x | x in entries))
    {
      hide Counted, Listed, Covers, Means, Pass, Diff, Bounded, PassedAll, Last, After, Values;
      ghost var told := Told(kept);
      ghost var goal := PassedAll(Board(), origin.who, told);
      assert told[0..] == told;
      AfterNone(origin.previous, kept);
      for k := 0 to |kept|
        invariant Valid() && holds == old(holds) && live <= old(live)
        invariant Covers(Board(), from, to) && Means(Board(), from, to, files, final)
        invariant goal == PassedAll(Board(), origin.who, told[k..])
        invariant origin.previous == After(old(origin.previous), None, kept[..k])
        invariant fresh((set x | x in entries) - old(set x | x in entries))
      {
        AfterNext(old(origin.previous), kept, k);
        PassedStep(Board(), origin.who, told, k);
        ghost var before := Board();
        var found := PassToParent(origin, kept[k], from, to, files, final);
        if !found {
          PassedNothing(before, origin.who, told[k..]);
          PassedNothing(before, origin.who, told[k + 1..]);
          return;
        }
      }
      PassedNone(Board(), origin.who, told);
    }

    // One round of the second loop.
    method PassToParent<L>(origin: Origin, c: Candidate, ghost from: nat, ghost to: nat,
                           ghost files: (nat, string) -> File<L>, ghost final: File<L>) returns (found: bool)
      requires Valid() && Covers(Board(), from, to) && Means(Board(), from, to, files, final) && origin in holds
      requires c.origin in holds && Allowed(PassTo(origin.who, c.origin.who, c.hunks), files)
      modifies `ent, `entries, `shares, `live, `holds, entries, live`refcnt, origin`previous
      ensures Valid() && holds == old(holds) && live <= old(live)
      ensures Covers(Board(), from, to) && Means(Board(), from, to, files, final)
      ensures Bounded(old(Board()), origin.who, Last(old(Board()), origin.who))
      ensures found <==> Last(old(Board()), origin.who) > 0
      ensures Board() == PassedTo(old(Board()), origin.who, c.Told())
      ensures origin.previous == if old(origin.previous) == null then c.origin else old(origin.previous)
      ensures fresh((set x | x in entries) - old(set x | x in entries))
    {
      hide Counted, Listed, Covers, Means, Pass, Diff, Bounded, Last, Values;
      HeldIsLive(c.origin);
      PassMeans(Board(), c.hunks, origin.who, c.origin.who, from, to, files, final);
      LastBounds(Board(), origin.who, from, to);
      SetPrevious(origin, c.origin);
      found := PassBlameToParent(origin, c.origin, c.hunks, from, to);
    }

    // A parent that has the file as it is gets everything.
    method PassToSame<L>(origin: Origin, porigin: Origin, ghost from: nat, ghost to: nat,
                         ghost files: (nat, string) -> File<L>, ghost final: File<L>)
      requires Valid() && Covers(Board(), from, to) && Means(Board(), from, to, files, final)
      requires origin in holds && porigin in holds && Allowed(PassWhole(origin.who, porigin.who), files)
      modifies `shares, `live, `holds, entries, live`refcnt
      ensures Valid() && holds == old(holds) - multiset{porigin} && live <= old(live)
      ensures Covers(Board(), from, to) && Means(Board(), from, to, files, final)
      ensures Board() == Whole(old(Board()), origin.who, porigin.who)
    {
      hide Counted, Listed, Covers, Means, Whole, Diff;
      WholeMeans(Board(), origin.who, porigin.who, from, to, files, final);
      PassWholeBlame(origin, porigin);
      Release(porigin);
    }

    // What pass_blame does with the parents that the first loop chose.
    method PassOn<L>(origin: Origin, whole: Option<Candidate>, kept: seq<Candidate>, ghost outer: multiset<Origin>,
                     ghost from: nat, ghost to: nat, ghost files: (nat, string) -> File<L>, ghost final: File<L>)
      requires Valid() && Covers(Board(), from, to) && Means(Board(), from, to, files, final) && origin in outer
      requires holds == outer + HeldBy(kept) + multiset(Whose(whole)) && ChoiceAllowed(origin.who, whole, kept, files)
      modifies `ent, `entries, `shares, `live, `holds, entries, live`refcnt, origin`previous
      ensures Valid() && holds == outer + HeldBy(kept) && live <= old(live)
      ensures Covers(Board(), from, to) && Means(Board(), from, to, files, final)
      ensures Board() == PassedBy(old(Board()), origin.who, ToldWhole(whole), Told(kept))
      ensures origin.previous == After(old(origin.previous), whole, kept)
      ensures fresh((set x | x in entries) - old(set x | x in entries))
    {
      hide Counted, Listed, Covers, Means, PassedAll, HeldBy, Allowed, Whole, Whose, Linked;
      WholeIsHeld(outer, kept, whole);
      if whole.Some? {
        PassToSame(origin, whole.value.origin, from, to, files, final);
      } else {
        PassToParents(origin, kept, from, to, files, final);
      }
    }

    // pass_blame. parents has what is found of the origin's file in each parent, with its blob and
    // the hunks from there to the origin. Whatever is neither blamed for anything nor lost is freed
    // again.
    method PassBlame<L>(origin: Origin, blob: nat, parents: seq<Option<Found>>, ghost from: nat, ghost to: nat,
                        ghost files: (nat, string) -> File<L>, ghost final: File<L>)
      returns (ghost lost: multiset<Origin>)
      requires Valid() && Covers(Board(), from, to) && Means(Board(), from, to, files, final) && origin in holds
      requires forall f :: Some(f) in parents ==> Trusted(origin.who, blob, f, files)
      modifies `ent, `entries, `shares, `live, `holds, entries, live`refcnt, origin`previous
      ensures Valid() && holds == old(holds) + lost && |lost| == Leaks(old(Board()), blob, parents)
      ensures fresh(live - old(live)) && Roots(live - old(live))
      ensures Preceded(old(origin.previous), origin.previous, blob, parents)
      ensures Covers(Board(), from, to) && Means(Board(), from, to, files, final)
      ensures Board() == Passed(old(Board()), origin.who, blob, parents)
      ensures fresh((set x | x in entries) - old(set x | x in entries))
    {
      hide Counted, Listed, Covers, Means, PassedBy, HeldBy, Trusted, Allowed, Chosen, OriginsOf, Whose, ChoiceAllowed;
      hide Owners, Leaks, After, Values, Preceded, Told, ToldWhole;
      ghost var outer := holds;
      var whole, kept;
      whole, kept, lost := Collect(blob, parents);
      ChosenAreTrusted(origin.who, whole, kept, blob, parents, files);
      ChosenPass(old(Board()), origin.who, old(origin.previous), whole, kept, blob, parents);
      PassOn(origin, whole, kept, outer + lost, from, to, files, final);
      ReleaseAll(kept, outer + lost);
    }

    // The first entry that nobody has taken responsibility for.
    method FindSuspect() returns (suspect: Origin?)
      requires Valid()
      ensures var i := First(Board());
        if i == |Board()| then suspect == null
        else suspect != null && suspect in live && suspect == shares[i].suspect && suspect.who == Board()[i].suspect
    {
      hide Counted, Listed, Linked, Values;
      suspect := null;
      ghost var i := 0;
      ListedLength();
      FirstEntry();
      var e := ent;
      while suspect == null && e != null
        invariant 0 <= i <= |shares| == |entries| && suspect == null && e == Nth(entries, i)
        invariant forall j :: 0 <= j < i ==> Board()[j].guilty
        decreases |shares| - i
      {
        ListedAt(i);
        NamedIsLive(i);
        if !e.guilty {
          FirstIs(Board(), i);
          return e.suspect;
        }
        e, i := e.next, i + 1;
      }
      FirstIs(Board(), i);
    }

    // A round of git_blame__like_git.
    method Round<L>(suspect: Origin, blob: nat, parents: seq<Option<Found>>, ghost from: nat, ghost to: nat,
                    ghost files: (nat, string) -> File<L>, ghost final: File<L>)
      returns (ghost lost: multiset<Origin>)
      requires Valid() && Covers(Board(), from, to) && Means(Board(), from, to, files, final) && suspect in live
      requires forall f :: Some(f) in parents ==> Trusted(suspect.who, blob, f, files)
      modifies `ent, `entries, `shares, `live, `holds, entries, live`refcnt, suspect`previous
      ensures Valid() && holds == old(holds) + lost && |lost| == Leaks(old(Board()), blob, parents)
      ensures fresh(live - old(live)) && Roots(live - old(live))
      ensures Preceded(old(suspect.previous), suspect.previous, blob, parents)
      ensures Covers(Board(), from, to) && Means(Board(), from, to, files, final)
      ensures Board() == Owned(Passed(old(Board()), suspect.who, blob, parents), suspect.who)
      ensures forall p :: p in Board() && Same(p.suspect, suspect.who) ==> p.guilty
      ensures fresh((set x | x in entries) - old(set x | x in entries))
    {
      hide Counted, Listed, Covers, Means, Trusted, Passed, Leaks, Preceded, Roots, Owned, Same, Values;
      lost := PassHeld(suspect, blob, parents, from, to, files, final);
      ghost var more := live - old(live);
      OwnedMeans(Board(), suspect.who, from, to, files, final);
      Finish(suspect);
      FewerRoots(more, live - old(live));
      assert holds == old(holds) + lost;
    }

    // The suspect is held for the rest of the round.
    method PassHeld<L>(suspect: Origin, blob: nat, parents: seq<Option<Found>>, ghost from: nat, ghost to: nat,
                       ghost files: (nat, string) -> File<L>, ghost final: File<L>)
      returns (ghost lost: multiset<Origin>)
      requires Valid() && Covers(Board(), from, to) && Means(Board(), from, to, files, final) && suspect in live
      requires forall f :: Some(f) in parents ==> Trusted(suspect.who, blob, f, files)
      modifies `ent, `entries, `shares, `live, `holds, entries, live`refcnt, suspect`previous
      ensures Valid() && holds == old(holds) + multiset{suspect} + lost && |lost| == Leaks(old(Board()), blob, parents)
      ensures fresh(live - old(live)) && Roots(live - old(live))
      ensures Preceded(old(suspect.previous), suspect.previous, blob, parents)
      ensures Covers(Board(), from, to) && Means(Board(), from, to, files, final)
      ensures Board() == Passed(old(Board()), suspect.who, blob, parents)
      ensures fresh((set x | x in entries) - old(set x | x in entries))
    {
      hide Counted, Listed, Covers, Means, Trusted, Passed, Leaks, Preceded, Roots, Values;
      Hold(suspect);
      lost := PassBlame(suspect, blob, parents, from, to, files, final);
    }

    // The suspect is guilty of what is left to it, and let go.
    method Finish(suspect: Origin)
      requires Valid() && suspect in holds
      modifies `shares, `live, `holds, entries, live`refcnt
      ensures Valid() && live <= old(live) && holds == old(holds) - multiset{suspect}
      ensures Board() == Owned(old(Board()), suspect.who)
      ensures forall p :: p in Board() && Same(p.suspect, suspect.who) ==> p.guilty
    {
      hide Counted, Listed, Values;
      TakeResponsibility(suspect);
      Release(suspect);
    }

    // The end of blame_internal: each entry becomes a hunk, and is freed with its share in its
    // origin.
    method Report() returns (hunks: seq<Reported>)
      requires Valid()
      modifies `ent, `entries, `shares, `live, live`refcnt
      ensures Valid() && shares == [] && live <= old(live)
      ensures |hunks| == |old(Board())| && forall i :: 0 <= i < |hunks| ==> hunks[i] == Hunked(old(Board())[i])
    {
      hide Accounted, Listed, Named, Linked;
      ghost var i := 0;
      ListedLength();
      FirstEntry();
      hunks := [];
      var e := ent;
      assert shares[0..] == shares;
      while e != null
        invariant 0 <= i <= |shares| == |entries| && e == Nth(entries, i)
        invariant shares == old(shares) && entries == old(entries)
        invariant Listed() && Accounted(live, Named(shares[i..]) + holds) && live <= old(live)
        invariant |hunks| == i && forall j :: 0 <= j < i ==> hunks[j] == Hunked(shares[j].Value())
        decreases |shares| - i
      {
        ListedAt(i);
        hunks := hunks + [Reported(e.lno + 1, e.num, e.s_lno + 1, e.suspect.who.commit, e.suspect.who.path)];
        NamedLess(shares, i, holds);
        live := Decref(e.suspect, live, Named(shares[i..]) + holds);
        e, i := e.next, i + 1;
      }
      assert shares[i..] == [];
      ent, entries, shares := null, [], [];
      NothingListed();
    }

    lemma NothingListed()
      requires ent == null && entries == [] && shares == []
      ensures Listed()
    {}
  }

  function ToldWhole(whole: Option<Candidate>): Option<Found> {
    if whole.Some? then Some(whole.value.Told()) else None
  }

  // The choice of the first loop of pass_blame.
  ghost predicate Chosen(whole: Option<Candidate>, kept: seq<Candidate>, blob: nat, parents: seq<Option<Found>>) {
    SameBlob(parents, blob) == ToldWhole(whole) && (whole.None? ==> Told(kept) == Kept(parents))
  }

  // The first parent that is kept becomes the previous origin of one that has none.
  ghost predicate Preceded(was: Origin?, now: Origin?, blob: nat, parents: seq<Option<Found>>) {
    if was == null && SameBlob(parents, blob).None? && Kept(parents) != []
    then now != null && now.who == Kept(parents)[0].Who()
    else now == was
  }

  lemma ChosenPass(board: seq<Piece>, suspect: Suspect, previous: Origin?, whole: Option<Candidate>,
                   kept: seq<Candidate>, blob: nat, parents: seq<Option<Found>>)
    requires Chosen(whole, kept, blob, parents)
    ensures PassedBy(board, suspect, ToldWhole(whole), Told(kept)) == Passed(board, suspect, blob, parents)
    ensures Preceded(previous, After(previous, whole, kept), blob, parents)
  {
    hide Kept, SameBlob, Whole, PassedAll;
    if whole.None? && kept != [] {
      assert Told(kept)[0] == kept[0].Told();
    }
  }

  // What blame is to be passed on by is true of the files.
  ghost predicate ChoiceAllowed<L>(suspect: Suspect, whole: Option<Candidate>, kept: seq<Candidate>,
                                   files: (nat, string) -> File<L>)
  {
    match whole
    case Some(c) => Allowed(PassWhole(suspect, c.origin.who), files)
    case None => forall c :: c in kept ==> Allowed(PassTo(suspect, c.origin.who, c.hunks), files)
  }

  lemma ChosenAreTrusted<L>(suspect: Suspect, whole: Option<Candidate>, kept: seq<Candidate>, blob: nat,
                            parents: seq<Option<Found>>, files: (nat, string) -> File<L>)
    requires Chosen(whole, kept, blob, parents)
    requires forall f :: Some(f) in parents ==> Trusted(suspect, blob, f, files)
    ensures ChoiceAllowed(suspect, whole, kept, files)
  {
    hide Kept, Diff;
    SameBlobIsParent(parents, blob);
    if whole.None? {
      KeptAreParents(parents);
      forall c | c in kept ensures Allowed(PassTo(suspect, c.origin.who, c.hunks), files) {
        var i :| 0 <= i < |kept| && c == kept[i];
        assert Told(kept)[i] in Kept(parents);
      }
    }
  }

  ghost function Owners(lost: multiset<Origin>): set<Origin> {
    set o | o in lost
  }

  // None of them has a previous origin.
  ghost predicate Roots(origins: set<Origin>)
    reads origins`previous
  {
    forall o :: o in origins ==> o.previous == null
  }

  lemma FewerRoots(origins: set<Origin>, fewer: set<Origin>)
    requires Roots(origins) && fewer <= origins
    ensures Roots(fewer)
  {}

  lemma NoRoots()
    ensures Roots({})
  {}

  lemma MoreRoots(origins: set<Origin>, more: set<Origin>, all: set<Origin>)
    requires Roots(origins) && Roots(more) && all <= origins + more
    ensures Roots(all)
  {}

  lemma NoneLost()
    ensures Owners(multiset{}) == {}
  {}

  lemma OneLost(lost: multiset<Origin>, o: Origin)
    ensures Owners(lost + multiset{o}) == Owners(lost) + {o}
  {}

  lemma MoreLost(outer: multiset<Origin>, lost: multiset<Origin>, more: multiset<Origin>)
    ensures outer + lost + more == outer + (lost + more) && Owners(lost + more) == Owners(lost) + Owners(more)
  {}

  lemma Between(a: multiset<Origin>, more: multiset<Origin>, b: multiset<Origin>, o: multiset<Origin>)
    ensures a + b + (more + o) == a + more + b + o && a + b + more + o == a + more + b + o
  {}

  function Told(kept: seq<Candidate>): (fs: seq<Found>)
    ensures |fs| == |kept| && forall i :: 0 <= i < |kept| ==> fs[i] == kept[i].Told()
  {
    seq(|kept|, i requires 0 <= i < |kept| => kept[i].Told())
  }

  lemma ToldBlob(kept: seq<Candidate>, blob: nat)
    ensures (exists c :: c in kept && c.blob == blob) <==> exists f :: f in Told(kept) && f.blob == blob
  {
    forall i | 0 <= i < |kept| ensures Told(kept)[i].blob == kept[i].blob {}
    if f :| f in Told(kept) && f.blob == blob {
      var i :| 0 <= i < |kept| && f == Told(kept)[i];
      assert kept[i] in kept;
    }
    if c :| c in kept && c.blob == blob {
      var i :| 0 <= i < |kept| && c == kept[i];
      assert Told(kept)[i] in Told(kept);
    }
  }

  ghost function OriginsOf(kept: seq<Candidate>): set<Origin> {
    set c | c in kept :: c.origin
  }

  ghost function Whose(whole: Option<Candidate>): set<Origin> {
    if whole.Some? then {whole.value.origin} else {}
  }

  lemma {:induction false} KeptAreHeld(kept: seq<Candidate>)
    ensures forall c :: c in kept ==> c.origin in HeldBy(kept)
  {
    if kept != [] {
      KeptAreHeld(kept[1..]);
      assert kept == [kept[0]] + kept[1..];
    }
  }

  ghost function HeldBy(kept: seq<Candidate>): multiset<Origin> {
    if kept == [] then multiset{} else multiset{kept[0].origin} + HeldBy(kept[1..])
  }

  method HasBlob(kept: seq<Candidate>, blob: nat) returns (same: bool)
    ensures same <==> exists c :: c in kept && c.blob == blob
  {
    same := false;
    for j := 0 to |kept|
      invariant !same && forall c :: c in kept[..j] ==> c.blob != blob
    {
      assert kept[..j + 1] == kept[..j] + [kept[j]];
      if kept[j].blob == blob {
        same := true;
        break;
      }
    }
    assert kept[..|kept|] == kept;
  }

  // Beside what is kept just the origin with the same blob is held.
  lemma WholeIsHeld(outer: multiset<Origin>, kept: seq<Candidate>, whole: Option<Candidate>)
    ensures var h := outer + HeldBy(kept) + multiset(Whose(whole));
            match whole
            case Some(c) => c.origin in h && h - multiset{c.origin} == outer + HeldBy(kept)
            case None => h == outer + HeldBy(kept) && forall c :: c in kept ==> c.origin in h
  {
    KeptAreHeld(kept);
  }

  lemma NothingKept(outer: multiset<Origin>)
    ensures OriginsOf([]) == {} && Whose(None) == {} && outer + HeldBy([]) == outer
    ensures outer + multiset(Whose(None)) == outer && multiset(Whose(None)) == multiset{}
  {}

  // After the first i parents none has the blob, and these are kept and lost.
  ghost predicate Met(kept: seq<Candidate>, lost: multiset<Origin>, board: seq<Piece>, blob: nat,
                      parents: seq<Option<Found>>, i: nat)
  {
    && i <= |parents| && Told(kept) == Kept(parents[..i]) && SameBlob(parents, blob) == SameBlob(parents[i..], blob)
    && Leaks(board, blob, parents) == |lost| + Leaks(board, blob, parents[i..])
  }

  // What becomes of one parent.
  ghost predicate Meets(f: Found, blob: nat, kept: seq<Candidate>, whole: Option<Candidate>, kept': seq<Candidate>) {
    && (if f.blob == blob then whole.Some? && whole.value.Told() == f else whole.None?)
    && Told(kept') ==
       if f.blob == blob then Told(kept) else TellsMore(kept, f)
  }

  ghost function TellsMore(kept: seq<Candidate>, f: Found): seq<Found> {
    if exists x :: x in Told(kept) && x.blob == f.blob then Told(kept) else Told(kept) + [f]
  }

  lemma ToldParts(c: Candidate)
    ensures c.Told() == Found(c.origin.who.commit, c.origin.who.handle, c.origin.who.path, c.how, c.blob, c.hunks)
  {}

  lemma WholeMeets(c: Candidate, blob: nat, kept: seq<Candidate>)
    requires c.blob == blob
    ensures Meets(c.Told(), blob, kept, Some(c), kept)
    ensures Whose(Some(c)) == {c.origin} && multiset(Whose(Some(c))) == multiset{c.origin}
  {}

  lemma KeepMeets(c: Candidate, blob: nat, kept: seq<Candidate>, kept': seq<Candidate>)
    requires c.blob != blob && Told(kept') == TellsMore(kept, c.Told())
    ensures Meets(c.Told(), blob, kept, None, kept')
    ensures kept' == kept + [c] ==> OriginsOf(kept') == OriginsOf(kept) + {c.origin}
  {
    hide TellsMore;
  }

  lemma MetNobody(board: seq<Piece>, blob: nat, parents: seq<Option<Found>>)
    ensures Met([], multiset{}, board, blob, parents, 0)
  {
    assert parents[..0] == [] && parents[0..] == parents;
  }

  lemma MetNone(kept: seq<Candidate>, lost: multiset<Origin>, board: seq<Piece>, blob: nat, parents: seq<Option<Found>>,
                i: nat)
    requires Met(kept, lost, board, blob, parents, i) && i < |parents| && parents[i].None?
    ensures Met(kept, lost, board, blob, parents, i + 1)
  {
    hide Kept, SameBlob, Leaks;
    ParentStep(board, parents, i, blob);
  }

  lemma MetNext(kept: seq<Candidate>, whole: Option<Candidate>, kept': seq<Candidate>, lost: multiset<Origin>,
                more: multiset<Origin>, board: seq<Piece>, blob: nat, parents: seq<Option<Found>>, i: nat)
    requires Met(kept, lost, board, blob, parents, i) && i < |parents| && parents[i].Some?
    requires Meets(parents[i].value, blob, kept, whole, kept') && |more| == LeaksAt(board, parents[i].value)
    ensures if whole.Some? then Chosen(whole, kept', blob, parents) && |lost + more| == Leaks(board, blob, parents)
            else Met(kept', lost + more, board, blob, parents, i + 1)
  {
    hide Kept, SameBlob, Told, Leaks, LeaksAt;
    ParentStep(board, parents, i, blob);
  }

  lemma MetAll(kept: seq<Candidate>, lost: multiset<Origin>, board: seq<Piece>, blob: nat, parents: seq<Option<Found>>)
    requires Met(kept, lost, board, blob, parents, |parents|)
    ensures Chosen(None, kept, blob, parents) && |lost| == Leaks(board, blob, parents)
  {
    assert parents[..|parents|] == parents && parents[|parents|..] == [];
  }

  lemma {:induction false} HeldLast(kept: seq<Candidate>, c: Candidate)
    ensures HeldBy(kept + [c]) == HeldBy(kept) + multiset{c.origin}
  {
    if kept == [] {
      assert [] + [c] == [c] && [c][1..] == [];
    } else {
      assert (kept + [c])[1..] == kept[1..] + [c];
      HeldLast(kept[1..], c);
    }
  }

  lemma HeldMore(outer: multiset<Origin>, kept: seq<Candidate>, c: Candidate)
    ensures outer + HeldBy(kept) + multiset{c.origin} == outer + HeldBy(kept + [c])
    ensures outer + HeldBy(kept) + multiset{c.origin} - multiset{c.origin} == outer + HeldBy(kept)
    ensures c.origin in outer + HeldBy(kept) + multiset{c.origin}
  {
    HeldLast(kept, c);
  }

  lemma HeldFirst(kept: seq<Candidate>, i: nat)
    requires i < |kept|
    ensures HeldBy(kept[i..]) == multiset{kept[i].origin} + HeldBy(kept[i + 1..])
  {
    assert kept[i..][1..] == kept[i + 1..];
  }

  lemma HeldByNone(kept: seq<Candidate>)
    ensures HeldBy(kept[|kept|..]) == multiset{}
  {}

  // The previous origin after pass_blame: the first parent that the origin is compared with, if it
  // had none.
  function After(previous: Origin?, whole: Option<Candidate>, kept: seq<Candidate>): Origin? {
    if previous == null && whole.None? && kept != [] then kept[0].origin else previous
  }

  lemma AfterNone(previous: Origin?, kept: seq<Candidate>)
    ensures After(previous, None, kept[..0]) == previous && kept[..|kept|] == kept
  {}

  lemma AfterNext(previous: Origin?, kept: seq<Candidate>, k: nat)
    requires k < |kept|
    ensures var now := After(previous, None, kept[..k]);
      && After(previous, None, kept[..k + 1]) == (if now == null then kept[k].origin else now)
      && After(previous, None, kept[..k + 1]) == After(previous, None, kept)
  {}
}
