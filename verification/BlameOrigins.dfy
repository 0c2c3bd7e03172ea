// The reference counts of blame_git.c. An origin is owned by each entry that names it, by each
// variable that holds it, and by each origin that it is the previous one of.

module BlameOrigins {
  import opened BlameBoard

  // A suspect in memory. Two origins can be for the same suspect.
  class Origin {
    const who: Suspect
    var refcnt: int
    var previous: Origin?

    // make_origin
    constructor (who: Suspect)
      ensures this.who == who && refcnt == 1 && previous == null
    {
      this.who, refcnt, previous := who, 1, null;
    }
  }

  // The live origins whose previous origin is o.
  ghost function Successors(live: set<Origin>, o: Origin): set<Origin>
    reads live`previous
  {
    set p | p in live && p.previous == o
  }

  ghost predicate Closed(live: set<Origin>, owners: multiset<Origin>)
    reads live`previous
  {
    && (forall o :: o in owners ==> o in live)
    && (forall o :: o in live ==> o.previous != null ==> o.previous in live)
  }

  // How often o is owned.
  ghost function Uses(live: set<Origin>, owners: multiset<Origin>, o: Origin): nat
    reads live`previous
  {
    owners[o] + |Successors(live, o)|
  }

  // live are the origins that are not freed; owners are the entries and variables that name one.
  ghost predicate Accounted(live: set<Origin>, owners: multiset<Origin>)
    reads live`previous, live`refcnt
  {
    Closed(live, owners) && forall o :: o in live ==> o.refcnt == Uses(live, owners, o) && o.refcnt > 0
  }

  // origin_incref
  method Incref(o: Origin, ghost live: set<Origin>, ghost owners: multiset<Origin>)
    requires Accounted(live, owners) && o in live
    modifies o`refcnt
    ensures Accounted(live, owners + multiset{o})
  {
    hide Successors;
    o.refcnt := o.refcnt + 1;
  }

  // make_origin: a new origin with the count of the variable that it is given to.
  lemma Joined(o: Origin, live: set<Origin>, owners: multiset<Origin>)
    requires Accounted(live, owners) && o !in live && o.refcnt == 1 && o.previous == null
    ensures Accounted(live + {o}, owners + multiset{o})
  {
    assert Successors(live + {o}, o) == {} && owners[o] == 0;
    assert forall p :: p in live ==> Successors(live + {o}, p) == Successors(live, p);
  }

  lemma OnlyOne(o: Origin)
    requires o.refcnt == 1 && o.previous == null
    ensures Accounted({o}, multiset{o})
  {
    assert Successors({o}, o) == {};
  }

  // What an origin leaves behind when it is freed: its previous origin has one owner more, which
  // is to be taken away.
  ghost function Left(o: Origin): multiset<Origin>
    reads o`previous
  {
    if o.previous == null then multiset{} else multiset{o.previous}
  }

  // origin_decref. The origins that are left in live are those that are still owned; one that is
  // freed gives up its previous origin.
  method Decref(o: Origin, ghost live: set<Origin>, ghost owners: multiset<Origin>) returns (ghost live': set<Origin>)
    requires Accounted(live, owners) && o in owners
    modifies live`refcnt
    ensures live' <= live && Accounted(live', owners - multiset{o})
    ensures forall p :: p in live - live' ==> p.refcnt == 0
    ensures old(o.refcnt) > 1 ==> live' == live
    ensures old(o.refcnt) == 1 ==> o !in live' && (o.previous == null ==> live' == live - {o})
    decreases |live|
  {
    hide Successors, Uses, Closed, Left;
    ghost var rest := owners - multiset{o};
    OneLess(live, owners, o);
    AndBack(rest, o);
    o.refcnt := o.refcnt - 1;
    live' := live;
    if o.refcnt <= 0 {
      live' := live - {o};
      Freed(o, live, rest);
      if o.previous != null {
        live' := Decref(o.previous, live', rest + multiset{o.previous});
      }
    }
  }

  lemma AndBack(rest: multiset<Origin>, o: Origin)
    ensures o.previous == null ==> rest + Left(o) == rest
    ensures o.previous != null ==> rest + multiset{o.previous} - multiset{o.previous} == rest
    ensures o.previous != null ==> Left(o) == multiset{o.previous} && o.previous in rest + multiset{o.previous}
  {}

  lemma OneLess(live: set<Origin>, owners: multiset<Origin>, o: Origin)
    requires Closed(live, owners) && o in owners
    ensures o in live && Closed(live, owners - multiset{o})
    ensures forall p :: p in live ==>
      Uses(live, owners - multiset{o}, p) == Uses(live, owners, p) - if p == o then 1 else 0
  {
    hide Successors;
  }

  lemma OneSuccessorLess(live: set<Origin>, o: Origin, p: Origin)
    requires o in live
    ensures |Successors(live - {o}, p)| == |Successors(live, p)| - if o.previous == p then 1 else 0
  {
    assert Successors(live - {o}, p) == Successors(live, p) - {o};
    assert o in Successors(live, p) <==> o.previous == p;
  }

  lemma NoSuccessors(live: set<Origin>, owners: multiset<Origin>, o: Origin)
    requires Uses(live, owners, o) == 0
    ensures o !in owners && forall p :: p in live ==> p.previous != o
  {
    assert Successors(live, o) == {};
    forall p | p in live ensures p.previous != o {
      assert p !in Successors(live, o);
    }
  }

  // When nobody names an origin it can leave the account.
  lemma Freed(o: Origin, live: set<Origin>, owners: multiset<Origin>)
    requires o in live && o.refcnt == 0 && Closed(live, owners)
    requires forall p :: p in live ==> p.refcnt == Uses(live, owners, p) && (p != o ==> p.refcnt > 0)
    ensures Accounted(live - {o}, owners + Left(o))
  {
    hide Successors;
    NoSuccessors(live, owners, o);
    forall p | p in live - {o} ensures p.refcnt == Uses(live - {o}, owners + Left(o), p) {
      OneSuccessorLess(live, o, p);
    }
  }

  // One owner takes another origin: first the new one gains a count, then the old one loses one.
  method Exchange(gone: Origin, taken: Origin, ghost live: set<Origin>, ghost rest: multiset<Origin>)
    returns (ghost live': set<Origin>)
    requires Accounted(live, rest + multiset{gone}) && taken in live
    modifies live`refcnt
    ensures live' <= live && Accounted(live', rest + multiset{taken})
  {
    hide Accounted;
    Incref(taken, live, rest + multiset{gone});
    Exchanged(rest, gone, taken);
    live' := Decref(gone, live, rest + multiset{gone} + multiset{taken});
  }

  lemma Exchanged(rest: multiset<Origin>, gone: Origin, taken: Origin)
    ensures rest + multiset{gone} + multiset{taken} - multiset{gone} == rest + multiset{taken}
    ensures gone in rest + multiset{gone} + multiset{taken}
  {}

  // An origin gets its previous origin, which gains a count.
  method Precede(o: Origin, p: Origin, ghost live: set<Origin>, ghost owners: multiset<Origin>)
    requires Accounted(live, owners) && o in live && p in live && o.previous == null
    modifies o`previous, p`refcnt
    ensures Accounted(live, owners) && o.previous == p
  {
    p.refcnt := p.refcnt + 1;
    ghost var was := Successors(live, p);
    o.previous := p;
    assert Successors(live, p) == was + {o};
    assert forall q :: q in live && q != p ==> Successors(live, q) == old(Successors(live, q));
  }
}
