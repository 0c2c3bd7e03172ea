// The child lists of cJSON.c: doubly linked, with the first child in the parent.

module JsonList {
  class Node {
    var next: Node?
    var prev: Node?
    var child: Node?

    constructor ()
      ensures next == null && prev == null && child == null
    {
      next, prev, child := null, null, null;
    }
  }

  // The i-th of the kids, or null when there is none.
  function Kid(kids: seq<Node>, i: int): Node? {
    if 0 <= i < |kids| then kids[i] else null
  }

  predicate Distinct(kids: seq<Node>) {
    forall i, j :: 0 <= i < j < |kids| ==> kids[i] != kids[j]
  }

  ghost function Of(kids: seq<Node>): set<Node> {
    set k | k in kids
  }

  // What a list operation may change: where the list of parent starts, and the links between its
  // kids and with item.
  ghost function Owner(parent: Node?, changes: bool): set<Node> {
    if parent != null && changes then {parent} else {}
  }

  ghost function Members(kids: seq<Node>, item: Node?, changes: bool): set<Node> {
    if !changes then {} else Of(kids) + if item == null then {} else {item}
  }

  // The links of kids[i] are to its neighbours.
  ghost predicate Linked(kids: seq<Node>, i: nat)
    requires i < |kids|
    reads {kids[i]}`next, {kids[i]}`prev
  {
    kids[i].next == Kid(kids, i + 1) && kids[i].prev == Kid(kids, i - 1)
  }

  // The children of parent are kids, in that order, and their links say so both ways.
  ghost predicate Children(parent: Node, kids: seq<Node>)
    reads parent`child, Of(kids)`next, Of(kids)`prev
  {
    && parent !in kids && parent.child == Kid(kids, 0) && Distinct(kids)
    && forall i :: 0 <= i < |kids| ==> Linked(kids, i)
  }

  predicate Detached(item: Node)
    reads item`next, item`prev
  {
    item.next == null && item.prev == null
  }

  // cJSON_GetArraySize
  method GetArraySize(parent: Node?, ghost kids: seq<Node>) returns (size: nat)
    requires parent != null ==> Children(parent, kids)
    ensures size == if parent == null then 0 else |kids|
  {
    size := 0;
    if parent == null {
      return;
    }
    var c := parent.child;
    while c != null
      invariant size <= |kids| && c == Kid(kids, size)
      decreases |kids| - size
    {
      assert Linked(kids, size);
      size := size + 1;
      c := c.next;
    }
  }

  // get_array_item
  method GetArrayItem(parent: Node?, which: nat, ghost kids: seq<Node>) returns (item: Node?)
    requires parent != null ==> Children(parent, kids)
    ensures item == if parent == null then null else Kid(kids, which)
  {
    if parent == null {
      return null;
    }
    var index := which;
    item := parent.child;
    while item != null && index > 0
      invariant 0 <= index <= which && item == Kid(kids, which - index)
      decreases index
    {
      assert Linked(kids, which - index);
      index := index - 1;
      item := item.next;
    }
  }

  // suffix_object
  method SuffixObject(prev: Node, item: Node)
    modifies prev`next, item`prev
    ensures prev.next == item && item.prev == prev
  {
    prev.next := item;
    item.prev := prev;
  }

  // add_item_to_array
  method AddItemToArray(parent: Node?, item: Node?, ghost kids: seq<Node>) returns (ok: bool)
    requires parent != null ==> Children(parent, kids)
    requires parent != null && item != null ==> Detached(item) && item != parent && item !in kids
    modifies Owner(parent, item != null)`child
    modifies Members(kids, item, parent != null && item != null)`next
    modifies Members(kids, item, parent != null && item != null)`prev
    ensures ok <==> parent != null && item != null
    ensures ok ==> Children(parent, kids + [item])
  {
    if item == null || parent == null {
      return false;
    }
    var c := parent.child;
    if c == null {
      parent.child := item;
    } else {
      ghost var i := 0;
      assert Linked(kids, 0);
      while c.next != null
        invariant 0 <= i < |kids| && c == kids[i] && Linked(kids, i)
        decreases |kids| - i
      {
        assert i + 1 < |kids| ==> Linked(kids, i + 1);
        c, i := c.next, i + 1;
      }
      SuffixObject(c, item);
    }
    Inserted(kids, |kids|, item);
    ghost var kids' := kids + [item];
    assert kids' == kids[..|kids|] + [item] + kids[|kids|..];
    forall k | 0 <= k < |kids'| ensures Linked(kids', k) {
      if k < |kids| {
        assert old(Linked(kids, k));
      }
    }
    ok := true;
  }

  // cJSON_InsertItemInArray. An index past the end appends.
  method InsertItemInArray(parent: Node?, which: int, item: Node, ghost kids: seq<Node>)
    requires parent != null ==> Children(parent, kids) && Detached(item) && item != parent && item !in kids
    modifies Owner(parent, which >= 0)`child
    modifies Members(kids, item, parent != null && which >= 0)`next
    modifies Members(kids, item, parent != null && which >= 0)`prev
    ensures parent != null && 0 <= which < |kids| ==> Children(parent, kids[..which] + [item] + kids[which..])
    ensures parent != null && |kids| <= which ==> Children(parent, kids + [item])
  {
    if which < 0 {
      return;
    }
    var after := GetArrayItem(parent, which, kids);
    if after == null {
      var _ := AddItemToArray(parent, item, kids);
      return;
    }
    InsertBefore(parent, which, item, after, kids);
  }

  // The part of cJSON_InsertItemInArray that changes the links.
  method InsertBefore(parent: Node, w: nat, item: Node, after: Node, ghost kids: seq<Node>)
    requires Children(parent, kids) && item != parent && item !in kids && w < |kids| && after == kids[w]
    modifies parent`child, Members(kids, item, true)`next, Members(kids, item, true)`prev
    ensures Children(parent, kids[..w] + [item] + kids[w..])
  {
    assert Linked(kids, w) && (w > 0 ==> Linked(kids, w - 1));
    item.next := after;
    item.prev := after.prev;
    after.prev := item;
    if after == parent.child {
      parent.child := item;
    } else {
      item.prev.next := item;
    }
    ghost var kids' := kids[..w] + [item] + kids[w..];
    Inserted(kids, w, item);
    forall k | 0 <= k < |kids'| ensures Linked(kids', k) {
      if k < w {
        assert old(Linked(kids, k));
        assert kids[k].prev == old(kids[k].prev);
        assert k + 1 < w ==> kids[k].next == old(kids[k].next);
      } else if k > w {
        assert old(Linked(kids, k - 1));
        assert kids[k - 1].next == old(kids[k - 1].next);
        assert k > w + 1 ==> kids[k - 1].prev == old(kids[k - 1].prev);
      }
    }
  }

  lemma Inserted(kids: seq<Node>, w: nat, item: Node)
    requires Distinct(kids) && item !in kids && w <= |kids|
    ensures var kids' := kids[..w] + [item] + kids[w..];
            && Distinct(kids') && |kids'| == |kids| + 1
            && forall k :: 0 <= k < |kids'| ==>
              kids'[k] == if k < w then kids[k] else if k == w then item else kids[k - 1]
  {}

  // cJSON_DetachItemViaPointer
  method DetachItemViaPointer(parent: Node?, item: Node?, ghost kids: seq<Node>, ghost i: nat) returns (r: Node?)
    requires parent != null && item != null ==> Children(parent, kids) && i < |kids| && kids[i] == item
    modifies Owner(parent, item != null)`child
    modifies Members(kids, null, parent != null && item != null)`next
    modifies Members(kids, null, parent != null && item != null)`prev
    ensures parent == null || item == null ==> r == null
    ensures parent != null && item != null ==>
      r == item && Detached(item) && Children(parent, kids[..i] + kids[i + 1..])
  {
    if parent == null || item == null {
      return null;
    }
    Unlink(parent, item, kids, i);
    r := item;
  }

  // The part of cJSON_DetachItemViaPointer that changes the links.
  method Unlink(parent: Node, item: Node, ghost kids: seq<Node>, ghost i: nat)
    requires Children(parent, kids) && i < |kids| && kids[i] == item
    modifies parent`child, Of(kids)`next, Of(kids)`prev
    ensures Detached(item) && Children(parent, kids[..i] + kids[i + 1..])
  {
    assert Linked(kids, i);
    if item.prev != null {
      item.prev.next := item.next;
    }
    if item.next != null {
      item.next.prev := item.prev;
    }
    if item == parent.child {
      parent.child := item.next;
    }
    item.prev := null;
    item.next := null;
    ghost var kids' := kids[..i] + kids[i + 1..];
    Removed(kids, i);
    forall k | 0 <= k < |kids'| ensures Linked(kids', k) {
      ghost var j := if k < i then k else k + 1;
      assert old(Linked(kids, j));
      assert j != i - 1 ==> kids[j].next == old(kids[j].next);
      assert j != i + 1 ==> kids[j].prev == old(kids[j].prev);
    }
  }

  lemma Removed(kids: seq<Node>, i: nat)
    requires Distinct(kids) && i < |kids|
    ensures var kids' := kids[..i] + kids[i + 1..];
            && Distinct(kids') && |kids'| == |kids| - 1 && kids[i] !in kids'
            && forall k :: 0 <= k < |kids'| ==> kids'[k] == if k < i then kids[k] else kids[k + 1]
  {}

  // cJSON_DetachItemFromArray
  method DetachItemFromArray(parent: Node?, which: int, ghost kids: seq<Node>) returns (r: Node?)
    requires parent != null ==> Children(parent, kids)
    modifies Owner(parent, which >= 0)`child
    modifies Members(kids, null, parent != null && which >= 0)`next
    modifies Members(kids, null, parent != null && which >= 0)`prev
    ensures r == if parent == null then null else Kid(kids, which)
    ensures parent != null ==>
      Children(parent, if 0 <= which < |kids| then kids[..which] + kids[which + 1..] else kids)
    ensures r != null ==> Detached(r)
  {
    if which < 0 {
      return null;
    }
    var item := GetArrayItem(parent, which, kids);
    r := DetachItemViaPointer(parent, item, kids, which);
  }

  // cJSON_ReplaceItemViaPointer, up to the call that frees the item.
  method ReplaceItemViaPointer(parent: Node?, item: Node?, replacement: Node?, ghost kids: seq<Node>, ghost i: nat)
    returns (ok: bool)
    requires parent != null && item != null && replacement != null ==>
      Children(parent, kids) && i < |kids| && kids[i] == item && replacement != parent
      && (replacement == item || replacement !in kids)
    modifies Owner(parent, item != null && replacement != null)`child
    modifies Members(kids, replacement, parent != null && item != null && replacement != null)`next
    modifies Members(kids, replacement, parent != null && item != null && replacement != null)`prev
    ensures ok <==> parent != null && item != null && replacement != null
    ensures ok ==> Children(parent, kids[i := replacement])
    ensures ok && replacement != item ==> Detached(item)
  {
    if parent == null || replacement == null || item == null {
      return false;
    }
    if replacement == item {
      assert kids[i := replacement] == kids;
      return true;
    }
    Relink(parent, item, replacement, kids, i);
    ok := true;
  }

  // The part of cJSON_ReplaceItemViaPointer that changes the links.
  method Relink(parent: Node, item: Node, replacement: Node, ghost kids: seq<Node>, ghost i: nat)
    requires Children(parent, kids) && i < |kids| && kids[i] == item && replacement != parent && replacement !in kids
    modifies parent`child, Members(kids, replacement, true)`next, Members(kids, replacement, true)`prev
    ensures Detached(item) && Children(parent, kids[i := replacement])
  {
    assert Linked(kids, i);
    replacement.next := item.next;
    replacement.prev := item.prev;
    if replacement.next != null {
      replacement.next.prev := replacement;
    }
    if replacement.prev != null {
      replacement.prev.next := replacement;
    }
    if parent.child == item {
      parent.child := replacement;
    }
    item.next := null;
    item.prev := null;
    ghost var kids' := kids[i := replacement];
    forall k | 0 <= k < |kids| && k != i ensures Linked(kids', k) {
      assert old(Linked(kids, k));
      assert k != i - 1 ==> kids[k].next == old(kids[k].next);
      assert k != i + 1 ==> kids[k].prev == old(kids[k].prev);
    }
  }

  // ----- the levels of a tree

  // Adding below a parent that is itself in a list: the list that holds the parent, the list that
  // grows, and the list below the new item are all as they should be.
  method AddSubtree(grand: Node, parent: Node, item: Node, ghost aunts: seq<Node>, ghost kids: seq<Node>,
                    ghost below: seq<Node>)
    requires Children(grand, aunts) && parent in aunts && Children(parent, kids) && Children(item, below)
    requires Detached(item) && item != parent && item !in kids
    requires Of(aunts) !! Of(kids) && Of(aunts) !! Of(below) && Of(kids) !! Of(below) && item !in aunts
    modifies parent`child, Members(kids, item, true)`next, Members(kids, item, true)`prev
    ensures Children(grand, aunts) && Children(parent, kids + [item]) && Children(item, below)
  {
    var _ := AddItemToArray(parent, item, kids);
  }

  // Replacing a child by one with children of its own, in the same way.
  method ReplaceSubtree(grand: Node, parent: Node, item: Node, replacement: Node, ghost aunts: seq<Node>,
                        ghost kids: seq<Node>, ghost i: nat, ghost below: seq<Node>, ghost below': seq<Node>)
    requires Children(grand, aunts) && parent in aunts && Children(parent, kids) && i < |kids| && kids[i] == item
    requires Children(item, below) && Children(replacement, below')
    requires replacement != parent && replacement !in kids + aunts + below
    requires Of(aunts) !! Of(kids) && Of(aunts) !! Of(below) && Of(kids) !! Of(below) && Of(kids) !! Of(below')
    requires replacement !in below'
    modifies parent`child, Members(kids, replacement, true)`next, Members(kids, replacement, true)`prev
    ensures Children(grand, aunts) && Children(parent, kids[i := replacement])
    ensures Detached(item) && Children(item, below) && Children(replacement, below')
  {
    var _ := ReplaceItemViaPointer(parent, item, replacement, kids, i);
  }
}
