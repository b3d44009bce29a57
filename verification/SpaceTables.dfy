/** The memory manager's index of address ranges and its table of local spaces. */
module SpaceTables {
  import opened Digits
  import opened PolyInts
  import opened SpaceTrees
  import opened SpaceNodes
  import opened SpaceIndex
  import Heap

  /** The addresses from a up to, but not including, e belong to a space. */
  datatype Range = Range(space: SpaceId, a: int, e: int)

  /** The range the source's words start and end stand for; an end of zero is the top of memory. */
  function RangeOf(space: SpaceId, start: nat, end: nat): Range {
    Range(space, start, if end == 0 then Addresses() else end)
  }

  predicate RangeOk(q: Range) {
    0 <= q.a < q.e <= Addresses()
  }

  predicate Contains(q: Range, x: int) {
    q.a <= x < q.e
  }

  class SpaceTable {
    var spaceTree: Tree
    /** The plain map the tree must agree with. */
    ghost var ranges: set<Range>

    ghost predicate Valid()
      reads this
    {
      && WellFormed(spaceTree, WORD) && !spaceTree.Leaf? && NoEmptyBelow(spaceTree)
      && (forall q :: q in ranges ==> RangeOk(q) && Installed(spaceTree, WORD, q.space, q.a, q.e))
      && (forall q, q' :: q in ranges && q' in ranges && q != q' ==> Disjoint(q.a, q.e, q'.a, q'.e))
      && OnlyRanges(spaceTree, ranges)
    }

    constructor ()
      ensures Valid() && ranges == {}
    {
      spaceTree := Node(NewEntries());
      ranges := {};
      new;
      NewTree();
    }

    /** The space whose range contains an address, or none. */
    method Find(t: nat) returns (r: Option<SpaceId>)
      requires Valid() && t < Addresses()
      ensures r.Some? <==> exists q :: q in ranges && Contains(q, t)
      ensures forall q :: q in ranges && Contains(q, t) ==> r == Some(q.space)
    {
      hide WellFormed, Installed, NoEmptyBelow, Lookup;
      r := SpaceForAddress(spaceTree, t);
      forall q | q in ranges && Contains(q, t)
        ensures Lookup(spaceTree, WORD, t) == Some(q.space)
      {
        LookupInstalled(spaceTree, WORD, q.space, q.a, q.e, t);
      }
    }

    /** How many nodes the tree has too few for a range. */
    ghost function Missing(space: SpaceId, start: nat, end: nat): int
      requires WellFormed(spaceTree, WORD)
      reads this
    {
      var q := RangeOf(space, start, end);
      Nodes(Added(spaceTree, WORD, space, q.a, q.e)) - Nodes(spaceTree)
    }

    /**
     Add a range that shares nothing with those present. It is added exactly if there is memory for the
     nodes missing, of which there are fewer than two to a byte of an address; otherwise nothing has changed.
     */
    method AddTree(space: SpaceId, start: nat, end: nat, budget: nat) returns (ok: bool)
      requires Valid() && RangeOk(RangeOf(space, start, end)) && end < Addresses()
      requires forall q :: q in ranges ==> Disjoint(q.a, q.e, start, RangeOf(space, start, end).e)
      modifies this
      ensures Valid() && ranges == if ok then old(ranges) + {RangeOf(space, start, end)} else old(ranges)
      ensures ok <==> budget >= old(Missing(space, start, end))
      ensures 0 <= old(Missing(space, start, end)) < 2 * WORD
    {
      hide WellFormed, Installed, NoEmptyBelow, Lookup, PartlyAdded, Addresses, Free, Nodes, Added;
      ghost var new_ := RangeOf(space, start, end);
      ghost var was := spaceTree;
      RangeFree(spaceTree, ranges, new_);
      WordHolds(space, start, end);
      FewMissing(spaceTree, new_);
      var t, left;
      t, left, ok := AddTreeRange(spaceTree, space, start, end, budget, WORD, new_.a, new_.e);
      spaceTree := t;
      if ok {
        AddedRange(was, ranges, new_);
        ranges := ranges + {new_};
      } else {
        PartlyRemovable(was, t, WORD, space, new_.a, new_.e);
        spaceTree := RemoveTreeRange(spaceTree, space, start, end, WORD, new_.a, new_.e);
        Restored(was, t, WORD, space, new_.a, new_.e);
        NormalKeeps(was, ranges);
      }
    }

    /** Remove a range that is present. */
    method RemoveTree(space: SpaceId, start: nat, end: nat)
      requires Valid() && RangeOf(space, start, end) in ranges && end < Addresses()
      modifies this
      ensures Valid() && ranges == old(ranges) - {RangeOf(space, start, end)}
    {
      hide WellFormed, Installed, NoEmptyBelow, Lookup, Removable, Addresses, Disjoint;
      ghost var q, was := RangeOf(space, start, end), spaceTree;
      WordHolds(space, start, end);
      InstalledRemovable(spaceTree, WORD, space, q.a, q.e);
      spaceTree := RemoveTreeRange(spaceTree, space, start, end, WORD, q.a, q.e);
      RemovedRange(was, ranges, q);
      ranges := ranges - {q};
    }
  }

  lemma FewMissing(t: Tree, q: Range)
    requires WellFormed(t, WORD) && !t.Leaf? && NoEmptyBelow(t) && RangeOk(q) && Free(t, WORD, q.a, q.e)
    ensures 0 <= Nodes(Added(t, WORD, q.space, q.a, q.e)) - Nodes(t) < 2 * WORD
  {
    hide WellFormed, NoEmptyBelow, Free, Nodes, Added, Pow256;
    AddedGrows(t, WORD, q.space, q.a, q.e);
  }

  /** Outside all the ranges nothing is found. */
  ghost predicate OnlyRanges(t: Tree, ranges: set<Range>)
    requires WellFormed(t, WORD)
  {
    forall x: nat :: x < Addresses() && (forall q :: q in ranges ==> !Contains(q, x)) ==> Lookup(t, WORD, x) == None
  }

  ghost predicate Indexed(t: Tree, ranges: set<Range>) {
    && WellFormed(t, WORD) && !t.Leaf? && NoEmptyBelow(t)
    && (forall q :: q in ranges ==> RangeOk(q) && Installed(t, WORD, q.space, q.a, q.e))
    && OnlyRanges(t, ranges)
  }

  lemma NewTree()
    ensures Indexed(Node(NewEntries()), {})
  {
    forall x: nat | x < Addresses()
      ensures Lookup(Node(NewEntries()), WORD, x) == None
    {
      IndexBounds(WORD - 1, x);
    }
  }

  lemma WordHolds(space: SpaceId, start: nat, end: nat)
    requires RangeOk(RangeOf(space, start, end)) && end < Addresses()
    ensures var q := RangeOf(space, start, end); Holds(WORD, q.a, q.e, start, end)
  {
    hide Pow256;
    assert Pow256(0) == 1 by { PowZero(); }
  }

  lemma PowZero()
    ensures Pow256(0) == 1
  {
  }

  /** A range that meets no other is free. */
  lemma RangeFree(t: Tree, ranges: set<Range>, q: Range)
    requires Indexed(t, ranges) && RangeOk(q) && forall p :: p in ranges ==> Disjoint(p.a, p.e, q.a, q.e)
    ensures Free(t, WORD, q.a, q.e)
  {
    hide WellFormed, Installed, NoEmptyBelow, Lookup, Pow256;
  }

  lemma AddedRange(t: Tree, ranges: set<Range>, q: Range)
    requires Indexed(t, ranges) && RangeOk(q) && forall p :: p in ranges ==> Disjoint(p.a, p.e, q.a, q.e)
    requires Free(t, WORD, q.a, q.e)
    ensures Indexed(Added(t, WORD, q.space, q.a, q.e), ranges + {q})
  {
    hide WellFormed, Installed, NoEmpty, Lookup, Pow256, Free, Added;
    var r := Added(t, WORD, q.space, q.a, q.e);
    AddedNoEmpty(t, WORD, q.space, q.a, q.e);
    NoEmptyNormal(r);
    AddedInstalled(t, WORD, q.space, q.a, q.e);
    forall p | p in ranges
      ensures Installed(r, WORD, p.space, p.a, p.e)
    {
      AddedKeeps(t, WORD, p.space, p.a, p.e, q.space, q.a, q.e);
    }
    forall x: nat | x < Addresses() && (forall p :: p in ranges + {q} ==> !Contains(p, x))
      ensures Lookup(r, WORD, x) == None
    {
      assert forall p :: p in ranges ==> p in ranges + {q};
      assert q in ranges + {q};
      LookupAdded(t, WORD, q.space, q.a, q.e, x);
    }
  }

  lemma RemovedRange(t: Tree, ranges: set<Range>, q: Range)
    requires Indexed(t, ranges) && q in ranges && Removable(t, WORD, q.space, q.a, q.e)
    requires forall p, p' :: p in ranges && p' in ranges && p != p' ==> Disjoint(p.a, p.e, p'.a, p'.e)
    ensures Indexed(Removed(t, WORD, q.a, q.e), ranges - {q})
  {
    hide WellFormed, Installed, NoEmpty, Lookup, Pow256, Removed, Removable, Disjoint;
    var r := Removed(t, WORD, q.a, q.e);
    RemovedNoEmpty(t, WORD, q.a, q.e);
    NoEmptyNormal(r);
    RemovedNotLeaf(t, WORD, q.a, q.e);
    forall p | p in ranges - {q}
      ensures Installed(r, WORD, p.space, p.a, p.e)
    {
      assert Disjoint(p.a, p.e, q.a, q.e);
      RemovedKeeps(t, WORD, p.space, p.a, p.e, q.a, q.e);
    }
    forall x: nat | x < Addresses() && (forall p :: p in ranges - {q} ==> !Contains(p, x))
      ensures Lookup(r, WORD, x) == None
    {
      LookupRemoved(t, WORD, q.space, q.a, q.e, x);
      if !Contains(q, x) {
        assert forall p :: p in ranges ==> p in ranges - {q} || p == q;
      }
    }
  }

  lemma RemovedNotLeaf(t: Tree, n: nat, a: int, e: int)
    requires WellFormed(t, n) && !t.Leaf?
    ensures !Removed(t, n, a, e).Leaf?
  {
  }

  /** Giving back an empty first node changes no answer. */
  lemma NormalKeeps(t: Tree, ranges: set<Range>)
    requires Indexed(t, ranges)
    ensures Indexed(Normal(t), ranges)
  {
    hide NoEmpty, Lookup, Pow256;
    if t.Node? && AllNull(t.tree) {
      forall q | q in ranges
        ensures false
      {
        LookupFirst(t, q);
      }
      forall x: nat | x < Addresses()
        ensures Lookup(Null, WORD, x) == None
      {
        NullFindsNothing(WORD, x);
      }
    }
  }

  lemma NullFindsNothing(n: nat, x: nat)
    requires x < Pow256(n)
    ensures Lookup(Null, n, x) == None
  {
  }

  lemma LookupFirst(t: Tree, q: Range)
    requires WellFormed(t, WORD) && t.Node? && AllNull(t.tree) && RangeOk(q)
    ensures !Installed(t, WORD, q.space, q.a, q.e)
  {
    hide Pow256;
    if Installed(t, WORD, q.space, q.a, q.e) {
      LookupInstalled(t, WORD, q.space, q.a, q.e, q.a);
      IndexBounds(WORD - 1, q.a);
    }
  }

  // ---------- The table of local spaces ----------

  /** Immutable spaces come first, then mutable ones, and allocation spaces last. */
  function Rank(space: Heap.Space): nat {
    if space.isAllocation then 2 else if space.isMutable then 1 else 0
  }

  predicate Ordered(table: seq<Heap.Space>) {
    forall i, j :: 0 <= i < j < |table| ==> Rank(table[i]) <= Rank(table[j])
  }

  class LocalTable {
    var lSpaces: seq<Heap.Space>

    predicate Valid()
      reads this
    {
      Ordered(lSpaces) && forall i :: 0 <= i < |lSpaces| ==> (lSpaces[i].isAllocation ==> lSpaces[i].isMutable)
    }

    constructor ()
      ensures Valid() && lSpaces == []
    {
      lSpaces := [];
    }

    /**
     Add a space, with its addresses from start to end, to the index and to the table. It is added exactly if the
     table can grow and there is memory for the nodes missing from the index; otherwise both are as they were.
     */
    method AddLocalSpace(space: Heap.Space, index: SpaceTable, id: SpaceId, start: nat, end: nat, tableGrows: bool, budget: nat)
      returns (ok: bool, ghost at: nat)
      requires Valid() && (space.isAllocation ==> space.isMutable)
      requires index.Valid() && RangeOk(RangeOf(id, start, end)) && end < Addresses()
      requires forall q :: q in index.ranges ==> Disjoint(q.a, q.e, start, RangeOf(id, start, end).e)
      modifies this, index
      ensures Valid() && index.Valid() && at <= |old(lSpaces)|
      ensures index.ranges == if ok then old(index.ranges) + {RangeOf(id, start, end)} else old(index.ranges)
      ensures lSpaces == if ok then old(lSpaces)[..at] + [space] + old(lSpaces)[at..] else old(lSpaces)
      ensures ok ==> forall i :: at <= i < |old(lSpaces)| ==> Rank(space) < Rank(old(lSpaces)[i])
      ensures ok <==> tableGrows && budget >= old(index.Missing(id, start, end))
      ensures 0 <= old(index.Missing(id, start, end)) < 2 * WORD
    {
      FewMissing(index.spaceTree, RangeOf(id, start, end)) by { RangeFree(index.spaceTree, index.ranges, RangeOf(id, start, end)); }
      hide Nodes, Added;
      hide Ordered, Disjoint, RangeOk, Addresses, WellFormed, NoEmptyBelow, Installed, OnlyRanges;
      at := 0;
      if !tableGrows { return false, 0; }
      ok := index.AddTree(id, start, end, budget);
      if !ok { return; }
      at := Enter(space);
    }

    /** Enter a space after those of its kind, moving up those that must come after it. */
    method Enter(space: Heap.Space) returns (ghost at: nat)
      requires Valid() && (space.isAllocation ==> space.isMutable)
      modifies this
      ensures Valid() && at <= |old(lSpaces)|
      ensures lSpaces == old(lSpaces)[..at] + [space] + old(lSpaces)[at..]
      ensures forall i :: at <= i < |old(lSpaces)| ==> Rank(space) < Rank(old(lSpaces)[i])
    {
      hide Ordered, Gap;
      ghost var was := lSpaces;
      var s := |lSpaces|;
      lSpaces := lSpaces + [space];
      GapAtEnd(was, space);
      if !space.isAllocation {
        while s > 0 && (if space.isMutable then lSpaces[s - 1].isAllocation else lSpaces[s - 1].isMutable)
          invariant 0 <= s <= |was| && |lSpaces| == |was| + 1 && Gap(was, lSpaces, s)
          invariant forall i :: s <= i < |was| ==> Rank(space) < Rank(was[i])
        {
          ShiftUp(was, lSpaces, s);
          lSpaces := lSpaces[s := lSpaces[s - 1]];
          s := s - 1;
        }
      }
      BelowGap(was, lSpaces, s);
      FillGap(was, lSpaces, s, space);
      lSpaces := lSpaces[s := space];
      at := s;
      Inserted(was, s, space);
    }
  }

  /** The table with a gap at s: entries below are in place and those above have been moved up. */
  predicate Gap(was: seq<Heap.Space>, table: seq<Heap.Space>, s: nat) {
    && |table| == |was| + 1 && s <= |was|
    && (forall i :: 0 <= i < s ==> table[i] == was[i])
    && (forall i :: s < i < |table| ==> table[i] == was[i - 1])
  }

  lemma GapAtEnd(was: seq<Heap.Space>, space: Heap.Space)
    ensures Gap(was, was + [space], |was|)
  {
  }

  /** Moving the entry below the gap up into it. */
  lemma ShiftUp(was: seq<Heap.Space>, table: seq<Heap.Space>, s: nat)
    requires 0 < s < |table| && Gap(was, table, s)
    ensures table[s - 1] == was[s - 1] && Gap(was, table[s := table[s - 1]], s - 1)
  {
  }

  lemma BelowGap(was: seq<Heap.Space>, table: seq<Heap.Space>, s: nat)
    requires Gap(was, table, s)
    ensures s > 0 ==> table[s - 1] == was[s - 1]
  {
  }

  lemma FillGap(was: seq<Heap.Space>, table: seq<Heap.Space>, s: nat, space: Heap.Space)
    requires s < |table| && Gap(was, table, s)
    ensures table[s := space] == was[..s] + [space] + was[s..]
  {
  }

  /** A space entered where those after it come later and those before it do not. */
  lemma Inserted(was: seq<Heap.Space>, s: nat, space: Heap.Space)
    requires Ordered(was) && s <= |was| && (forall i :: s <= i < |was| ==> Rank(space) < Rank(was[i]))
    requires s > 0 ==> Rank(was[s - 1]) <= Rank(space)
    ensures Ordered(was[..s] + [space] + was[s..])
  {
    hide Rank;
    var table := was[..s] + [space] + was[s..];
    forall i, j | 0 <= i < j < |table|
      ensures Rank(table[i]) <= Rank(table[j])
    {
      assert i < s ==> table[i] == was[i];
      assert i > s ==> table[i] == was[i - 1];
      assert j < s ==> table[j] == was[j];
      assert j > s ==> table[j] == was[j - 1];
    }
  }
}
