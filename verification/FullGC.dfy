/** The update phase over all areas and roots, and what a whole collection does to the live graph. */
module FullGC {
  import opened Heap
  import opened Counting
  import opened Bitmaps
  import opened LocalSpaces
  import opened UpdatePhase
  import opened UpdateRegions
  import opened CopySteps
  import CopyPhase
  import CopyResults

  /** The state the copy phase leaves, as the update phase needs it. */
  ghost predicate Compacted(spaces: seq<Space>, g: Shape, bits: set<nat>, upper: seq<nat>, mem: seq<Word>) {
    && SpacesOk(spaces, |mem|) && |upper| == |spaces|
    && ShapeOk(spaces, g) && BitsOk(bits, g) && HeadersOk(mem, g) && FieldsOk(spaces, g, mem)
    && (forall a :: a in g ==> (g[a].final == a ==> upper[g[a].space] < a))
    && (forall k :: 0 <= k < |spaces| ==> Between(g, k, upper[k]))
  }

  /** The objects of the first n spaces that are in their final places. */
  ghost function FinalsIn(g: Shape, n: nat): (finals: set<nat>)
    ensures finals <= g.Keys
  {
    set a | a in g && g[a].space < n && g[a].final == a
  }

  /** A word in none of the first n spaces. */
  predicate OutsideFirst(spaces: seq<Space>, n: nat, w: int) {
    forall k :: 0 <= k < n && k < |spaces| ==> !(spaces[k].bottom <= w < spaces[k].top)
  }

  /** Every retained object of the first n spaces has had its fields renamed; nothing else has changed. */
  ghost predicate SpacesUpdated(spaces: seq<Space>, g: Shape, before: seq<Word>, after: seq<Word>, n: nat) {
    && |after| == |before|
    && (forall a :: a in g && g[a].space < n && g[a].final == a ==>
          0 < a && a + g[a].size <= |before| && UpdatedTo(g, before, after, a, a + g[a].size))
    && (forall w :: 0 <= w < |after| && OutsideFirst(spaces, n, w) ==> after[w] == before[w])
  }

  /** A renamed field holds the address of an object again. */
  lemma RenamedFieldOk(spaces: seq<Space>, g: Shape, mem: seq<Word>, v: Word)
    requires FieldOk(spaces, g, mem, v) && HeadersOk(mem, g)
    ensures FieldOk(spaces, g, mem, Renamed(g, v))
  {
    if v.Pointer? && v.addr in g {
      assert FinalOk(g, v.addr);
    }
  }

  lemma FieldsKept(spaces: seq<Space>, g: Shape, bits: set<nat>, upper: seq<nat>, before: seq<Word>, after: seq<Word>,
                   k: nat, updated: nat)
    requires Compacted(spaces, g, bits, upper, before) && k < |spaces|
    requires AtBoundary(spaces, g, bits, before, after, k, upper[k], spaces[k].top, updated)
    ensures FieldsOk(spaces, g, after)
  {
    hide BitsOk, HeadersOk, Permanent, Renamed, RetainedIn;
    forall a, w: nat | a in g && 0 < a <= w < a + g[a].size <= |after| && IsFields(g, after, a)
      ensures FieldOk(spaces, g, after, after[w])
    {
      ObjectInSpace(spaces, g, a);
      SameFields(spaces, g, bits, before, after, k, upper[k], updated, a, w);
      FieldStillOk(spaces, g, before, after, k, before[w]);
      RenamedFieldOk(spaces, g, after, before[w]);
    }
  }

  lemma SameFields(spaces: seq<Space>, g: Shape, bits: set<nat>, before: seq<Word>, after: seq<Word>,
                   k: nat, lo: nat, updated: nat, a: nat, w: nat)
    requires k < |spaces| && SpacesOk(spaces, |before|)
    requires AtBoundary(spaces, g, bits, before, after, k, lo, spaces[k].top, updated)
    requires a in g && InSpace(spaces, a, g[a]) && a <= w < a + g[a].size <= |before|
    requires g[a].space == k ==> lo < a
    requires IsFields(g, after, a)
    ensures IsFields(g, before, a)
    ensures after[w] == if g[a].space == k then Renamed(g, before[w]) else before[w]
  {
    hide HeadersOk, Renamed, RetainedIn;
    if g[a].space == k {
      assert a in ObjectsIn(g, k, lo, spaces[k].top);
    }
  }

  /** An object is outside every other space. */
  lemma OutsideOthers(spaces: seq<Space>, words: nat, g: Shape, a: nat, k: nat, w: nat)
    requires SpacesOk(spaces, words) && a in g && InSpace(spaces, a, g[a]) && k < |spaces| && k <= g[a].space
    requires a - 1 <= w < a + g[a].size
    ensures OutsideFirst(spaces, k, w)
  {
  }

  lemma ObjectUpdated(spaces: seq<Space>, g: Shape, bits: set<nat>, start: seq<Word>, before: seq<Word>,
                      after: seq<Word>, k: nat, lo: nat, updated: nat, a: nat)
    requires SpacesOk(spaces, |before|) && k < |spaces| && SpacesUpdated(spaces, g, start, before, k)
    requires AtBoundary(spaces, g, bits, before, after, k, lo, spaces[k].top, updated)
    requires a in g && InSpace(spaces, a, g[a]) && g[a].space <= k && g[a].final == a && (g[a].space == k ==> lo < a)
    ensures 0 < a && a + g[a].size <= |start| == |after| && UpdatedTo(g, start, after, a, a + g[a].size)
  {
    hide HeadersOk, Renamed, RetainedIn, IsFields;
    if g[a].space == k {
      assert a in ObjectsIn(g, k, lo, spaces[k].top);
      assert UpdatedTo(g, before, after, a, a + g[a].size);
      SameStart(spaces, g, start, before, k, a);
      SameUpdate(g, start, before, after, a);
    } else {
      SameRest(spaces, g, start, before, after, k, a);
    }
  }

  lemma SameStart(spaces: seq<Space>, g: Shape, start: seq<Word>, before: seq<Word>, k: nat, a: nat)
    requires SpacesOk(spaces, |before|) && k < |spaces| && SpacesUpdated(spaces, g, start, before, k)
    requires a in g && InSpace(spaces, a, g[a]) && g[a].space == k
    ensures forall w :: a - 1 <= w < a + g[a].size ==> before[w] == start[w]
  {
    hide UpdatedTo, OutsideFirst;
    forall w | a - 1 <= w < a + g[a].size
      ensures before[w] == start[w]
    {
      OutsideOthers(spaces, |before|, g, a, k, w);
    }
  }

  lemma SameUpdate(g: Shape, start: seq<Word>, before: seq<Word>, after: seq<Word>, a: nat)
    requires a in g && 0 < a && a + g[a].size <= |before| == |start| == |after|
    requires forall w :: a - 1 <= w < a + g[a].size ==> before[w] == start[w]
    requires UpdatedTo(g, before, after, a, a + g[a].size)
    ensures UpdatedTo(g, start, after, a, a + g[a].size)
  {
  }

  lemma SameRest(spaces: seq<Space>, g: Shape, start: seq<Word>, before: seq<Word>, after: seq<Word>, k: nat, a: nat)
    requires SpacesOk(spaces, |before|) && k < |spaces| && SpacesUpdated(spaces, g, start, before, k)
    requires SameOutside(spaces, before, after, k)
    requires a in g && InSpace(spaces, a, g[a]) && g[a].space < k && g[a].final == a
    ensures a + g[a].size <= |start| == |after| && UpdatedTo(g, start, after, a, a + g[a].size)
  {
    hide Renamed, IsFields;
    assert UpdatedTo(g, start, before, a, a + g[a].size);
    assert spaces[g[a].space].top <= spaces[k].bottom || spaces[k].top <= spaces[g[a].space].bottom;
  }

  /** Updating one more space. */
  lemma SpaceUpdated(spaces: seq<Space>, g: Shape, bits: set<nat>, upper: seq<nat>, start: seq<Word>, before: seq<Word>,
                     after: seq<Word>, k: nat, updated: nat)
    requires Compacted(spaces, g, bits, upper, before) && k < |spaces| && |start| == |before|
    requires SpacesUpdated(spaces, g, start, before, k)
    requires AtBoundary(spaces, g, bits, before, after, k, upper[k], spaces[k].top, updated)
    ensures SpacesUpdated(spaces, g, start, after, k + 1)
  {
    hide BitsOk, HeadersOk, FieldsOk, UpdatedTo, RetainedIn, ScannedTo, ShapeOk;
    forall a | a in g && g[a].space < k + 1 && g[a].final == a
      ensures 0 < a && a + g[a].size <= |start| && UpdatedTo(g, start, after, a, a + g[a].size)
    {
      ObjectInSpace(spaces, g, a);
      ObjectUpdated(spaces, g, bits, start, before, after, k, upper[k], updated, a);
    }
    forall w | 0 <= w < |after| && OutsideFirst(spaces, k + 1, w)
      ensures after[w] == start[w]
    {
      assert OutsideFirst(spaces, k, w);
    }
  }

  lemma CountSpace(spaces: seq<Space>, g: Shape, bits: set<nat>, upper: seq<nat>, before: seq<Word>, after: seq<Word>,
                   k: nat, updated: nat)
    requires Compacted(spaces, g, bits, upper, before) && k < |spaces|
    requires AtBoundary(spaces, g, bits, before, after, k, upper[k], spaces[k].top, updated)
    ensures Total(g, FinalsIn(g, k + 1)) == Total(g, FinalsIn(g, k)) + updated
  {
    hide HeadersOk, FieldsOk, BitsOk, ShapeOk, ScannedTo, SameOutside, Between;
    var r := RetainedIn(g, k, upper[k], spaces[k].top);
    forall a | a in g && g[a].space == k && g[a].final == a
      ensures a in r
    {
      ObjectInSpace(spaces, g, a);
    }
    assert FinalsIn(g, k + 1) == FinalsIn(g, k) + r;
    TotalUnion(g, FinalsIn(g, k), r);
  }

  function Sum(s: seq<nat>): nat {
    if s == [] then 0 else Sum(s[..|s| - 1]) + s[|s| - 1]
  }

  /** Update the areas one after another; none writes in another's space, and none changes a header. */
  method UpdateAreas(mem: array<Word>, areas: seq<LocalMemSpace>,
                     ghost spaces: seq<Space>, ghost g: Shape, ghost bits: set<nat>, ghost upper: seq<nat>)
    returns (updated: seq<nat>)
    requires Compacted(spaces, g, bits, upper, mem[..]) && |areas| == |spaces|
    requires forall k :: 0 <= k < |areas| ==> AreaOk(areas[k], spaces, bits, upper[k], k)
    requires forall k :: 0 <= k < |areas| ==> mem as object != areas[k].bitmap.m_bits as object
    modifies mem
    ensures SpacesUpdated(spaces, g, old(mem[..]), mem[..], |spaces|)
    ensures HeadersOk(mem[..], g) && FieldsOk(spaces, g, mem[..])
    ensures |updated| == |areas| && Sum(updated) == Total(g, FinalsIn(g, |spaces|))
  {
    hide AtBoundary, SpacesUpdated, HeadersOk, FieldsOk, BitsOk, ShapeOk, Total, FinalsIn;
    updated := [];
    ghost var start := mem[..];
    assert FinalsIn(g, 0) == {} && Total(g, {}) == 0 by {
      NoFinals(g);
    }
    NothingUpdated(spaces, g, start);
    var j := 0;
    while j < |areas|
      invariant 0 <= j == |updated| <= |areas|
      invariant Compacted(spaces, g, bits, upper, mem[..])
      invariant SpacesUpdated(spaces, g, start, mem[..], j)
      invariant Sum(updated) == Total(g, FinalsIn(g, j))
    {
      ghost var before := mem[..];
      assert AreaOk(areas[j], spaces, bits, upper[j], j);
      var count := UpdateObjectsInArea(mem, areas[j], spaces, g, bits, j);
      assert |mem[..]| == |before|;
      FieldsKept(spaces, g, bits, upper, before, mem[..], j, count);
      SpaceUpdated(spaces, g, bits, upper, start, before, mem[..], j, count);
      CountSpace(spaces, g, bits, upper, before, mem[..], j, count);
      HeadersStill(spaces, g, bits, before, mem[..], j, upper[j], count);
      assert (updated + [count])[..|updated|] == updated;
      updated := updated + [count];
      j := j + 1;
    }
  }

  lemma HeadersStill(spaces: seq<Space>, g: Shape, bits: set<nat>, before: seq<Word>, after: seq<Word>, k: nat, lo: nat, updated: nat)
    requires k < |spaces| && AtBoundary(spaces, g, bits, before, after, k, lo, spaces[k].top, updated)
    ensures HeadersOk(after, g)
  {
  }

  lemma NoFinals(g: Shape)
    ensures FinalsIn(g, 0) == {} && Total(g, {}) == 0
  {
  }

  lemma NothingUpdated(spaces: seq<Space>, g: Shape, mem: seq<Word>)
    ensures SpacesUpdated(spaces, g, mem, mem, 0)
  {
  }

  /** Addresses kept by the run-time system itself are renamed. */
  method UpdateRoots(mem: array<Word>, roots: array<Word>, ghost spaces: seq<Space>, ghost g: Shape)
    requires HeadersOk(mem[..], g) && roots as object != mem as object
    requires forall i :: 0 <= i < roots.Length ==> FieldOk(spaces, g, mem[..], roots[i])
    modifies roots
    ensures forall i :: 0 <= i < roots.Length ==> roots[i] == Renamed(g, old(roots[i]))
    ensures mem[..] == old(mem[..])
  {
    hide FieldOk, HeadersOk, Renamed;
    ghost var all := mem[..];
    var i := 0;
    while i < roots.Length
      invariant 0 <= i <= roots.Length && mem[..] == all
      invariant forall j :: 0 <= j < i ==> roots[j] == Renamed(g, old(roots[j]))
      invariant forall j :: i <= j < roots.Length ==> roots[j] == old(roots[j])
    {
      roots[i] := ScanAddress(mem, roots[i], spaces, g);
      i := i + 1;
    }
  }

  // ---------- A whole collection ----------

  /** What marking guarantees: the fields of a marked object lead only to marked or permanent objects. */
  predicate RootOk(spaces: seq<Space>, mem0: seq<Word>, marked: set<nat>, v: Word) {
    v.Tagged? || v == Zero || (v.Pointer? && (v.addr in marked || Permanent(spaces, mem0, v.addr)))
  }

  ghost predicate Closed(spaces: seq<Space>, mem0: seq<Word>, marked: set<nat>) {
    forall o, w: nat :: o in marked && 0 < o <= w < |mem0| && IsFieldOf(mem0, o, w) ==> RootOk(spaces, mem0, marked, mem0[w])
  }

  /** Word w is a field of the object at o. */
  predicate IsFieldOf(mem: seq<Word>, o: nat, w: nat) {
    0 < o <= |mem| && mem[o - 1].Length? && !mem[o - 1].isByte && o <= w < o + mem[o - 1].length
  }

  /** An address, renamed. */
  function RenamedBy(finals: map<nat, nat>, v: Word): Word {
    if v.Pointer? && v.addr in finals then Pointer(finals[v.addr]) else v
  }

  /** The object that was at o is at finals[o] with the same length word, its fields renamed and its bytes unchanged. */
  ghost predicate ObjectPreserved(mem0: seq<Word>, o: nat, mem: seq<Word>, finals: map<nat, nat>)
    requires o in finals
  {
    && 0 < o <= |mem0| && 0 < finals[o] <= |mem| && mem0[o - 1].Length? && mem[finals[o] - 1] == mem0[o - 1]
    && o + mem0[o - 1].length <= |mem0| && finals[o] + mem0[o - 1].length <= |mem|
    && forall w :: finals[o] <= w < finals[o] + mem0[o - 1].length ==>
         mem[w] == if mem0[o - 1].isByte then mem0[o + (w - finals[o])] else RenamedBy(finals, mem0[o + (w - finals[o])])
  }

  /** The live graph is the same up to renaming, and no two objects share a word. */
  ghost predicate GraphPreserved(mem0: seq<Word>, marked: set<nat>, mem: seq<Word>, finals: map<nat, nat>) {
    && finals.Keys == marked
    && (forall o :: o in marked ==> ObjectPreserved(mem0, o, mem, finals))
    && (forall o, o' :: o in marked && o' in marked && o != o' ==>
          finals[o] + mem0[o - 1].length <= finals[o'] - 1 || finals[o'] + mem0[o' - 1].length <= finals[o] - 1)
  }

  /** Where each marked object is in the end. */
  function Finals(g: Shape, marked: set<nat>): map<nat, nat>
    requires marked <= g.Keys
  {
    map o | o in marked :: g[o].final
  }

  lemma ObjectsOutside(spaces: seq<Space>, g: Shape, p: nat)
    requires ShapeOk(spaces, g) && 0 < p && Outside(spaces, p - 1)
    ensures p !in g
  {
    assert p in g ==> InSpace(spaces, p, g[p]);
  }

  /** A marked object's final place, and what is there after the copy phase. */
  ghost predicate Placed(mem0: seq<Word>, mem: seq<Word>, g: Shape, o: nat) {
    && o in g && g[o].final in g && g[g[o].final].final == g[o].final && g[g[o].final].size == g[o].size
    && SameObject(mem0, o, mem, g[o].final, g[o].size)
    && mem0[o - 1].Length? && mem0[o - 1].length == g[o].size
  }

  lemma MarkedIsPlaced(mem0: seq<Word>, marked: set<nat>, mem: seq<Word>, g: Shape, o: nat)
    requires HeadersOk(mem, g) && ContentsOk(mem0, marked, mem, g) && o in marked
    ensures Placed(mem0, mem, g, o)
  {
    assert SameObject(mem0, o, mem, g[o].final, g[o].size);
    assert FinalOk(g, o) && HeaderOk(g, g[o].final, mem[g[o].final - 1]);
  }

  lemma AllPlaced(c: Config, mem0: seq<Word>, marked: set<nat>, mem: seq<Word>, bits: set<nat>, g: Shape)
    requires HeapOk(c, mem0, marked, mem, bits, g)
    ensures forall o :: o in marked ==> Placed(mem0, mem, g, o)
  {
    hide BitsOk, ShapeOk, MutablesOk, OutsideKept, OnlyMarked, Placed, HeadersOk, SameObject;
    forall o | o in marked
      ensures Placed(mem0, mem, g, o)
    {
      MarkedIsPlaced(mem0, marked, mem, g, o);
    }
  }

  /** A root is a field that may be updated, and updating it renames it. */
  lemma RootIsField(c: Config, mem0: seq<Word>, marked: set<nat>, mem: seq<Word>, g: Shape, v: Word)
    requires RootOk(c.spaces, mem0, marked, v) && ShapeOk(c.spaces, g) && OutsideKept(c.spaces, mem0, mem)
    requires marked <= g.Keys
    ensures FieldOk(c.spaces, g, mem, v) && Renamed(g, v) == RenamedBy(Finals(g, marked), v)
  {
    if v.Pointer? && v.addr !in marked {
      ObjectsOutside(c.spaces, g, v.addr);
    }
  }

  lemma CopiedField(c: Config, mem0: seq<Word>, marked: set<nat>, mem: seq<Word>, g: Shape, o: nat, w: nat)
    requires Placed(mem0, mem, g, o) && o in marked && marked <= g.Keys
    requires g[o].final <= w < g[o].final + g[o].size && IsFields(g, mem, g[o].final)
    requires ShapeOk(c.spaces, g) && OutsideKept(c.spaces, mem0, mem) && Closed(c.spaces, mem0, marked)
    ensures FieldOk(c.spaces, g, mem, mem[w])
    ensures Renamed(g, mem[w]) == RenamedBy(Finals(g, marked), mem0[o + (w - g[o].final)])
  {
    hide ShapeOk, OutsideKept, RootOk, FieldOk, Renamed, RenamedBy, Finals;
    var w0: nat := o + (w - g[o].final);
    assert mem[w] == mem0[w0] && IsFieldOf(mem0, o, w0);
    RootIsField(c, mem0, marked, mem, g, mem0[w0]);
  }

  lemma CopiedFields(c: Config, mem0: seq<Word>, marked: set<nat>, mem: seq<Word>, bits: set<nat>, g: Shape)
    requires HeapOk(c, mem0, marked, mem, bits, g) && Closed(c.spaces, mem0, marked)
    ensures FieldsOk(c.spaces, g, mem)
  {
    AllPlaced(c, mem0, marked, mem, bits, g);
    hide Closed, BitsOk, HeadersOk, ContentsOk, OutsideKept, MutablesOk, ShapeOk, FieldOk, SameObject;
    forall a, w: nat | a in g && 0 < a <= w < a + g[a].size <= |mem| && IsFields(g, mem, a)
      ensures FieldOk(c.spaces, g, mem, mem[w])
    {
      var o :| o in marked && o in g && g[o].final == a;
      assert Placed(mem0, mem, g, o);
      CopiedField(c, mem0, marked, mem, g, o, w);
    }
  }

  lemma CompactedAfterCopy(c: Config, mem0: seq<Word>, marked: set<nat>, s: State, g: Shape)
    requires Inv(c, mem0, marked, s, g) && CopyResults.Retained(c, s, g) && Closed(c.spaces, mem0, marked)
    ensures Compacted(c.spaces, g, s.bits, s.upper, s.mem)
  {
    hide HeaderOk, FinalOk, Outside, FieldOk, RootOk, IsFieldOf, MutablesOk, ContentsOk, OnlyMarked, PositionsOk, WorkersOk;
    CopiedFields(c, mem0, marked, s.mem, s.bits, g);
    forall k | 0 <= k < |c.spaces|
      ensures Between(g, k, s.upper[k])
    {
      assert Boundary(c, g, k, s.upper[k]);
      forall a | a in g && g[a].space == k
        ensures a + g[a].size <= s.upper[k] || s.upper[k] < a
      {
        assert InSpace(c.spaces, a, g[a]);
        assert s.upper[k] + 1 in g && a != s.upper[k] + 1 ==>
            !Overlaps(a, g[a].size, s.upper[k] + 1 - 1, g[s.upper[k] + 1].size + 1);
      }
    }
  }

  lemma PreservedObject(c: Config, mem0: seq<Word>, marked: set<nat>, mem1: seq<Word>, g: Shape, mem: seq<Word>, o: nat)
    requires Placed(mem0, mem1, g, o) && o in marked && marked <= g.Keys
    requires ShapeOk(c.spaces, g) && OutsideKept(c.spaces, mem0, mem1) && Closed(c.spaces, mem0, marked)
    requires g[o].final + g[o].size <= |mem1| == |mem| && UpdatedTo(g, mem1, mem, g[o].final, g[o].final + g[o].size)
    ensures ObjectPreserved(mem0, o, mem, Finals(g, marked))
  {
    hide ShapeOk, OutsideKept, Closed, Renamed, RenamedBy, FieldOk;
    var f := g[o].final;
    assert mem[f - 1] == mem0[o - 1];
    assert IsFields(g, mem1, f) == !mem0[o - 1].isByte;
    forall w: nat | f <= w < f + g[o].size
      ensures mem[w] == if mem0[o - 1].isByte then mem0[o + (w - f)] else RenamedBy(Finals(g, marked), mem0[o + (w - f)])
    {
      assert mem1[w] == mem0[o + (w - f)];
      if !mem0[o - 1].isByte {
        CopiedField(c, mem0, marked, mem1, g, o, w);
      }
    }
  }

  /** Final places do not overlap. */
  lemma FinalsApart(spaces: seq<Space>, g: Shape, mem0: seq<Word>, mem: seq<Word>, o: nat, o': nat)
    requires ShapeOk(spaces, g) && Placed(mem0, mem, g, o) && Placed(mem0, mem, g, o') && g[o].final != g[o'].final
    ensures g[o].final + g[o].size <= g[o'].final - 1 || g[o'].final + g[o'].size <= g[o].final - 1
  {
    var f, f' := g[o].final, g[o'].final;
    assert !Overlaps(f, g[f].size, f' - 1, g[f'].size + 1);
  }

  lemma UpdatedObject(spaces: seq<Space>, g: Shape, mem0: seq<Word>, mem1: seq<Word>, mem: seq<Word>, o: nat)
    requires ShapeOk(spaces, g) && Placed(mem0, mem1, g, o) && SpacesUpdated(spaces, g, mem1, mem, |spaces|)
    ensures g[o].final > 0 && g[o].final + g[o].size <= |mem1| == |mem|
    ensures UpdatedTo(g, mem1, mem, g[o].final, g[o].final + g[o].size)
  {
    hide UpdatedTo, SameObject;
    ObjectInSpace(spaces, g, g[o].final);
  }

  lemma AllApart(spaces: seq<Space>, g: Shape, mem0: seq<Word>, marked: set<nat>, mem: seq<Word>)
    requires ShapeOk(spaces, g) && marked <= g.Keys && forall o :: o in marked ==> Placed(mem0, mem, g, o)
    requires forall o, o' :: o in marked && o' in marked && o != o' ==> g[o].final != g[o'].final
    ensures forall o, o' :: o in marked && o' in marked && o != o' ==>
      g[o].final + g[o].size <= g[o'].final - 1 || g[o'].final + g[o'].size <= g[o].final - 1
  {
    hide ShapeOk, SameObject;
    forall o, o' | o in marked && o' in marked && o != o'
      ensures g[o].final + g[o].size <= g[o'].final - 1 || g[o'].final + g[o'].size <= g[o].final - 1
    {
      FinalsApart(spaces, g, mem0, mem, o, o');
    }
  }

  lemma AllPreserved(c: Config, mem0: seq<Word>, marked: set<nat>, mem1: seq<Word>, g: Shape, mem: seq<Word>)
    requires marked <= g.Keys && forall o :: o in marked ==> Placed(mem0, mem1, g, o)
    requires ShapeOk(c.spaces, g) && OutsideKept(c.spaces, mem0, mem1) && Closed(c.spaces, mem0, marked)
    requires SpacesUpdated(c.spaces, g, mem1, mem, |c.spaces|)
    ensures forall o :: o in marked ==> ObjectPreserved(mem0, o, mem, Finals(g, marked))
  {
    hide OutsideKept, ShapeOk, Closed, SpacesUpdated, Placed, ObjectPreserved;
    forall o | o in marked
      ensures ObjectPreserved(mem0, o, mem, Finals(g, marked))
    {
      assert o in g && g[o].final in g by { PlacedIn(mem0, mem1, g, o); }
      UpdatedObject(c.spaces, g, mem0, mem1, mem, o);
      PreservedObject(c, mem0, marked, mem1, g, mem, o);
    }
  }

  lemma PlacedIn(mem0: seq<Word>, mem: seq<Word>, g: Shape, o: nat)
    requires Placed(mem0, mem, g, o)
    ensures o in g && g[o].final in g
  {
  }

  lemma Assembled(mem0: seq<Word>, marked: set<nat>, mem1: seq<Word>, g: Shape, mem: seq<Word>)
    requires marked <= g.Keys && forall o :: o in marked ==> Placed(mem0, mem1, g, o)
    requires forall o :: o in marked ==> ObjectPreserved(mem0, o, mem, Finals(g, marked))
    requires forall o, o' :: o in marked && o' in marked && o != o' ==>
      g[o].final + g[o].size <= g[o'].final - 1 || g[o'].final + g[o'].size <= g[o].final - 1
    ensures GraphPreserved(mem0, marked, mem, Finals(g, marked))
  {
    hide ObjectPreserved, SameObject;
  }

  lemma GraphAfterUpdate(c: Config, mem0: seq<Word>, marked: set<nat>, mem1: seq<Word>, bits: set<nat>, g: Shape, mem: seq<Word>)
    requires HeapOk(c, mem0, marked, mem1, bits, g) && Closed(c.spaces, mem0, marked)
    requires SpacesUpdated(c.spaces, g, mem1, mem, |c.spaces|)
    ensures marked <= g.Keys && GraphPreserved(mem0, marked, mem, Finals(g, marked))
  {
    hide ShapeOk, BitsOk, HeadersOk, MutablesOk, OutsideKept, OnlyMarked, Closed, SpacesUpdated, SameObject, ObjectPreserved;
    hide GraphPreserved, Placed;
    AllPlaced(c, mem0, marked, mem1, bits, g);
    AllPreserved(c, mem0, marked, mem1, g, mem);
    AllApart(c.spaces, g, mem0, marked, mem1);
    Assembled(mem0, marked, mem1, g, mem);
  }

  lemma SameSizes(mem0: seq<Word>, marked: set<nat>, mem1: seq<Word>, g: Shape, g0: Shape)
    requires forall o :: o in marked ==> Placed(mem0, mem1, g, o)
    requires HeadersOk(mem0, g0) && g0.Keys == marked && forall a :: a in g0 ==> g0[a].final == a
    ensures marked <= g.Keys && forall o :: o in marked ==> g[o].size == g0[o].size
  {
    forall o | o in marked
      ensures o in g && g[o].size == g0[o].size
    {
      assert HeaderOk(g0, o, mem0[o - 1]);
    }
  }

  /** Words counted by the update scan are the words that were marked. */
  lemma WordsConserved(c: Config, mem0: seq<Word>, marked: set<nat>, mem1: seq<Word>, bits: set<nat>, g: Shape, g0: Shape)
    requires HeapOk(c, mem0, marked, mem1, bits, g) && HeadersOk(mem0, g0) && g0.Keys == marked
    requires forall a :: a in g0 ==> g0[a].final == a
    ensures Total(g, FinalsIn(g, |c.spaces|)) == Total(g0, marked)
  {
    AllPlaced(c, mem0, marked, mem1, bits, g);
    hide BitsOk, MutablesOk, OutsideKept, HeadersOk, SameObject, Overlaps, Total;
    SameSizes(mem0, marked, mem1, g, g0);
    forall a | a in g
      ensures g[a].space < |c.spaces|
    {
      assert InSpace(c.spaces, a, g[a]);
    }
    hide ShapeOk;
    TotalMoved(g, marked, FinalsIn(g, |c.spaces|));
    SameTotal(g, g0, marked);
  }

  lemma {:induction false} SameTotal(g: Shape, g0: Shape, s: set<nat>)
    requires s <= g.Keys && s <= g0.Keys && forall o :: o in s ==> g[o].size == g0[o].size
    ensures Total(g, s) == Total(g0, s)
    decreases |s|
  {
    if s != {} {
      var a :| a in s;
      TotalWithout(g, s, a);
      TotalWithout(g0, s, a);
      SameTotal(g, g0, s - {a});
    }
  }

  /** Areas of permanent mutable objects, end to end, whose fields lead only to marked or permanent objects. */
  ghost predicate PermanentsOk(spaces: seq<Space>, mem0: seq<Word>, marked: set<nat>, regions: seq<Region>) {
    && AllFilled(mem0, regions) && RegionsApart(regions) && RegionsOutside(spaces, regions)
    && forall w :: w in AllFields(mem0, regions) ==> w < |mem0| && RootOk(spaces, mem0, marked, mem0[w])
  }

  /** Outside the local spaces exactly the words of s have been renamed. */
  ghost predicate OutsideRenamed(spaces: seq<Space>, mem0: seq<Word>, mem: seq<Word>, s: set<nat>, finals: map<nat, nat>) {
    && |mem| == |mem0|
    && forall w :: 0 <= w < |mem| && Outside(spaces, w) ==> mem[w] == if w in s then RenamedBy(finals, mem0[w]) else mem0[w]
  }

  /** The fields of permanent objects may be updated once the local areas have been. */
  lemma PermanentFields(c: Config, mem0: seq<Word>, marked: set<nat>, mem: seq<Word>, g: Shape, regions: seq<Region>)
    requires PermanentsOk(c.spaces, mem0, marked, regions) && ShapeOk(c.spaces, g) && OutsideKept(c.spaces, mem0, mem)
    requires marked <= g.Keys
    ensures AllFilled(mem, regions) && RegionsApart(regions) && AllFields(mem, regions) == AllFields(mem0, regions)
    ensures FieldWords(c.spaces, g, mem, AllFields(mem, regions))
    ensures forall w :: w in AllFields(mem, regions) ==>
      w < |mem| == |mem0| && mem[w] == mem0[w] && Renamed(g, mem[w]) == RenamedBy(Finals(g, marked), mem0[w])
  {
    hide ShapeOk, RootOk, Outside, FieldOk, Renamed, RenamedBy, Finals, Filled, AllFields, RegionFields;
    SameRegions(c.spaces, mem0, mem, regions);
    forall w | w in AllFields(mem0, regions)
      ensures w < |mem| && Outside(c.spaces, w) && mem[w] == mem0[w] && FieldOk(c.spaces, g, mem, mem[w])
      ensures Renamed(g, mem[w]) == RenamedBy(Finals(g, marked), mem0[w])
    {
      AllFieldsWithin(mem0, regions, w);
      RootIsField(c, mem0, marked, mem, g, mem0[w]);
    }
  }

  /** Updating them leaves the local spaces as they are. */
  lemma PermanentsUpdated(c: Config, mem0: seq<Word>, marked: set<nat>, mem: seq<Word>, mem': seq<Word>, g: Shape, s: set<nat>)
    requires OutsideKept(c.spaces, mem0, mem) && Rewritten(g, mem, mem', s) && FieldWords(c.spaces, g, mem, s) && marked <= g.Keys
    requires forall w :: w in s ==> w < |mem0| && Renamed(g, mem[w]) == RenamedBy(Finals(g, marked), mem0[w])
    ensures OutsideRenamed(c.spaces, mem0, mem', s, Finals(g, marked))
    ensures |mem'| == |mem| && forall w :: 0 <= w < |mem| && !Outside(c.spaces, w) ==> mem'[w] == mem[w]
  {
    hide Outside, FieldOk, Renamed, RenamedBy, Finals;
  }

  /** The words of final places are in local spaces. */
  lemma PreservedStays(c: Config, mem0: seq<Word>, marked: set<nat>, mem1: seq<Word>, g: Shape, mem: seq<Word>, mem': seq<Word>, o: nat)
    requires ShapeOk(c.spaces, g) && Placed(mem0, mem1, g, o) && o in marked && marked <= g.Keys
    requires ObjectPreserved(mem0, o, mem, Finals(g, marked))
    requires |mem'| == |mem| && forall w :: 0 <= w < |mem| && !Outside(c.spaces, w) ==> mem'[w] == mem[w]
    ensures ObjectPreserved(mem0, o, mem', Finals(g, marked))
  {
    hide SameObject, RenamedBy;
    var f := g[o].final;
    ObjectInSpace(c.spaces, g, f);
    var k := g[f].space;
    forall w | f - 1 <= w < f + g[o].size
      ensures !Outside(c.spaces, w)
    {
      assert c.spaces[k].bottom <= w < c.spaces[k].top;
    }
  }

  lemma GraphStays(c: Config, mem0: seq<Word>, marked: set<nat>, mem1: seq<Word>, bits: set<nat>, g: Shape,
                   mem: seq<Word>, mem': seq<Word>)
    requires HeapOk(c, mem0, marked, mem1, bits, g) && marked <= g.Keys && GraphPreserved(mem0, marked, mem, Finals(g, marked))
    requires |mem'| == |mem| && forall w :: 0 <= w < |mem| && !Outside(c.spaces, w) ==> mem'[w] == mem[w]
    ensures GraphPreserved(mem0, marked, mem', Finals(g, marked))
  {
    hide Placed, ObjectPreserved, ShapeOk, BitsOk, HeadersOk, ContentsOk, MutablesOk, OutsideKept, OnlyMarked, Outside;
    hide GraphPreserved;
    AllPlaced(c, mem0, marked, mem1, bits, g);
    forall o | o in marked
      ensures ObjectPreserved(mem0, o, mem', Finals(g, marked))
    {
      assert ObjectPreserved(mem0, o, mem, Finals(g, marked)) by { PreservedIn(mem0, marked, mem, Finals(g, marked), o); }
      PreservedStays(c, mem0, marked, mem1, g, mem, mem', o);
    }
    PreservedAgain(mem0, marked, mem, mem', Finals(g, marked));
  }

  lemma PreservedIn(mem0: seq<Word>, marked: set<nat>, mem: seq<Word>, finals: map<nat, nat>, o: nat)
    requires GraphPreserved(mem0, marked, mem, finals) && o in marked
    ensures o in finals && ObjectPreserved(mem0, o, mem, finals)
  {
  }

  lemma PreservedAgain(mem0: seq<Word>, marked: set<nat>, mem: seq<Word>, mem': seq<Word>, finals: map<nat, nat>)
    requires GraphPreserved(mem0, marked, mem, finals)
    requires forall o :: o in marked ==> o in finals && ObjectPreserved(mem0, o, mem', finals)
    ensures GraphPreserved(mem0, marked, mem', finals)
  {
    hide RenamedBy;
  }

  /**
   The copy phase, in whatever order its tasks ran, followed by the update phase: the live graph is
   preserved up to renaming, the roots and the fields of permanent objects are renamed with it, nothing
   else outside the local spaces has changed, and no marked word is lost or gained.
   */
  method UpdateAfterCopy(mem: array<Word>, areas: seq<LocalMemSpace>, regions: seq<Region>, roots: array<Word>,
                         ghost c: Config, ghost marked: set<nat>, ghost run: seq<State>, ghost steps: seq<Step>, ghost g0: Shape)
    returns (ghost finals: map<nat, nat>, updated: seq<nat>)
    requires CopyResults.IsRun(c, run, steps) && CopyResults.Initial(c, marked, run[0], g0)
    requires CopyResults.Finished(run[|steps|]) && mem[..] == run[|steps|].mem
    requires Closed(c.spaces, run[0].mem, marked)
    requires |areas| == |c.spaces| && SizesOk(c, run[|steps|])
    requires forall k :: 0 <= k < |areas| ==> AreaOk(areas[k], c.spaces, run[|steps|].bits, run[|steps|].upper[k], k)
    requires forall k :: 0 <= k < |areas| ==> mem as object != areas[k].bitmap.m_bits as object
    requires PermanentsOk(c.spaces, run[0].mem, marked, regions)
    requires roots as object != mem as object
    requires forall i :: 0 <= i < roots.Length ==> RootOk(c.spaces, run[0].mem, marked, roots[i])
    modifies mem, roots
    ensures GraphPreserved(run[0].mem, marked, mem[..], finals)
    ensures OutsideRenamed(c.spaces, run[0].mem, mem[..], AllFields(run[0].mem, regions), finals)
    ensures forall i :: 0 <= i < roots.Length ==> roots[i] == RenamedBy(finals, old(roots[i]))
    ensures marked == g0.Keys && Sum(updated) == Total(g0, marked)
  {
    hide CopyResults.Initial, CopyResults.Finished, CopyResults.Retained, IsStep, Inv, Closed, Compacted, HeapOk, OutsideKept;
    hide RootOk, SpacesUpdated, HeadersOk, FieldsOk, FieldOk, GraphPreserved, Renamed, RenamedBy, SizesOk, AreaOk, Total;
    hide PermanentsOk, AllFields, AllFilled, FieldWords, Rewritten, OutsideRenamed, Outside;
    ghost var mem0, s := run[0].mem, run[|steps|];
    ghost var g := CopyResults.CopyPhaseResult(c, marked, run, steps, g0);
    CompactedAfterCopy(c, mem0, marked, s, g);
    HeapAfterRun(c, mem0, marked, s, g, run[0], g0);
    updated := UpdateAreas(mem, areas, c.spaces, g, s.bits, s.upper);
    AfterUpdate(c, mem0, marked, s, g, g0, mem[..]);
    finals := Finals(g, marked);
    ghost var mem2 := mem[..];
    assert AllFilled(mem0, regions) by { PermanentsFilled(c, mem0, marked, regions); }
    PermanentFields(c, mem0, marked, mem2, g, regions);
    forall i | 0 <= i < roots.Length
      ensures FieldOk(c.spaces, g, mem2, roots[i]) && Renamed(g, roots[i]) == RenamedBy(finals, roots[i])
    {
      RootIsField(c, mem0, marked, mem2, g, roots[i]);
    }
    UpdatePermanent(mem, regions, c.spaces, g);
    PermanentsUpdated(c, mem0, marked, mem2, mem[..], g, AllFields(mem0, regions));
    GraphStays(c, mem0, marked, s.mem, s.bits, g, mem2, mem[..]);
    forall i | 0 <= i < roots.Length
      ensures FieldOk(c.spaces, g, mem[..], roots[i])
    {
      StillField(c.spaces, g, mem2, mem[..], AllFields(mem0, regions), roots[i]);
    }
    UpdateRoots(mem, roots, c.spaces, g);
  }

  lemma PermanentsFilled(c: Config, mem0: seq<Word>, marked: set<nat>, regions: seq<Region>)
    requires PermanentsOk(c.spaces, mem0, marked, regions)
    ensures AllFilled(mem0, regions)
  {
  }

  lemma HeapAfterRun(c: Config, mem0: seq<Word>, marked: set<nat>, s: State, g: Shape, s0: State, g0: Shape)
    requires Inv(c, mem0, marked, s, g) && CopyResults.Initial(c, marked, s0, g0) && s0.mem == mem0
    ensures HeapOk(c, mem0, marked, s.mem, s.bits, g) && |s.upper| == |c.spaces| && ShapeOk(c.spaces, g)
    ensures marked == g0.Keys && HeadersOk(mem0, g0) && forall a :: a in g0 ==> g0[a].final == a
  {
  }

  lemma AfterUpdate(c: Config, mem0: seq<Word>, marked: set<nat>, s: State, g: Shape, g0: Shape, mem: seq<Word>)
    requires HeapOk(c, mem0, marked, s.mem, s.bits, g) && Closed(c.spaces, mem0, marked)
    requires SpacesUpdated(c.spaces, g, s.mem, mem, |c.spaces|)
    requires marked == g0.Keys && HeadersOk(mem0, g0) && forall a :: a in g0 ==> g0[a].final == a
    ensures marked <= g.Keys && GraphPreserved(mem0, marked, mem, Finals(g, marked)) && OutsideKept(c.spaces, mem0, mem)
    ensures Total(g, FinalsIn(g, |c.spaces|)) == Total(g0, marked)
  {
    hide GraphPreserved, HeadersOk, ShapeOk, BitsOk, ContentsOk, MutablesOk, OnlyMarked, Total, Finals, Closed;
    GraphAfterUpdate(c, mem0, marked, s.mem, s.bits, g, mem);
    WordsConserved(c, mem0, marked, s.mem, s.bits, g, g0);
    OutsideAfter(c.spaces, g, mem0, s.mem, mem);
  }

  lemma OutsideAfter(spaces: seq<Space>, g: Shape, mem0: seq<Word>, mem1: seq<Word>, mem: seq<Word>)
    requires OutsideKept(spaces, mem0, mem1) && SpacesUpdated(spaces, g, mem1, mem, |spaces|)
    ensures OutsideKept(spaces, mem0, mem)
  {
    hide UpdatedTo;
    forall w | 0 <= w < |mem| && Outside(spaces, w)
      ensures mem[w] == mem0[w]
    {
      assert OutsideFirst(spaces, |spaces|, w);
    }
  }
}