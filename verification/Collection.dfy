/** The phases of a full collection, one after the other. */
module Collection {
  import opened Heap
  import opened MarkGraph
  import opened MarkBitmaps
  import opened LocalSpaces
  import Marking
  import opened Counting
  import CopySteps
  import CopyResults
  import UpdatePhase
  import UpdateRegions
  import FullGC

  /** What marking has left, as proved of the mark phase: the marks are exactly the reachable objects. */
  ghost predicate Marked(G: Graph, roots: set<nat>, perms: set<nat>, marks: set<nat>) {
    && GraphOk(G) && perms <= G.objs && marks <= G.objs
    && (forall o :: o in marks ==> ObjectOk(G, o) && Local(G, o) && Size(G, o) > 0 && Done(G, marks, o))
    && forall o :: o in G.objs ==> (o in marks <==> Reachable(G, roots, perms, o))
  }

  /** The bitmaps, counts and limits of all spaces, as proved of the making of each bitmap. */
  ghost predicate BitmapsMade(G: Graph, marks: set<nat>, words: seq<set<nat>>, iMarked: seq<nat>, mMarked: seq<nat>, lower: seq<nat>)
    requires MarkedOk(G, marks)
  {
    && |words| == |iMarked| == |mMarked| == |lower| == |G.spaces|
    && forall k :: 0 <= k < |G.spaces| ==>
         Walked(G.mem, MarkedShape(G, marks), k, G.spaces[k], G.spaces[k].top, words[k], iMarked[k], mMarked[k], lower[k])
  }

  /** The copying starts with that, each space reset and no space owned. */
  ghost predicate StartsFrom(G: Graph, words: seq<set<nat>>, iMarked: seq<nat>, c: CopySteps.Config, s: CopySteps.State) {
    && BitsOf(words, s.bits) && c.spaces == G.spaces && c.iMarked == iMarked && s.mem == G.mem
    && s.upper == seq(|G.spaces|, k requires 0 <= k < |G.spaces| => G.spaces[k].top)
    && s.searched == seq(|G.spaces|, k requires 0 <= k < |G.spaces| => G.spaces[k].bottom)
    && s.owner == seq(|G.spaces|, k => None)
    && (forall t :: 0 <= t < |s.workers| ==> s.workers[t] == CopySteps.Idle) && !s.ran
  }

  /** An address the collection must keep up to date: of a permanent object or of a reachable one. */
  ghost predicate AddressOk(G: Graph, roots: set<nat>, perms: set<nat>, v: Word)
    requires GraphOk(G) && perms <= G.objs
  {
    v.Tagged? || v == Zero
    || (v.Pointer? && v.addr in G.objs && ObjectOk(G, v.addr) && Size(G, v.addr) > 0
        && (Local(G, v.addr) ==> Reachable(G, roots, perms, v.addr)))
  }

  lemma AddressIsRoot(G: Graph, roots: set<nat>, perms: set<nat>, marks: set<nat>, v: Word)
    requires Marked(G, roots, perms, marks) && AddressOk(G, roots, perms, v)
    ensures FullGC.RootOk(G.spaces, G.mem, marks, v)
  {
    hide Reachable, GraphOk;
    if v.Pointer? && !Local(G, v.addr) { PermanentHeader(G, v.addr); }
  }

  /** The areas of permanent mutable objects have exactly the objects of perms, outside the local spaces. */
  ghost predicate PermanentAreas(G: Graph, perms: set<nat>, regions: seq<UpdateRegions.Region>) {
    && UpdateRegions.AllFilled(G.mem, regions) && UpdateRegions.RegionsApart(regions)
    && UpdateRegions.RegionsOutside(G.spaces, regions) && UpdateRegions.AllObjects(G.mem, regions) == perms
  }

  /** What a permanent object leads to is reachable. */
  lemma PermanentLeads(G: Graph, roots: set<nat>, perms: set<nat>, marks: set<nat>, o: nat, w: nat)
    requires Marked(G, roots, perms, marks) && o in perms && ObjectOk(G, o) && !IsByte(G, o) && o <= w < o + Size(G, o)
    ensures w < |G.mem| && FullGC.RootOk(G.spaces, G.mem, marks, G.mem[w])
  {
    hide Local, Tiled, Done;
    assert MarkGraph.FieldOk(G, G.mem[w]);
    if G.mem[w].Pointer? {
      var p := G.mem[w].addr;
      if Local(G, p) {
        assert PointsTo(G, o, p) && Path(G, roots, perms, [p]);
      } else {
        PermanentHeader(G, p);
      }
    }
  }

  lemma PermanentsReady(G: Graph, roots: set<nat>, perms: set<nat>, marks: set<nat>, regions: seq<UpdateRegions.Region>)
    requires Marked(G, roots, perms, marks) && PermanentAreas(G, perms, regions)
    ensures FullGC.PermanentsOk(G.spaces, G.mem, marks, regions)
  {
    hide Reachable, Tiled, Done, Local, FullGC.RootOk, UpdateRegions.Filled, UpdateRegions.RegionsApart;
    forall w | w in UpdateRegions.AllFields(G.mem, regions)
      ensures w < |G.mem| && FullGC.RootOk(G.spaces, G.mem, marks, G.mem[w])
    {
      var o := UpdateRegions.FieldOfAll(G.mem, regions, w);
      assert ObjectOk(G, o);
      PermanentLeads(G, roots, perms, marks, o, w);
    }
  }

  /** The permanent object at p has the length word it had; its fields are renamed, its bytes unchanged. */
  predicate PermanentRenamed(mem0: seq<Word>, p: nat, mem: seq<Word>, finals: map<nat, nat>) {
    && 0 < p <= |mem0| == |mem| && mem0[p - 1].Length? && p + mem0[p - 1].length <= |mem0| && mem[p - 1] == mem0[p - 1]
    && forall w :: p <= w < p + mem0[p - 1].length ==>
         mem[w] == if mem0[p - 1].isByte then mem0[w] else FullGC.RenamedBy(finals, mem0[w])
  }

  lemma PermanentsRenamed(G: Graph, perms: set<nat>, marks: set<nat>, regions: seq<UpdateRegions.Region>, mem: seq<Word>,
                          finals: map<nat, nat>)
    requires PermanentAreas(G, perms, regions) && FullGC.PermanentsOk(G.spaces, G.mem, marks, regions)
    requires FullGC.OutsideRenamed(G.spaces, G.mem, mem, UpdateRegions.AllFields(G.mem, regions), finals)
    ensures forall p :: p in perms ==> PermanentRenamed(G.mem, p, mem, finals)
  {
    hide UpdateRegions.Filled, UpdateRegions.AllFields, UpdateRegions.AllObjects, FullGC.RenamedBy, Outside;
    forall p | p in perms
      ensures PermanentRenamed(G.mem, p, mem, finals)
    {
      UpdateRegions.ObjectOfAll(G.mem, regions, p);
      var i :| 0 <= i < |regions| && regions[i].bottom < p && p + G.mem[p - 1].length <= regions[i].top;
      assert forall w :: p - 1 <= w < p + G.mem[p - 1].length ==> Outside(G.spaces, w);
      assert p - 1 !in UpdateRegions.AllFields(G.mem, regions);
      forall w | p <= w < p + G.mem[p - 1].length
        ensures mem[w] == if G.mem[p - 1].isByte then G.mem[w] else FullGC.RenamedBy(finals, G.mem[w])
      {
        assert w in UpdateRegions.Words(p, p + G.mem[p - 1].length);
      }
    }
  }

  /** The objects of the first n spaces. */
  ghost function InFirst(g: Shape, n: nat): set<nat> {
    set a | a in g && g[a].space < n
  }

  /** The words marked in the first n spaces, counted space by space. */
  lemma {:induction false} MarkedInFirst(G: Graph, marks: set<nat>, words: seq<set<nat>>, iMarked: seq<nat>, mMarked: seq<nat>,
                                         lower: seq<nat>, n: nat)
    requires MarkedOk(G, marks) && BitmapsMade(G, marks, words, iMarked, mMarked, lower) && n <= |G.spaces|
    ensures Total(MarkedShape(G, marks), InFirst(MarkedShape(G, marks), n)) == FullGC.Sum(iMarked[..n]) + FullGC.Sum(mMarked[..n])
  {
    hide MarkedOk, MarkedShape, WordsBefore, LowestBefore, Total;
    var g := MarkedShape(G, marks);
    if n == 0 {
      assert InFirst(g, 0) == {};
      NoneCounted(g);
    } else {
      MarkedInFirst(G, marks, words, iMarked, mMarked, lower, n - 1);
      var k, last: nat := n - 1, G.spaces[n - 1].top;
      assert Walked(G.mem, g, k, G.spaces[k], last, words[k], iMarked[k], mMarked[k], lower[k]);
      InSpaceOrBefore(G, marks, n);
      TotalUnion(g, InFirst(g, n - 1), MarkedBefore(g, k, last));
      assert iMarked[..n][..n - 1] == iMarked[..n - 1] && mMarked[..n][..n - 1] == mMarked[..n - 1];
    }
  }

  lemma NoneCounted(g: Shape)
    ensures Total(g, {}) == 0
  {
  }

  lemma InSpaceOrBefore(G: Graph, marks: set<nat>, n: nat)
    requires MarkedOk(G, marks) && 0 < n <= |G.spaces|
    ensures var g := MarkedShape(G, marks);
      InFirst(g, n) == InFirst(g, n - 1) + MarkedBefore(g, n - 1, G.spaces[n - 1].top)
      && InFirst(g, n - 1) !! MarkedBefore(g, n - 1, G.spaces[n - 1].top)
  {
    hide MarkedOk, MarkedShape;
    var g := MarkedShape(G, marks);
    forall a | a in g
      ensures a <= G.spaces[n - 1].top || g[a].space != n - 1
    {
      ShapeMember(G, marks, a);
      ShapeEntry(G, marks, a);
    }
  }

  lemma AllInFirst(G: Graph, marks: set<nat>)
    requires MarkedOk(G, marks)
    ensures MarkedShape(G, marks).Keys == marks && InFirst(MarkedShape(G, marks), |G.spaces|) == marks
  {
    hide MarkedOk, MarkedShape;
    var g := MarkedShape(G, marks);
    forall a | a in g
      ensures a in marks && g[a].space < |G.spaces|
    {
      ShapeMember(G, marks, a);
      ShapeEntry(G, marks, a);
    }
    forall a | a in marks
      ensures a in g
    {
      ShapeEntry(G, marks, a);
    }
  }

  lemma MarkedIsOk(G: Graph, roots: set<nat>, perms: set<nat>, marks: set<nat>)
    requires Marked(G, roots, perms, marks)
    ensures MarkedOk(G, marks) && FullGC.Closed(G.spaces, G.mem, marks)
  {
    hide Reachable, GraphOk, FullGC.Closed;
    MarkingIsClosed(G, marks);
  }

  lemma CopyingStarts(G: Graph, marks: set<nat>, words: seq<set<nat>>, iMarked: seq<nat>, mMarked: seq<nat>,
                      c: CopySteps.Config, s: CopySteps.State)
    requires MarkedOk(G, marks) && MutablesPlaced(G) && BitmapsMade(G, marks, words, iMarked, mMarked, s.lower)
    requires StartsFrom(G, words, iMarked, c, s)
    ensures CopyResults.Initial(c, marks, s, MarkedShape(G, marks))
  {
    hide MarkedOk, MarkedShape, Walked, MutablesPlaced, CopyResults.Initial;
    MarkingStartsCopying(G, marks, words, iMarked, mMarked, c, s);
  }

  // ---------- Marking and making the bitmaps ----------

  /** The bitmaps of the areas are for the spaces, large enough and separate. */
  ghost predicate AreasFor(G: Graph, areas: seq<LocalMemSpace>)
    reads set k | 0 <= k < |areas| :: areas[k].bitmap
  {
    && |areas| == |G.spaces|
    && (forall k :: 0 <= k < |areas| ==>
          && areas[k].bottom == G.spaces[k].bottom <= areas[k].top == G.spaces[k].top
          && areas[k].top - areas[k].bottom <= areas[k].bitmap.Size())
    && (forall j, k :: 0 <= j < k < |areas| ==> areas[j].bitmap.m_bits != areas[k].bitmap.m_bits)
  }

  /** The marks in the spaces from k on have not been cleared. */
  ghost predicate MarksLeft(G: Graph, marks: set<nat>, rest: set<nat>, k: nat) {
    forall j, o :: k <= j < |G.spaces| && o in G.objs && G.spaces[j].bottom < o <= G.spaces[j].top ==> (o in rest <==> o in marks)
  }

  lemma LaterMarksLeft(G: Graph, marks: set<nat>, rest: set<nat>, rest': set<nat>, k: nat)
    requires MarkedOk(G, marks) && k < |G.spaces| && MarksLeft(G, marks, rest, k)
    requires rest' == rest - MarkedBefore(MarkedShape(G, marks), k, G.spaces[k].top)
    ensures MarksLeft(G, marks, rest', k + 1)
  {
    assert SpacesOk(G.spaces, |G.mem|);
    hide MarkedOk, MarkedShape;
    forall j, o | k + 1 <= j < |G.spaces| && o in G.objs && G.spaces[j].bottom < o <= G.spaces[j].top
      ensures o in rest' <==> o in marks
    {
      if o in MarkedBefore(MarkedShape(G, marks), k, G.spaces[k].top) {
        ShapeMember(G, marks, o);
        ShapeEntry(G, marks, o);
      }
    }
  }

  /** The bitmap of one more space. */
  lemma OneMoreMade(G: Graph, marks: set<nat>, words: seq<set<nat>>, iMarked: seq<nat>, mMarked: seq<nat>, lower: seq<nat>,
                    n: nat, w: set<nat>, i: nat, m: nat, l: nat)
    requires MarkedOk(G, marks) && MadeTo(G, marks, words, iMarked, mMarked, lower, n) && n < |G.spaces|
    requires Walked(G.mem, MarkedShape(G, marks), n, G.spaces[n], G.spaces[n].top, w, i, m, l)
    ensures MadeTo(G, marks, words + [w], iMarked + [i], mMarked + [m], lower + [l], n + 1)
  {
    hide Walked, MarkedOk, MarkedShape;
  }

  /** The bitmaps, counts and limits of the first n spaces. */
  ghost predicate MadeTo(G: Graph, marks: set<nat>, words: seq<set<nat>>, iMarked: seq<nat>, mMarked: seq<nat>, lower: seq<nat>, n: nat)
    requires MarkedOk(G, marks)
  {
    && |words| == |iMarked| == |mMarked| == |lower| == n <= |G.spaces|
    && forall k :: 0 <= k < n ==>
         Walked(G.mem, MarkedShape(G, marks), k, G.spaces[k], G.spaces[k].top, words[k], iMarked[k], mMarked[k], lower[k])
  }

  /** Make the bitmap of every space. */
  method SetAllBitmaps(G: Graph, areas: seq<LocalMemSpace>, marks: set<nat>)
    returns (iMarked: seq<nat>, mMarked: seq<nat>, lower: seq<nat>, ghost words: seq<set<nat>>)
    requires MarkedOk(G, marks) && AreasFor(G, areas)
    modifies set k | 0 <= k < |areas| :: areas[k].bitmap.m_bits
    ensures BitmapsMade(G, marks, words, iMarked, mMarked, lower)
    ensures AreasFor(G, areas) && forall k :: 0 <= k < |areas| ==> Holds(areas[k], words[k])
  {
    hide MarkedOk, MarkedShape, Walked, MadeTo, MarksLeft;
    var rest := marks;
    iMarked, mMarked, lower, words := [], [], [], [];
    NoneMade(G, marks);
    for k := 0 to |areas|
      invariant AreasFor(G, areas) && MarksLeft(G, marks, rest, k)
      invariant |words| == k && MadeTo(G, marks, words, iMarked, mMarked, lower, k)
      invariant forall j :: 0 <= j < k ==> Holds(areas[j], words[j])
    {
      var i, m, l, r, count;
      ghost var w;
      LeftIn(G, marks, rest, k);
      i, m, l, r, count, w := CreateBitmaps(G, k, areas[k], rest, marks);
      LaterMarksLeft(G, marks, rest, r, k);
      OneMoreMade(G, marks, words, iMarked, mMarked, lower, k, w, i, m, l);
      iMarked, mMarked, lower, words, rest := iMarked + [i], mMarked + [m], lower + [l], words + [w], r;
    }
    AllMade(G, marks, words, iMarked, mMarked, lower);
  }

  lemma LeftIn(G: Graph, marks: set<nat>, rest: set<nat>, k: nat)
    requires MarksLeft(G, marks, rest, k) && k < |G.spaces|
    ensures forall o :: o in G.objs && G.spaces[k].bottom < o <= G.spaces[k].top ==> (o in rest <==> o in marks)
  {
  }

  /** The mark phase followed by the making of every bitmap: all that the rest of the collection needs to start. */
  method BeginCollection(marker: Marking.Marker, areas: seq<LocalMemSpace>, perms: seq<nat>, roots: seq<nat>)
    returns (iMarked: seq<nat>, mMarked: seq<nat>, lower: seq<nat>, ghost words: seq<set<nat>>)
    requires marker.Valid() && marker.msp == 0 && marker.marks == {} && AreasFor(marker.G, areas)
    requires forall o :: o in perms ==> o in marker.G.objs && !Local(marker.G, o)
    requires forall o :: o in roots ==> o in marker.G.objs && ObjectOk(marker.G, o) && Size(marker.G, o) > 0
    modifies marker, marker.markStack, set k | 0 <= k < |areas| :: areas[k].bitmap.m_bits
    ensures Marked(marker.G, Marking.Elements(roots), Marking.Elements(perms), marker.marks)
    ensures MarkedOk(marker.G, marker.marks) && BitmapsMade(marker.G, marker.marks, words, iMarked, mMarked, lower)
    ensures AreasFor(marker.G, areas) && forall k :: 0 <= k < |areas| ==> Holds(areas[k], words[k])
  {
    hide MarkedOk, Reachable, GraphOk, Done, ObjectOk, Local, FullGC.Closed, BitmapsMade, Holds;
    marker.GCMarkPhase(perms, roots);
    MarksFound(marker.G, Marking.Elements(roots), Marking.Elements(perms), marker.marks);
    MarkedIsOk(marker.G, Marking.Elements(roots), Marking.Elements(perms), marker.marks);
    iMarked, mMarked, lower, words := SetAllBitmaps(marker.G, areas, marker.marks);
  }

  lemma MarksFound(G: Graph, roots: set<nat>, perms: set<nat>, marks: set<nat>)
    requires GraphOk(G) && perms <= G.objs && marks <= G.objs
    requires forall o :: o in marks ==> Marking.MarkOk(G, o) && Done(G, marks, o)
    requires forall o :: o in G.objs ==> (o in marks <==> Reachable(G, roots, perms, o))
    ensures Marked(G, roots, perms, marks)
  {
    hide GraphOk, Reachable, Done, Local;
  }

  lemma NoneMade(G: Graph, marks: set<nat>)
    requires MarkedOk(G, marks)
    ensures MadeTo(G, marks, [], [], [], [], 0) && MarksLeft(G, marks, marks, 0)
  {
  }

  lemma AllMade(G: Graph, marks: set<nat>, words: seq<set<nat>>, iMarked: seq<nat>, mMarked: seq<nat>, lower: seq<nat>)
    requires MarkedOk(G, marks) && MadeTo(G, marks, words, iMarked, mMarked, lower, |G.spaces|)
    ensures BitmapsMade(G, marks, words, iMarked, mMarked, lower)
  {
    hide Walked, MarkedOk, MarkedShape;
  }

  // ---------- The rest of the collection ----------

  /**
   From the end of marking to the end of the collection, for any interleaving of the tasks that copy.
   Exactly the objects that were reachable are there, with the same length words and bytes and with
   every address renamed; the roots and the fields of permanent objects are renamed with them, and no
   other word outside the local spaces has changed; the words counted by the update scan are those marked.
   */
  method FinishCollection(mem: array<Word>, areas: seq<LocalMemSpace>, regions: seq<UpdateRegions.Region>, roots: array<Word>,
                          ghost G: Graph, ghost rootSet: set<nat>, ghost perms: set<nat>, ghost marks: set<nat>,
                          ghost words: seq<set<nat>>, ghost iMarked: seq<nat>, ghost mMarked: seq<nat>,
                          ghost c: CopySteps.Config, ghost run: seq<CopySteps.State>, ghost steps: seq<CopySteps.Step>)
    returns (ghost finals: map<nat, nat>, updated: seq<nat>)
    requires Marked(G, rootSet, perms, marks) && MarkedOk(G, marks) && MutablesPlaced(G)
    requires CopyResults.IsRun(c, run, steps) && CopyResults.Finished(run[|steps|]) && mem[..] == run[|steps|].mem
    requires BitmapsMade(G, marks, words, iMarked, mMarked, run[0].lower) && StartsFrom(G, words, iMarked, c, run[0])
    requires |areas| == |c.spaces| && CopySteps.SizesOk(c, run[|steps|])
    requires forall k :: 0 <= k < |areas| ==>
      UpdatePhase.AreaOk(areas[k], c.spaces, run[|steps|].bits, run[|steps|].upper[k], k)
    requires forall k :: 0 <= k < |areas| ==> mem as object != areas[k].bitmap.m_bits as object
    requires PermanentAreas(G, perms, regions)
    requires roots as object != mem as object
    requires forall i :: 0 <= i < roots.Length ==> AddressOk(G, rootSet, perms, roots[i])
    modifies mem, roots
    ensures FullGC.GraphPreserved(G.mem, marks, mem[..], finals)
    ensures forall o :: o in G.objs ==> (o in finals <==> Reachable(G, rootSet, perms, o))
    ensures forall i :: 0 <= i < roots.Length ==> roots[i] == FullGC.RenamedBy(finals, old(roots[i]))
    ensures forall p :: p in perms ==> PermanentRenamed(G.mem, p, mem[..], finals)
    ensures UpdateRegions.AllFilled(G.mem, regions)
    ensures FullGC.OutsideRenamed(G.spaces, G.mem, mem[..], UpdateRegions.AllFields(G.mem, regions), finals)
    ensures FullGC.Sum(updated) == FullGC.Sum(iMarked) + FullGC.Sum(mMarked)
  {
    hide MarkedOk, MarkedShape, BitmapsMade, MutablesPlaced, StartsFrom, AddressOk, Reachable, GraphOk;
    hide CopyResults.Initial, CopyResults.Finished, UpdatePhase.AreaOk, CopySteps.SizesOk, FullGC.Closed;
    hide FullGC.RootOk, FullGC.RenamedBy, Total, FullGC.Sum, PermanentAreas, PermanentRenamed, FullGC.PermanentsOk;
    hide FullGC.OutsideRenamed, FullGC.ObjectPreserved;
    ghost var g := MarkedShape(G, marks);
    MarkedIsOk(G, rootSet, perms, marks);
    CopyingStarts(G, marks, words, iMarked, mMarked, c, run[0]);
    assert c.spaces == G.spaces && run[0].mem == G.mem by { StartFacts(G, words, iMarked, c, run[0]); }
    forall i | 0 <= i < roots.Length
      ensures FullGC.RootOk(G.spaces, G.mem, marks, roots[i])
    {
      AddressIsRoot(G, rootSet, perms, marks, roots[i]);
    }
    AllInFirst(G, marks);
    PermanentsReady(G, rootSet, perms, marks, regions);
    assert UpdateRegions.AllFilled(G.mem, regions) by { FullGC.PermanentsFilled(c, G.mem, marks, regions); }
    finals, updated := FullGC.UpdateAfterCopy(mem, areas, regions, roots, c, marks, run, steps, g);
    PermanentsRenamed(G, perms, marks, regions, mem[..], finals);
    MarkedInFirst(G, marks, words, iMarked, mMarked, run[0].lower, |G.spaces|);
    assert iMarked[..|G.spaces|] == iMarked && mMarked[..|G.spaces|] == mMarked by {
      CountSizes(G, marks, words, iMarked, mMarked, run[0].lower);
    }
  }

  lemma StartFacts(G: Graph, words: seq<set<nat>>, iMarked: seq<nat>, c: CopySteps.Config, s: CopySteps.State)
    requires StartsFrom(G, words, iMarked, c, s)
    ensures c.spaces == G.spaces && s.mem == G.mem
  {
  }

  lemma CountSizes(G: Graph, marks: set<nat>, words: seq<set<nat>>, iMarked: seq<nat>, mMarked: seq<nat>, lower: seq<nat>)
    requires MarkedOk(G, marks) && BitmapsMade(G, marks, words, iMarked, mMarked, lower)
    ensures |iMarked| == |mMarked| == |G.spaces|
  {
  }
}
