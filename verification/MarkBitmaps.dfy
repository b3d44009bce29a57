/** Turning marks into bitmap entries, and what marking hands on to the copy phase. */
module MarkBitmaps {
  import opened Heap
  import opened MarkGraph
  import opened Counting
  import opened Bitmaps
  import opened LocalSpaces
  import Moves
  import CopySteps
  import CopyResults
  import FullGC
  import UpdatePhase

  /** The space a local address is in. */
  ghost function SpaceOf(G: Graph, p: nat): (k: nat)
    requires Local(G, p)
    ensures k < |G.spaces| && G.spaces[k].bottom <= p < G.spaces[k].top
  {
    var k: nat :| k < |G.spaces| && G.spaces[k].bottom <= p < G.spaces[k].top;
    k
  }

  /** What marking must guarantee: only local, non-empty objects are marked. */
  ghost predicate MarkedOk(G: Graph, marked: set<nat>) {
    GraphOk(G) && forall o :: o in marked ==> o in G.objs && ObjectOk(G, o) && Local(G, o) && Size(G, o) > 0
  }

  /** The marked objects, each in its place. */
  ghost function MarkedShape(G: Graph, marked: set<nat>): Shape
    requires MarkedOk(G, marked)
  {
    map o | o in marked :: Obj(Size(G, o), SpaceOf(G, o), o)
  }

  /** Word w belongs to a marked object of space k. */
  ghost predicate InMarked(g: Shape, k: nat, w: nat) {
    exists a :: a in g && g[a].space == k && a - 1 <= w < a + g[a].size
  }

  /** The marked objects of space k whose headers lie before pos. */
  ghost function MarkedBefore(g: Shape, k: nat, pos: nat): set<nat> {
    set a | a in g && g[a].space == k && a <= pos
  }

  /** The mutable ones among them. */
  ghost function MutablesBefore(mem: seq<Word>, g: Shape, k: nat, pos: nat): set<nat> {
    set a | a in MarkedBefore(g, k, pos) && 0 < a <= |mem| && mem[a - 1].Length? && mem[a - 1].isMutable
  }

  /** The words of marked objects of space k that lie before pos. */
  ghost predicate WordsBefore(g: Shape, k: nat, space: Space, pos: nat, words: set<nat>) {
    forall w: nat :: w in words <==> space.bottom <= w < pos && InMarked(g, k, w)
  }

  /** The lowest marked header so far, or the top. */
  ghost predicate LowestBefore(g: Shape, k: nat, space: Space, pos: nat, lower: nat) {
    && space.bottom <= lower <= space.top
    && (lower == space.top || lower + 1 in MarkedBefore(g, k, pos))
    && forall a :: a in MarkedBefore(g, k, pos) ==> lower < a
  }

  ghost predicate Walked(mem: seq<Word>, g: Shape, k: nat, space: Space, pos: nat, words: set<nat>,
                         iMarked: nat, mMarked: nat, lower: nat) {
    && WordsBefore(g, k, space, pos, words)
    && |words| == iMarked + mMarked == Total(g, MarkedBefore(g, k, pos))
    && mMarked == Total(g, MutablesBefore(mem, g, k, pos))
    && LowestBefore(g, k, space, pos, lower)
  }

  lemma WalkStarts(mem: seq<Word>, g: Shape, k: nat, space: Space)
    requires space.bottom <= space.top && forall a :: a in g && g[a].space == k ==> space.bottom < a
    ensures Walked(mem, g, k, space, space.bottom, {}, 0, 0, space.top)
  {
    assert MarkedBefore(g, k, space.bottom) == {} && MutablesBefore(mem, g, k, space.bottom) == {};
  }

  /** Where one object ends the next begins. */
  lemma NextObject(G: Graph, k: nat, pt: nat)
    requires GraphOk(G) && k < |G.spaces| && G.spaces[k].bottom <= pt < G.spaces[k].top && Boundary(G, k, pt)
    ensures pt + 1 in G.objs && ObjectOk(G, pt + 1) && pt < |G.mem| && G.mem[pt].Length?
    ensures pt + 1 + Size(G, pt + 1) <= G.spaces[k].top && Boundary(G, k, pt + 1 + Size(G, pt + 1))
  {
    assert ObjectOk(G, pt + 1) && Inside(G.spaces[k], pt + 1, Size(G, pt + 1)) && EndsWell(G, k, pt + 1);
  }

  /** Every other object ends before this one or begins after it. */
  lemma Beside(G: Graph, obj: nat, a: nat)
    requires GraphOk(G) && obj in G.objs && ObjectOk(G, obj) && a in G.objs && ObjectOk(G, a) && a != obj
    ensures a + Size(G, a) < obj || obj + Size(G, obj) < a
  {
    assert Separate(G, obj, a) && Separate(G, a, obj);
  }

  /** What is known of a marked object of a space, and of any other marked object there. */
  lemma ShapeEntry(G: Graph, marked: set<nat>, a: nat)
    requires MarkedOk(G, marked) && a in marked
    ensures a in MarkedShape(G, marked) && MarkedShape(G, marked)[a].size == Size(G, a)
    ensures a in G.objs && ObjectOk(G, a)
    ensures var k := MarkedShape(G, marked)[a].space;
      k < |G.spaces| && G.spaces[k].bottom < a && a + Size(G, a) <= G.spaces[k].top
  {
    var k := MarkedShape(G, marked)[a].space;
    assert ObjectOk(G, a) && Inside(G.spaces[k], a, Size(G, a));
  }

  lemma SameSpace(G: Graph, marked: set<nat>, k: nat, a: nat)
    requires MarkedOk(G, marked) && a in marked && k < |G.spaces| && G.spaces[k].bottom < a <= G.spaces[k].top
    ensures MarkedShape(G, marked)[a].space == k
  {
    hide Tiled;
    assert ObjectOk(G, a) && Inside(G.spaces[k], a, Size(G, a));
  }

  lemma AboveBottom(G: Graph, marked: set<nat>, k: nat)
    requires MarkedOk(G, marked) && k < |G.spaces|
    ensures forall a :: a in MarkedShape(G, marked) && MarkedShape(G, marked)[a].space == k ==> G.spaces[k].bottom < a
  {
    hide MarkedOk, MarkedShape;
    forall a | a in MarkedShape(G, marked) && MarkedShape(G, marked)[a].space == k
      ensures G.spaces[k].bottom < a
    {
      ShapeMember(G, marked, a);
      ShapeEntry(G, marked, a);
    }
  }

  lemma ShapeMember(G: Graph, marked: set<nat>, a: nat)
    requires MarkedOk(G, marked) && a in MarkedShape(G, marked)
    ensures a in marked
  {
  }

  /** The other marked objects lie beside the object at obj. */
  ghost predicate AllBeside(g: Shape, k: nat, obj: nat, n: nat) {
    forall a :: a in g && g[a].space == k && a != obj ==> a + g[a].size < obj || obj + n < a
  }

  lemma MarkedBeside(G: Graph, marked: set<nat>, k: nat, obj: nat)
    requires MarkedOk(G, marked) && obj in G.objs && ObjectOk(G, obj)
    ensures AllBeside(MarkedShape(G, marked), k, obj, Size(G, obj))
  {
    var g := MarkedShape(G, marked);
    assert GraphOk(G);
    hide MarkedOk, MarkedShape, GraphOk, ObjectOk;
    forall a | a in g && g[a].space == k && a != obj
      ensures a + g[a].size < obj || obj + Size(G, obj) < a
    {
      ShapeMember(G, marked, a);
      ShapeEntry(G, marked, a);
      Beside(G, obj, a);
    }
  }

  /** Passing an object that is not marked adds no words. */
  lemma PassUnmarked(mem: seq<Word>, g: Shape, k: nat, space: Space, pt: nat, n: nat, words: set<nat>,
                     iMarked: nat, mMarked: nat, lower: nat)
    requires Walked(mem, g, k, space, pt, words, iMarked, mMarked, lower) && AllBeside(g, k, pt + 1, n)
    requires !(pt + 1 in g && g[pt + 1].space == k)
    ensures Walked(mem, g, k, space, pt + 1 + n, words, iMarked, mMarked, lower)
    ensures MarkedBefore(g, k, pt + 1 + n) == MarkedBefore(g, k, pt)
  {
    assert MarkedBefore(g, k, pt + 1 + n) == MarkedBefore(g, k, pt);
    assert MutablesBefore(mem, g, k, pt + 1 + n) == MutablesBefore(mem, g, k, pt);
  }

  lemma PassMarked(mem: seq<Word>, g: Shape, k: nat, space: Space, pt: nat, n: nat, words: set<nat>,
                   iMarked: nat, mMarked: nat, lower: nat)
    requires Walked(mem, g, k, space, pt, words, iMarked, mMarked, lower) && AllBeside(g, k, pt + 1, n)
    requires pt + 1 in g && g[pt + 1].space == k && g[pt + 1].size == n && space.bottom <= pt <= space.top
    requires pt < |mem| && mem[pt].Length?
    ensures Walked(mem, g, k, space, pt + 1 + n, words + Moves.Interval(pt, n + 1),
                   if mem[pt].isMutable then iMarked else iMarked + n + 1,
                   if mem[pt].isMutable then mMarked + n + 1 else mMarked,
                   if pt < lower then pt else lower)
    ensures MarkedBefore(g, k, pt + 1 + n) == MarkedBefore(g, k, pt) + {pt + 1}
  {
    hide WordsBefore, Total, AllBeside, MutablesBefore, MarkedBefore, LowestBefore;
    MarkedWords(g, k, space, pt, words);
    MarkedTotals(mem, g, k, pt);
    LowestStep(g, k, space, pt, n, lower);
  }

  lemma LowestStep(g: Shape, k: nat, space: Space, pt: nat, n: nat, lower: nat)
    requires LowestBefore(g, k, space, pt, lower) && space.bottom <= pt <= space.top
    requires MarkedBefore(g, k, pt + 1 + n) == MarkedBefore(g, k, pt) + {pt + 1}
    ensures LowestBefore(g, k, space, pt + 1 + n, if pt < lower then pt else lower)
  {
  }

  lemma MarkedWords(g: Shape, k: nat, space: Space, pt: nat, words: set<nat>)
    requires pt + 1 in g && g[pt + 1].space == k && space.bottom <= pt && WordsBefore(g, k, space, pt, words)
    requires AllBeside(g, k, pt + 1, g[pt + 1].size)
    ensures WordsBefore(g, k, space, pt + 1 + g[pt + 1].size, words + Moves.Interval(pt, g[pt + 1].size + 1))
    ensures |words + Moves.Interval(pt, g[pt + 1].size + 1)| == |words| + g[pt + 1].size + 1
  {
    var n := g[pt + 1].size + 1;
    forall w: nat | pt <= w < pt + n
      ensures InMarked(g, k, w)
    {
      assert pt + 1 in g && pt + 1 - 1 <= w < pt + 1 + g[pt + 1].size;
    }
    assert forall w :: w in Moves.Interval(pt, n) ==> Moves.Within(w, pt, n);
    hide InMarked;
    IntervalSize(pt, n);
    assert words !! Moves.Interval(pt, n);
  }

  lemma {:induction false} IntervalSize(p: nat, n: nat)
    ensures |Moves.Interval(p, n)| == n
  {
    if n == 0 {
      assert Moves.Interval(p, n) == {};
    } else {
      IntervalSize(p, n - 1);
      assert Moves.Interval(p, n) == Moves.Interval(p, n - 1) + {p + n - 1};
    }
  }

  lemma MarkedTotals(mem: seq<Word>, g: Shape, k: nat, pt: nat)
    requires pt + 1 in g && g[pt + 1].space == k && pt < |mem| && mem[pt].Length?
    requires AllBeside(g, k, pt + 1, g[pt + 1].size)
    ensures MarkedBefore(g, k, pt + 1 + g[pt + 1].size) == MarkedBefore(g, k, pt) + {pt + 1}
    ensures Total(g, MarkedBefore(g, k, pt + 1 + g[pt + 1].size)) == Total(g, MarkedBefore(g, k, pt)) + g[pt + 1].size + 1
    ensures Total(g, MutablesBefore(mem, g, k, pt + 1 + g[pt + 1].size))
      == Total(g, MutablesBefore(mem, g, k, pt)) + if mem[pt].isMutable then g[pt + 1].size + 1 else 0
  {
    var n := g[pt + 1].size + 1;
    var s, s' := MarkedBefore(g, k, pt), MarkedBefore(g, k, pt + n);
    assert s' == s + {pt + 1};
    assert s' - {pt + 1} == s;
    TotalWithout(g, s', pt + 1);
    var m, m' := MutablesBefore(mem, g, k, pt), MutablesBefore(mem, g, k, pt + n);
    if mem[pt].isMutable {
      assert m' - {pt + 1} == m;
      TotalWithout(g, m', pt + 1);
    } else {
      assert m' == m;
    }
  }

  /** The area's bitmap, up to the last byte it uses, holds exactly the given words. */
  ghost predicate Holds(area: LocalMemSpace, words: set<nat>)
    reads area, area.bitmap, area.bitmap.m_bits
  {
    && area.bottom <= area.top && 8 * ((area.top - area.bottom + 7) / 8) <= area.bitmap.Size()
    && forall n: nat :: n < 8 * ((area.top - area.bottom + 7) / 8) ==> (area.bitmap.TestBit(n) <==> area.bottom + n in words)
  }

  /** Counting the set bits counts the words. */
  lemma {:induction false} CountWords(s: seq<bv8>, bottom: nat, n: nat, words: set<nat>)
    requires n <= 8 * |s|
    requires forall i: nat :: i < n ==> (IsSet(s, i) <==> bottom + i in words)
    requires forall w :: w in words ==> bottom <= w < bottom + n
    ensures SetBelow(s, n) == |words|
  {
    if n == 0 {
      assert words == {};
    } else {
      var last := bottom + n - 1;
      assert IsSet(s, n - 1) <==> last in words;
      CountWords(s, bottom, n - 1, words - {last});
      assert last !in words ==> words - {last} == words;
    }
  }

  lemma SpaceBounds(G: Graph, k: nat)
    requires GraphOk(G) && k < |G.spaces|
    ensures G.spaces[k].bottom <= G.spaces[k].top && Boundary(G, k, G.spaces[k].bottom)
  {
  }

  lemma NoneBefore(g: Shape, k: nat, space: Space)
    requires forall a :: a in g && g[a].space == k ==> space.bottom < a
    ensures MarkedBefore(g, k, space.bottom) == {}
  {
  }

  /** What the walk finds at a boundary. */
  lemma WalkStep(G: Graph, marked: set<nat>, k: nat, pt: nat)
    requires MarkedOk(G, marked) && k < |G.spaces| && G.spaces[k].bottom <= pt < G.spaces[k].top && Boundary(G, k, pt)
    ensures pt + 1 in G.objs && pt < |G.mem| && G.mem[pt].Length?
    ensures pt + 1 + G.mem[pt].length <= G.spaces[k].top && Boundary(G, k, pt + 1 + G.mem[pt].length)
    ensures var g := MarkedShape(G, marked);
      && AllBeside(g, k, pt + 1, G.mem[pt].length) && pt + 1 !in MarkedBefore(g, k, pt)
      && (if pt + 1 in marked then pt + 1 in g && g[pt + 1].space == k && g[pt + 1].size == G.mem[pt].length
          else !(pt + 1 in g))
  {
    hide GraphOk, ObjectOk, Boundary, Inside, MarkedShape;
    assert GraphOk(G);
    hide MarkedOk;
    NextObject(G, k, pt);
    if pt + 1 in marked {
      ShapeEntry(G, marked, pt + 1);
      SameSpace(G, marked, k, pt + 1);
    } else {
      NotInShape(G, marked, pt + 1);
    }
    MarkedBeside(G, marked, k, pt + 1);
  }

  lemma NotInShape(G: Graph, marked: set<nat>, a: nat)
    requires MarkedOk(G, marked) && a !in marked
    ensures a !in MarkedShape(G, marked)
  {
  }

  /** Setting the bits of an object's words in the area's bitmap. */
  method SetWords(area: LocalMemSpace, bitno: nat, n: nat, ghost words: set<nat>)
    requires Holds(area, words) && 0 < n && bitno + n <= area.top - area.bottom
    modifies area.bitmap.m_bits
    ensures Holds(area, words + Moves.Interval(area.bottom + bitno, n)) && area.bitmap.m_bits == old(area.bitmap.m_bits)
  {
    ghost var was := area.bitmap.m_bits[..];
    area.bitmap.SetBits(bitno, n);
    forall i: nat | i < 8 * ((area.top - area.bottom + 7) / 8)
      ensures area.bitmap.TestBit(i) <==> area.bottom + i in words + Moves.Interval(area.bottom + bitno, n)
    {
      assert area.bitmap.TestBit(i) <==> old(area.bitmap.TestBit(i)) || bitno <= i < bitno + n;
      assert Moves.Within(area.bottom + i, area.bottom + bitno, n) <==> bitno <= i < bitno + n;
    }
  }

  /**
   Walk the objects of a space from its bottom. The marks of those marked are cleared and their words
   set in the bitmap and counted; the lowest of them gives the limit where copying will start.
   */
  method SetBitmaps(G: Graph, k: nat, area: LocalMemSpace, marks: set<nat>, ghost marked: set<nat>)
    returns (iMarked: nat, mMarked: nat, lower: nat, rest: set<nat>, ghost words: set<nat>)
    requires MarkedOk(G, marked) && k < |G.spaces| && area.bottom == G.spaces[k].bottom && area.top == G.spaces[k].top
    requires forall o :: o in G.objs && G.spaces[k].bottom < o <= G.spaces[k].top ==> (o in marks <==> o in marked)
    requires Holds(area, {})
    modifies area.bitmap.m_bits
    ensures area.bitmap.m_bits == old(area.bitmap.m_bits)
    ensures Walked(G.mem, MarkedShape(G, marked), k, G.spaces[k], G.spaces[k].top, words, iMarked, mMarked, lower)
    ensures Holds(area, words)
    ensures rest == marks - MarkedBefore(MarkedShape(G, marked), k, G.spaces[k].top)
  {
    hide GraphOk, Walked, MarkedBefore, Boundary, ObjectOk;
    ghost var g, space := MarkedShape(G, marked), G.spaces[k];
    SpaceBounds(G, k);
    AboveBottom(G, marked, k);
    hide MarkedOk, MarkedShape;
    iMarked, mMarked, lower, rest, words := 0, 0, area.top, marks, {};
    WalkStarts(G.mem, g, k, space);
    assert MarkedBefore(g, k, space.bottom) == {} by { NoneBefore(g, k, space); }
    var pt := area.bottom;
    while pt < area.top
      invariant area.bottom <= pt <= area.top && Boundary(G, k, pt)
      invariant Walked(G.mem, g, k, space, pt, words, iMarked, mMarked, lower)
      invariant Holds(area, words) && area.bitmap.m_bits == old(area.bitmap.m_bits)
      invariant rest == marks - MarkedBefore(g, k, pt)
    {
      ghost var at := pt;
      WalkStep(G, marked, k, pt);
      pt := pt + 1;
      var n := G.mem[pt - 1].length;
      if pt in rest {
        PassMarked(G.mem, g, k, space, at, n, words, iMarked, mMarked, lower);
        rest := rest - {pt};
        SetWords(area, pt - area.bottom - 1, n + 1, words);
        words := words + Moves.Interval(at, n + 1);
        if G.mem[pt - 1].isMutable {
          mMarked := mMarked + n + 1;
        } else {
          iMarked := iMarked + n + 1;
        }
        if pt <= lower {
          lower := pt - 1;
        }
      } else {
        PassUnmarked(G.mem, g, k, space, at, n, words, iMarked, mMarked, lower);
      }
      pt := pt + n;
    }
  }

  /**
   Clear the bitmap of a space, set the bits of its marked objects and check the counts: the bits
   found are the words marked.
   */
  method CreateBitmaps(G: Graph, k: nat, area: LocalMemSpace, marks: set<nat>, ghost marked: set<nat>)
    returns (iMarked: nat, mMarked: nat, lower: nat, rest: set<nat>, bitCount: nat, ghost words: set<nat>)
    requires MarkedOk(G, marked) && k < |G.spaces| && area.bottom == G.spaces[k].bottom && area.top == G.spaces[k].top
    requires forall o :: o in G.objs && G.spaces[k].bottom < o <= G.spaces[k].top ==> (o in marks <==> o in marked)
    requires area.bottom <= area.top && area.top - area.bottom <= area.bitmap.Size()
    modifies area.bitmap.m_bits
    ensures area.bitmap.m_bits == old(area.bitmap.m_bits)
    ensures Walked(G.mem, MarkedShape(G, marked), k, G.spaces[k], G.spaces[k].top, words, iMarked, mMarked, lower)
    ensures Holds(area, words) && bitCount == iMarked + mMarked
    ensures rest == marks - MarkedBefore(MarkedShape(G, marked), k, G.spaces[k].top)
  {
    hide MarkedOk, MarkedShape;
    var size := area.top - area.bottom;
    area.bitmap.ClearBits(0, size);
    assert Holds(area, {});
    iMarked, mMarked, lower, rest, words := SetBitmaps(G, k, area, marks, marked);
    bitCount := area.bitmap.CountSetBits(size);
    assert |words| == iMarked + mMarked && forall w :: w in words ==> area.bottom <= w < area.top;
    hide Walked;
    forall i: nat | i < 8 * ((size + 7) / 8)
      ensures IsSet(area.bitmap.m_bits[..], i) <==> area.bottom + i in words
    {
      assert area.bitmap.TestBit(i) <==> area.bottom + i in words;
    }
    CountWords(area.bitmap.m_bits[..], area.bottom, 8 * ((size + 7) / 8), words);
  }

  // ---------- From marking to copying ----------

  /** All words set in any bitmap. */
  ghost predicate BitsOf(words: seq<set<nat>>, bits: set<nat>) {
    forall w :: w in bits <==> exists k :: 0 <= k < |words| && w in words[k]
  }

  lemma ObjectsApart(G: Graph, marked: set<nat>, a: nat, b: nat)
    requires MarkedOk(G, marked) && a in MarkedShape(G, marked) && b in MarkedShape(G, marked) && a != b
    ensures !Overlaps(a, MarkedShape(G, marked)[a].size, b - 1, MarkedShape(G, marked)[b].size + 1)
  {
    hide GraphOk;
    ShapeEntry(G, marked, a);
    ShapeEntry(G, marked, b);
    hide MarkedShape, ObjectOk;
    assert GraphOk(G);
    Beside(G, a, b);
  }

  lemma ShapeIsOk(G: Graph, marked: set<nat>)
    requires MarkedOk(G, marked)
    ensures ShapeOk(G.spaces, MarkedShape(G, marked))
  {
    hide MarkedOk, MarkedShape, Overlaps;
    var g := MarkedShape(G, marked);
    forall a | a in g
      ensures InSpace(G.spaces, a, g[a])
    {
      ShapeMember(G, marked, a);
      ShapeEntry(G, marked, a);
    }
    forall a, b | a in g && b in g && a != b
      ensures !Overlaps(a, g[a].size, b - 1, g[b].size + 1)
    {
      ObjectsApart(G, marked, a, b);
    }
  }

  lemma ShapeHeaders(G: Graph, marked: set<nat>)
    requires MarkedOk(G, marked)
    ensures HeadersOk(G.mem, MarkedShape(G, marked))
  {
    hide GraphOk;
  }

  lemma MarkedWord(G: Graph, marked: set<nat>, a: nat, w: nat)
    requires MarkedOk(G, marked) && a in marked && a in MarkedShape(G, marked)
    requires a - 1 <= w < a + MarkedShape(G, marked)[a].size
    ensures var k := MarkedShape(G, marked)[a].space;
      k < |G.spaces| && G.spaces[k].bottom <= w < G.spaces[k].top && InMarked(MarkedShape(G, marked), k, w)
  {
    ShapeEntry(G, marked, a);
  }

  lemma BitsAreOk(G: Graph, marked: set<nat>, words: seq<set<nat>>, bits: set<nat>)
    requires MarkedOk(G, marked) && |words| == |G.spaces| && BitsOf(words, bits)
    requires forall k :: 0 <= k < |G.spaces| ==>
      WordsBefore(MarkedShape(G, marked), k, G.spaces[k], G.spaces[k].top, words[k])
    ensures BitsOk(bits, MarkedShape(G, marked))
  {
    hide Boundary, ObjectOk;
    var g := MarkedShape(G, marked);
    hide MarkedOk, MarkedShape;
    forall a, w: nat | a in g && a - 1 <= w < a + g[a].size
      ensures w in bits
    {
      ShapeMember(G, marked, a);
      MarkedWord(G, marked, a, w);
      assert WordsBefore(g, g[a].space, G.spaces[g[a].space], G.spaces[g[a].space].top, words[g[a].space]);
      assert w in words[g[a].space];
    }
    forall w | w in bits
      ensures exists a :: a in g && a - 1 <= w < a + g[a].size
    {
      var k :| 0 <= k < |words| && w in words[k];
      assert WordsBefore(g, k, G.spaces[k], G.spaces[k].top, words[k]);
      var a :| a in g && g[a].space == k && a - 1 <= w < a + g[a].size;
    }
  }

  /** Mutable objects are created in mutable spaces. */
  ghost predicate MutablesPlaced(G: Graph) {
    forall o, k :: o in G.objs && 0 < o <= |G.mem| && 0 <= k < |G.spaces| ==> MutablePlaced(G.mem[o - 1], G.spaces[k], o)
  }

  predicate MutablePlaced(header: Word, space: Space, o: nat) {
    space.bottom < o <= space.top && header.Length? && header.isMutable ==> space.isMutable
  }

  lemma MutablesAreOk(G: Graph, marked: set<nat>)
    requires MarkedOk(G, marked) && MutablesPlaced(G)
    requires ShapeOk(G.spaces, MarkedShape(G, marked)) && HeadersOk(G.mem, MarkedShape(G, marked))
    ensures MutablesOk(G.spaces, G.mem, MarkedShape(G, marked))
  {
    var g := MarkedShape(G, marked);
    hide MarkedOk, MarkedShape, HeadersOk, ShapeOk;
    forall a | a in g
      ensures 0 < a <= |G.mem| && g[a].space < |G.spaces|
      ensures G.mem[a - 1].Length? && G.mem[a - 1].isMutable ==> G.spaces[g[a].space].isMutable
    {
      ShapeMember(G, marked, a);
      ShapeEntry(G, marked, a);
    }
  }

  /** The bitmaps and limits that marking leaves are what the copy phase starts from. */
  lemma MarkingStartsCopying(G: Graph, marked: set<nat>, words: seq<set<nat>>, iMarked: seq<nat>, mMarked: seq<nat>,
                             c: CopySteps.Config, s: CopySteps.State)
    requires MarkedOk(G, marked) && MutablesPlaced(G)
    requires |words| == |iMarked| == |mMarked| == |s.lower| == |G.spaces| && BitsOf(words, s.bits)
    requires c.spaces == G.spaces && c.iMarked == iMarked && s.mem == G.mem
    requires s.upper == seq(|G.spaces|, k requires 0 <= k < |G.spaces| => G.spaces[k].top)
    requires s.searched == seq(|G.spaces|, k requires 0 <= k < |G.spaces| => G.spaces[k].bottom)
    requires s.owner == seq(|G.spaces|, k => None)
    requires (forall t :: 0 <= t < |s.workers| ==> s.workers[t] == CopySteps.Idle) && !s.ran
    requires forall k :: 0 <= k < |G.spaces| ==>
      Walked(G.mem, MarkedShape(G, marked), k, G.spaces[k], G.spaces[k].top, words[k], iMarked[k], mMarked[k], s.lower[k])
    ensures CopyResults.Initial(c, marked, s, MarkedShape(G, marked))
  {
    hide MarkedOk, MarkedShape, ShapeOk, HeadersOk, BitsOk, MutablesOk, Walked, SpacesOk, BitsOf, MutablesPlaced, CopyResults.Untouched;
    var g := MarkedShape(G, marked);
    ShapeIsOk(G, marked);
    ShapeHeaders(G, marked);
    SpacesAreOk(G, marked);
    WalkedWords(G, marked, words, iMarked, mMarked, s.lower);
    BitsAreOk(G, marked, words, s.bits);
    MutablesAreOk(G, marked);
    AllUntouched(G, marked, words, iMarked, mMarked, c, s);
    LowerBelow(G, marked, words, iMarked, mMarked, s.lower);
  }

  lemma AllUntouched(G: Graph, marked: set<nat>, words: seq<set<nat>>, iMarked: seq<nat>, mMarked: seq<nat>,
                     c: CopySteps.Config, s: CopySteps.State)
    requires MarkedOk(G, marked) && CopySteps.SizesOk(c, s)
    requires |words| == |iMarked| == |mMarked| == |s.lower| == |G.spaces| && c.spaces == G.spaces
    requires s.upper == seq(|G.spaces|, k requires 0 <= k < |G.spaces| => G.spaces[k].top)
    requires s.searched == seq(|G.spaces|, k requires 0 <= k < |G.spaces| => G.spaces[k].bottom)
    requires s.owner == seq(|G.spaces|, k => None)
    requires forall k :: 0 <= k < |G.spaces| ==>
      Walked(G.mem, MarkedShape(G, marked), k, G.spaces[k], G.spaces[k].top, words[k], iMarked[k], mMarked[k], s.lower[k])
    ensures forall k :: 0 <= k < |c.spaces| ==> CopyResults.Untouched(c, s, MarkedShape(G, marked), k)
  {
    hide MarkedOk, MarkedShape, Walked, SpacesOk;
    forall k | 0 <= k < |c.spaces|
      ensures CopyResults.Untouched(c, s, MarkedShape(G, marked), k)
    {
      WalkedLower(G.mem, MarkedShape(G, marked), k, G.spaces[k], words[k], iMarked[k], mMarked[k], s.lower[k]);
    }
  }

  lemma LowerBelow(G: Graph, marked: set<nat>, words: seq<set<nat>>, iMarked: seq<nat>, mMarked: seq<nat>, lower: seq<nat>)
    requires MarkedOk(G, marked) && |words| == |iMarked| == |mMarked| == |lower| == |G.spaces|
    requires forall k :: 0 <= k < |G.spaces| ==>
      Walked(G.mem, MarkedShape(G, marked), k, G.spaces[k], G.spaces[k].top, words[k], iMarked[k], mMarked[k], lower[k])
    ensures forall a :: a in MarkedShape(G, marked) ==>
      MarkedShape(G, marked)[a].space < |lower| && lower[MarkedShape(G, marked)[a].space] < a
  {
    hide MarkedOk, MarkedShape, Walked;
    var g := MarkedShape(G, marked);
    forall a | a in g
      ensures g[a].space < |lower| && lower[g[a].space] < a
    {
      ShapeMember(G, marked, a);
      ShapeEntry(G, marked, a);
      var k := g[a].space;
      WalkedLower(G.mem, g, k, G.spaces[k], words[k], iMarked[k], mMarked[k], lower[k]);
    }
  }

  lemma SpacesAreOk(G: Graph, marked: set<nat>)
    requires MarkedOk(G, marked)
    ensures SpacesOk(G.spaces, |G.mem|) && MarkedShape(G, marked).Keys == marked
    ensures forall a :: a in MarkedShape(G, marked) ==> MarkedShape(G, marked)[a].final == a
  {
  }

  lemma WalkedLower(mem: seq<Word>, g: Shape, k: nat, space: Space, words: set<nat>, iMarked: nat, mMarked: nat, lower: nat)
    requires Walked(mem, g, k, space, space.top, words, iMarked, mMarked, lower)
    ensures space.bottom <= lower <= space.top && (lower == space.top || (lower + 1 in g && g[lower + 1].space == k))
    ensures forall a :: a in g && g[a].space == k && a <= space.top ==> lower < a
  {
    hide WordsBefore, Total;
    assert forall a :: a in g && g[a].space == k && a <= space.top ==> a in MarkedBefore(g, k, space.top);
  }

  lemma WalkedWords(G: Graph, marked: set<nat>, words: seq<set<nat>>, iMarked: seq<nat>, mMarked: seq<nat>, lower: seq<nat>)
    requires MarkedOk(G, marked) && |words| == |iMarked| == |mMarked| == |lower| == |G.spaces|
    requires forall k :: 0 <= k < |G.spaces| ==>
      Walked(G.mem, MarkedShape(G, marked), k, G.spaces[k], G.spaces[k].top, words[k], iMarked[k], mMarked[k], lower[k])
    ensures forall k :: 0 <= k < |G.spaces| ==>
      WordsBefore(MarkedShape(G, marked), k, G.spaces[k], G.spaces[k].top, words[k])
  {
    hide MarkedOk, MarkedShape, WordsBefore;
    forall k | 0 <= k < |G.spaces|
      ensures WordsBefore(MarkedShape(G, marked), k, G.spaces[k], G.spaces[k].top, words[k])
    {
      assert Walked(G.mem, MarkedShape(G, marked), k, G.spaces[k], G.spaces[k].top, words[k], iMarked[k], mMarked[k], lower[k]);
    }
  }

  /** An object outside the local spaces has its header outside them too. */
  lemma PermanentHeader(G: Graph, p: nat)
    requires GraphOk(G) && p in G.objs && ObjectOk(G, p) && Size(G, p) > 0 && !Local(G, p)
    ensures UpdatePhase.Permanent(G.spaces, G.mem, p)
  {
    hide Tiled;
    forall k | 0 <= k < |G.spaces|
      ensures !(G.spaces[k].bottom <= p - 1 < G.spaces[k].top)
    {
      assert Inside(G.spaces[k], p, Size(G, p));
      assert !(G.spaces[k].bottom <= p < G.spaces[k].top);
    }
  }

  /** A set of marks that is closed leads only to marked and permanent objects. */
  lemma MarkingIsClosed(G: Graph, marked: set<nat>)
    requires MarkedOk(G, marked) && forall o :: o in marked ==> ObjectOk(G, o) && Done(G, marked, o)
    ensures FullGC.Closed(G.spaces, G.mem, marked)
  {
    hide Tiled, Local, Inside;
    forall o, w: nat | o in marked && 0 < o <= w < |G.mem| && FullGC.IsFieldOf(G.mem, o, w)
      ensures FullGC.RootOk(G.spaces, G.mem, marked, G.mem[w])
    {
      assert ObjectOk(G, o) && FieldOk(G, G.mem[w]) && FieldDone(G, marked, w);
      if G.mem[w].Pointer? && !Local(G, G.mem[w].addr) {
        PermanentHeader(G, G.mem[w].addr);
      }
    }
  }
}
