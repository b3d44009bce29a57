/** Moving one cell into free memory, leaving a tombstone, and what that keeps. */
module Moves {
  import opened Heap

  /** Memory after the cell at a has been copied to p with its header and forwarded there. */
  function Moved(mem: seq<Word>, a: nat, size: nat, p: nat): (r: seq<Word>)
    requires 0 < a && a + size <= |mem| && p + size < |mem|
    ensures |r| == |mem|
  {
    seq(|mem|, w requires 0 <= w < |mem| =>
      if w == a - 1 then Tombstone(p + 1)
      else if p <= w <= p + size then mem[a - 1 + (w - p)]
      else mem[w])
  }

  /** Everything that ended at a now ends at the copy. */
  function MovedShape(g: Shape, a: nat, p: nat, space: nat): Shape
    requires a in g
  {
    (map x | x in g :: if g[x].final == a then g[x].(final := p + 1) else g[x])[p + 1 := Obj(g[a].size, space, p + 1)]
  }

  predicate Within(w: nat, p: nat, n: nat) {
    p <= w < p + n
  }

  /** The n words from p upwards. */
  function Interval(p: nat, n: nat): set<nat> {
    set w: nat | w < p + n && Within(w, p, n)
  }

  /** What the copy phase guarantees before it moves the cell at a to p in the given space. */
  ghost predicate CanMove(spaces: seq<Space>, words: nat, bits: set<nat>, g: Shape, a: nat, p: nat, space: nat) {
    && SpacesOk(spaces, words) && ShapeOk(spaces, g) && BitsOk(bits, g)
    && a in g && g[a].final == a
    && InSpace(spaces, p + 1, Obj(g[a].size, space, p + 1))
    && (forall w :: w in bits ==> !Within(w, p, g[a].size + 1))
    && Above(p + 1, space, a, g[a].space)
  }

  /** The place the copy goes to touches no object, and no other object touches the cell that moves. */
  ghost predicate Apart(g: Shape, a: nat, p: nat)
    requires a in g
  {
    && (forall x :: x in g ==> x != p + 1 && !Overlaps(x, g[x].size, p, g[a].size + 1))
    && (forall x :: x in g && x != a ==> !Overlaps(x, g[x].size, a - 1, g[a].size + 1))
  }

  lemma PlaceIsFree(spaces: seq<Space>, words: nat, bits: set<nat>, g: Shape, a: nat, p: nat, space: nat)
    requires CanMove(spaces, words, bits, g, a, p, space)
    ensures Apart(g, a, p)
  {
    forall x | x in g
      ensures x != p + 1 && !Overlaps(x, g[x].size, p, g[a].size + 1)
    {
      assert InSpace(spaces, x, g[x]);
      var w: nat := if p < x then x - 1 else p;
      assert x - 1 <= w < x + g[x].size ==> w in bits;
    }
  }

  lemma MoveKeepsShape(spaces: seq<Space>, g: Shape, a: nat, p: nat, space: nat)
    requires ShapeOk(spaces, g) && a in g && Apart(g, a, p)
    requires InSpace(spaces, p + 1, Obj(g[a].size, space, p + 1))
    ensures ShapeOk(spaces, MovedShape(g, a, p, space))
  {
    var g' := MovedShape(g, a, p, space);
    forall x, y | x in g' && y in g' && x != y
      ensures !Overlaps(x, g'[x].size, y - 1, g'[y].size + 1)
    {
    }
    forall x | x in g'
      ensures InSpace(spaces, x, g'[x])
    {
      if x != p + 1 {
        assert InSpace(spaces, x, g[x]);
      }
    }
  }

  lemma MoveKeepsBits(bits: set<nat>, g: Shape, a: nat, p: nat, space: nat)
    requires BitsOk(bits, g) && a in g && Apart(g, a, p)
    ensures BitsOk(bits + Interval(p, g[a].size + 1), MovedShape(g, a, p, space))
  {
    var g' := MovedShape(g, a, p, space);
    var bits' := bits + Interval(p, g[a].size + 1);
    forall x, w: nat | x in g' && x - 1 <= w < x + g'[x].size
      ensures w in bits'
    {
      if x != p + 1 {
        assert x in g && x - 1 <= w < x + g[x].size;
      }
    }
    forall w | w in bits'
      ensures exists x :: x in g' && x - 1 <= w < x + g'[x].size
    {
      if w in bits {
        var x :| x in g && x - 1 <= w < x + g[x].size;
        assert x in g' && x - 1 <= w < x + g'[x].size;
      } else {
        assert Within(w, p, g[a].size + 1);
        assert p + 1 in g' && p + 1 - 1 <= w < p + 1 + g'[p + 1].size;
      }
    }
  }

  lemma InMemory(spaces: seq<Space>, words: nat, g: Shape, a: nat)
    requires SpacesOk(spaces, words) && ShapeOk(spaces, g) && a in g
    ensures 0 < a && a + g[a].size <= words
  {
    assert InSpace(spaces, a, g[a]);
  }

  lemma MoveKeepsHeaders(mem: seq<Word>, g: Shape, a: nat, p: nat, space: nat)
    requires HeadersOk(mem, g) && a in g && g[a].final == a && Apart(g, a, p)
    requires Above(p + 1, space, a, g[a].space)
    requires a + g[a].size <= |mem| && p + g[a].size < |mem|
    ensures HeadersOk(Moved(mem, a, g[a].size, p), MovedShape(g, a, p, space))
  {
    var g' := MovedShape(g, a, p, space);
    var mem' := Moved(mem, a, g[a].size, p);
    forall x | x in g'
      ensures 0 < x <= |mem'| && HeaderOk(g', x, mem'[x - 1])
    {
      MovedHeader(mem, g, a, p, space, x);
    }
    MovedFinals(mem, g, a, p, space);
  }

  lemma MovedFinals(mem: seq<Word>, g: Shape, a: nat, p: nat, space: nat)
    requires HeadersOk(mem, g) && a in g && g[a].final == a && Apart(g, a, p)
    ensures forall x :: x in MovedShape(g, a, p, space) ==> FinalOk(MovedShape(g, a, p, space), x)
  {
    hide HeaderOk, Overlaps;
    var g' := MovedShape(g, a, p, space);
    forall x | x in g'
      ensures FinalOk(g', x)
    {
      if x != p + 1 {
        assert FinalOk(g, x);
      }
    }
  }

  /** The header of another object is untouched and still leads to its final place. */
  lemma MovedHeader(mem: seq<Word>, g: Shape, a: nat, p: nat, space: nat, x: nat)
    requires HeadersOk(mem, g) && a in g && g[a].final == a && Apart(g, a, p)
    requires Above(p + 1, space, a, g[a].space)
    requires a + g[a].size <= |mem| && p + g[a].size < |mem|
    requires x in MovedShape(g, a, p, space)
    ensures 0 < x <= |mem| && HeaderOk(MovedShape(g, a, p, space), x, Moved(mem, a, g[a].size, p)[x - 1])
  {
    var mem' := Moved(mem, a, g[a].size, p);
    if x == p + 1 {
      assert mem'[p] == mem[a - 1];
      assert HeaderOk(g, a, mem[a - 1]);
    } else if x == a {
      assert mem'[a - 1] == Tombstone(p + 1);
    } else {
      var header := mem[x - 1];
      assert HeaderOk(g, x, header);
      OtherHeader(mem, g, a, p, x);
    }
  }

  lemma OtherHeader(mem: seq<Word>, g: Shape, a: nat, p: nat, x: nat)
    requires a in g && Apart(g, a, p) && x in g && x != a && 0 < x <= |mem|
    requires 0 < a && a + g[a].size <= |mem| && p + g[a].size < |mem|
    ensures Moved(mem, a, g[a].size, p)[x - 1] == mem[x - 1]
  {
    assert !Overlaps(x, g[x].size, p, g[a].size + 1);
    assert !Overlaps(x, g[x].size, a - 1, g[a].size + 1);
  }

  lemma MoveKeepsContents(mem0: seq<Word>, marked: set<nat>, mem: seq<Word>, g: Shape, a: nat, p: nat, space: nat)
    requires HeadersOk(mem, g) && ContentsOk(mem0, marked, mem, g) && a in g && g[a].final == a && Apart(g, a, p)
    requires a + g[a].size <= |mem| && p + g[a].size < |mem|
    ensures ContentsOk(mem0, marked, Moved(mem, a, g[a].size, p), MovedShape(g, a, p, space))
  {
    hide HeaderOk, SameObject, Apart;
    var g' := MovedShape(g, a, p, space);
    var mem' := Moved(mem, a, g[a].size, p);
    forall o | o in marked
      ensures o in g' && SameObject(mem0, o, mem', g'[o].final, g'[o].size)
    {
      assert FinalOk(g, o) && SameObject(mem0, o, mem, g[o].final, g[o].size);
      ObjectKept(mem0, mem, g, a, p, space, o);
    }
    MovedApart(mem0, marked, mem, g, a, p, space);
  }

  lemma ObjectKept(mem0: seq<Word>, mem: seq<Word>, g: Shape, a: nat, p: nat, space: nat, o: nat)
    requires a in g && g[a].final == a && Apart(g, a, p) && o in g && FinalOk(g, o)
    requires 0 < a && a + g[a].size <= |mem| && p + g[a].size < |mem|
    requires SameObject(mem0, o, mem, g[o].final, g[o].size)
    ensures o in MovedShape(g, a, p, space)
    ensures SameObject(mem0, o, Moved(mem, a, g[a].size, p), MovedShape(g, a, p, space)[o].final,
                       MovedShape(g, a, p, space)[o].size)
  {
    hide SameObject;
    var f := g[o].final;
    if f != a {
      OtherContents(mem0, o, mem, g, a, p, f);
    } else {
      assert !Overlaps(a, g[a].size, p, g[a].size + 1) && o != p + 1;
      MovedContents(mem0, o, mem, a, g[a].size, p);
    }
  }

  lemma MovedApart(mem0: seq<Word>, marked: set<nat>, mem: seq<Word>, g: Shape, a: nat, p: nat, space: nat)
    requires HeadersOk(mem, g) && ContentsOk(mem0, marked, mem, g) && a in g && g[a].final == a && Apart(g, a, p)
    ensures var g' := MovedShape(g, a, p, space);
      forall o, o' :: o in marked && o' in marked && o != o' ==> o in g' && o' in g' && g'[o].final != g'[o'].final
  {
    var g' := MovedShape(g, a, p, space);
    forall o, o' | o in marked && o' in marked && o != o'
      ensures o in g' && o' in g' && g'[o].final != g'[o'].final
    {
      assert FinalOk(g, o) && FinalOk(g, o');
    }
  }

  lemma OtherContents(mem0: seq<Word>, o: nat, mem: seq<Word>, g: Shape, a: nat, p: nat, f: nat)
    requires a in g && Apart(g, a, p) && f in g && f != a
    requires 0 < a && a + g[a].size <= |mem| && p + g[a].size < |mem|
    requires SameObject(mem0, o, mem, f, g[f].size)
    ensures SameObject(mem0, o, Moved(mem, a, g[a].size, p), f, g[f].size)
  {
    assert !Overlaps(f, g[f].size, p, g[a].size + 1);
    assert !Overlaps(f, g[f].size, a - 1, g[a].size + 1);
  }

  lemma MovedContents(mem0: seq<Word>, o: nat, mem: seq<Word>, a: nat, size: nat, p: nat)
    requires 0 < a && a + size <= |mem| && p + size < |mem|
    requires p + size < a - 1 || a - 1 < p
    requires SameObject(mem0, o, mem, a, size)
    ensures SameObject(mem0, o, Moved(mem, a, size, p), p + 1, size)
  {
    var mem' := Moved(mem, a, size, p);
    forall w | p + 1 <= w < p + 1 + size
      ensures mem'[w] == mem0[o + (w - (p + 1))]
    {
      assert mem'[w] == mem[a - 1 + (w - p)];
    }
  }

  lemma MoveKeepsMutables(spaces: seq<Space>, mem: seq<Word>, g: Shape, a: nat, p: nat, space: nat)
    requires ShapeOk(spaces, g) && HeadersOk(mem, g) && MutablesOk(spaces, mem, g)
    requires a in g && Apart(g, a, p) && space < |spaces|
    requires a + g[a].size <= |mem| && p + g[a].size < |mem|
    requires mem[a - 1].Length? && mem[a - 1].isMutable ==> spaces[space].isMutable
    requires ShapeOk(spaces, MovedShape(g, a, p, space))
    requires HeadersOk(Moved(mem, a, g[a].size, p), MovedShape(g, a, p, space))
    ensures MutablesOk(spaces, Moved(mem, a, g[a].size, p), MovedShape(g, a, p, space))
  {
    hide HeaderOk, FinalOk, Overlaps;
    var g' := MovedShape(g, a, p, space);
    var mem' := Moved(mem, a, g[a].size, p);
    forall x | x in g' && mem'[x - 1].Length? && mem'[x - 1].isMutable
      ensures spaces[g'[x].space].isMutable
    {
      if x != p + 1 && x != a {
        OtherHeader(mem, g, a, p, x);
      }
    }
  }

  lemma MoveKeepsOutside(spaces: seq<Space>, mem0: seq<Word>, mem: seq<Word>, g: Shape, a: nat, p: nat, space: nat)
    requires OutsideKept(spaces, mem0, mem) && ShapeOk(spaces, g) && a in g
    requires InSpace(spaces, p + 1, Obj(g[a].size, space, p + 1))
    requires 0 < a && a + g[a].size <= |mem| && p + g[a].size < |mem|
    ensures OutsideKept(spaces, mem0, Moved(mem, a, g[a].size, p))
  {
    assert InSpace(spaces, a, g[a]);
  }
}
