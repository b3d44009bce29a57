/** Updating the addresses held in the retained objects of an area after they have been moved. */
module UpdatePhase {
  import opened Heap
  import opened Counting
  import opened Bitmaps
  import opened LocalSpaces

  /** A field with its pointer, if it is one, sent to where the object now is. */
  function Renamed(g: Shape, v: Word): Word {
    if v.Pointer? && v.addr in g then Pointer(g[v.addr].final) else v
  }

  /** An object outside the local spaces; it has a length word for its header. */
  predicate Permanent(spaces: seq<Space>, mem: seq<Word>, p: nat) {
    0 < p <= |mem| && Outside(spaces, p - 1) && mem[p - 1].Length?
  }

  /** What a field may hold: a tagged integer, zero or the address of an object. */
  predicate FieldOk(spaces: seq<Space>, g: Shape, mem: seq<Word>, v: Word) {
    v.Tagged? || v == Zero || (v.Pointer? && (v.addr in g || Permanent(spaces, mem, v.addr)))
  }

  /** A retained object whose words are fields. */
  predicate IsFields(g: Shape, mem: seq<Word>, a: nat)
    requires a in g && 0 < a <= |mem|
  {
    g[a].final == a && mem[a - 1].Length? && !mem[a - 1].isByte
  }

  ghost predicate FieldsOk(spaces: seq<Space>, g: Shape, mem: seq<Word>) {
    forall a, w: nat :: a in g && 0 < a <= w < a + g[a].size <= |mem| && IsFields(g, mem, a) ==> FieldOk(spaces, g, mem, mem[w])
  }

  /** The object at a after its fields up to, but not including, w have been updated. */
  ghost predicate UpdatedTo(g: Shape, before: seq<Word>, after: seq<Word>, a: nat, to: nat)
    requires a in g && 0 < a && a + g[a].size <= |before| == |after|
  {
    && after[a - 1] == before[a - 1]
    && forall w :: a <= w < a + g[a].size ==>
         after[w] == if IsFields(g, before, a) && w < to then Renamed(g, before[w]) else before[w]
  }

  /** The objects of space k whose headers lie in [lo, to). */
  ghost function ObjectsIn(g: Shape, k: nat, lo: nat, to: nat): set<nat> {
    set a | a in g && g[a].space == k && lo < a <= to
  }

  /** Those of them that are in their final places. */
  ghost function RetainedIn(g: Shape, k: nat, lo: nat, to: nat): set<nat> {
    set a | a in ObjectsIn(g, k, lo, to) && g[a].final == a
  }

  /** No object of space k straddles pos. */
  ghost predicate Between(g: Shape, k: nat, pos: nat) {
    forall a :: a in g && g[a].space == k ==> a + g[a].size <= pos || pos < a
  }

  /** The state of the scan of space k from lo at pos: all before has been updated or cleared, all else is as it was. */
  ghost predicate ScannedTo(g: Shape, bits: set<nat>, before: seq<Word>, after: seq<Word>, k: nat, lo: nat, pos: nat) {
    && |after| == |before|
    && (forall a :: a in ObjectsIn(g, k, lo, pos) ==>
          0 < a && a + g[a].size <= |before| && UpdatedTo(g, before, after, a, a + g[a].size))
    && (forall w :: lo <= w < pos && w < |after| && w !in bits ==> after[w] == Zero)
    && (forall w :: 0 <= w < |after| && (w < lo || pos <= w) ==> after[w] == before[w])
  }

  /** The area's fields and bitmap agree with the state the copy phase left for space k. */
  ghost predicate AreaOk(area: LocalMemSpace, spaces: seq<Space>, bits: set<nat>, upper: nat, k: nat)
    reads area, area.bitmap, area.bitmap.m_bits
  {
    && k < |spaces| && area.bottom == spaces[k].bottom && area.top == spaces[k].top
    && area.bottom <= upper == area.upperAllocPtr <= area.top && area.top - area.bottom <= area.bitmap.Size()
    && forall w: nat :: area.bottom <= w < area.top ==> (area.bitmap.TestBit(w - area.bottom) <==> w in bits)
  }

  // ---------- Following tombstones ----------

  /** The loop that follows tombstones ends at the object's final place. */
  method UpdateAddress(mem: array<Word>, start: nat, ghost g: Shape) returns (obj: nat)
    requires HeadersOk(mem[..], g) && start in g
    ensures obj == g[start].final && 0 < obj <= mem.Length && mem[obj - 1].Length? && mem[obj - 1].length == g[start].size
  {
    obj := start;
    assert HeaderOk(g, obj, mem[..][obj - 1]);
    while mem[obj - 1].Tombstone?
      invariant obj in g && 0 < obj <= mem.Length && g[obj].final == g[start].final
      invariant HeaderOk(g, obj, mem[..][obj - 1])
      decreases g[obj].space, mem.Length - obj
    {
      obj := mem[obj - 1].dest;
      assert HeaderOk(g, obj, mem[..][obj - 1]);
    }
    assert FinalOk(g, start);
  }

  /** One field: the answer is where the object it points to now is. */
  method ScanAddress(mem: array<Word>, v: Word, ghost spaces: seq<Space>, ghost g: Shape) returns (r: Word)
    requires HeadersOk(mem[..], g) && FieldOk(spaces, g, mem[..], v)
    ensures r == Renamed(g, v)
  {
    r := v;
    if !v.Tagged? && v != Zero {
      var obj := v.addr;
      if obj in g { assert HeaderOk(g, obj, mem[..][obj - 1]); }
      if mem[obj - 1].Tombstone? {
        obj := UpdateAddress(mem, obj, g);
        r := Pointer(obj);
      }
    }
  }

  // ---------- One object ----------

  /** No header lies within another object. */
  lemma FieldKeepsHeaders(spaces: seq<Space>, mem: seq<Word>, g: Shape, a: nat, w: nat, v: Word)
    requires ShapeOk(spaces, g) && HeadersOk(mem, g) && a in g && a <= w < a + g[a].size && w < |mem|
    ensures HeadersOk(mem[w := v], g)
  {
    hide FinalOk, HeaderOk;
    forall x | x in g
      ensures 0 < x <= |mem| && HeaderOk(g, x, mem[w := v][x - 1])
    {
      assert InSpace(spaces, x, g[x]);
      assert x != a ==> !Overlaps(a, g[a].size, x - 1, g[x].size + 1);
    }
  }

  lemma ClearKeepsHeaders(bits: set<nat>, mem: seq<Word>, g: Shape, w: nat, v: Word)
    requires BitsOk(bits, g) && HeadersOk(mem, g) && w < |mem| && w !in bits
    ensures HeadersOk(mem[w := v], g)
  {
    hide FinalOk, HeaderOk;
    forall x | x in g
      ensures 0 < x <= |mem| && HeaderOk(g, x, mem[w := v][x - 1])
    {
      var h: nat := x - 1;
      assert x in g && x - 1 <= h < x + g[x].size;
    }
  }

  /** Two memories that differ in the words of space k alone. */
  ghost predicate SameOutside(spaces: seq<Space>, before: seq<Word>, after: seq<Word>, k: nat) {
    && k < |spaces| && |after| == |before|
    && forall w :: 0 <= w < |after| && !(spaces[k].bottom <= w < spaces[k].top) ==> after[w] == before[w]
  }

  lemma FieldStillOk(spaces: seq<Space>, g: Shape, before: seq<Word>, after: seq<Word>, k: nat, v: Word)
    requires SameOutside(spaces, before, after, k) && FieldOk(spaces, g, before, v)
    ensures FieldOk(spaces, g, after, v)
  {
  }

  /** Update every field of the object at a. */
  method UpdateFields(mem: array<Word>, a: nat, length: nat,
                      ghost spaces: seq<Space>, ghost g: Shape, ghost k: nat, ghost before: seq<Word>)
    requires ShapeOk(spaces, g) && HeadersOk(mem[..], g) && SameOutside(spaces, before, mem[..], k)
    requires a in g && g[a].size == length && g[a].space == k
    requires 0 < a && a + length <= mem.Length && UpdatedTo(g, before, mem[..], a, a) && IsFields(g, before, a)
    requires FieldsOk(spaces, g, before)
    modifies mem
    ensures HeadersOk(mem[..], g) && UpdatedTo(g, before, mem[..], a, a + length)
    ensures forall w :: 0 <= w < mem.Length && !(a <= w < a + length) ==> mem[w] == old(mem[w])
  {
    hide HeadersOk, ShapeOk, FieldOk, Renamed, IsFields;
    assert InSpace(spaces, a, g[a]) by {
      ObjectInSpace(spaces, g, a);
    }
    var pt := a;
    while pt < a + length
      invariant a <= pt <= a + length
      invariant HeadersOk(mem[..], g) && SameOutside(spaces, before, mem[..], k)
      invariant UpdatedTo(g, before, mem[..], a, pt)
      invariant forall w :: 0 <= w < mem.Length && !(a <= w < a + length) ==> mem[w] == old(mem[w])
    {
      assert FieldOk(spaces, g, before, before[pt]);
      FieldStillOk(spaces, g, before, mem[..], k, before[pt]);
      var val := ScanAddress(mem, mem[pt], spaces, g);
      FieldKeepsHeaders(spaces, mem[..], g, a, pt, val);
      ghost var was := mem[..];
      mem[pt] := val;
      assert mem[..] == was[pt := val];
      pt := pt + 1;
    }
  }

  lemma ObjectInSpace(spaces: seq<Space>, g: Shape, a: nat)
    requires ShapeOk(spaces, g) && a in g
    ensures InSpace(spaces, a, g[a])
  {
  }

  // ---------- The scan of an area ----------

  ghost predicate AtBoundary(spaces: seq<Space>, g: Shape, bits: set<nat>, before: seq<Word>, after: seq<Word>,
                             k: nat, lo: nat, pos: nat, updated: nat) {
    && HeadersOk(after, g) && SameOutside(spaces, before, after, k)
    && ScannedTo(g, bits, before, after, k, lo, pos) && Between(g, k, pos)
    && updated == Total(g, RetainedIn(g, k, lo, pos))
  }

  lemma ScanStarts(spaces: seq<Space>, g: Shape, bits: set<nat>, mem: seq<Word>, k: nat, lo: nat)
    requires HeadersOk(mem, g) && k < |spaces| && Between(g, k, lo)
    ensures AtBoundary(spaces, g, bits, mem, mem, k, lo, lo, 0)
  {
    assert ObjectsIn(g, k, lo, lo) == {};
    assert RetainedIn(g, k, lo, lo) == {};
  }

  /** Words of an object are allocated. */
  lemma WordIsSet(bits: set<nat>, g: Shape, a: nat, w: nat)
    requires BitsOk(bits, g) && a in g && a - 1 <= w < a + g[a].size
    ensures w in bits
  {
  }

  lemma ClearWord(spaces: seq<Space>, g: Shape, bits: set<nat>, before: seq<Word>, after: seq<Word>,
                  k: nat, lo: nat, pos: nat, updated: nat)
    requires BitsOk(bits, g) && AtBoundary(spaces, g, bits, before, after, k, lo, pos, updated)
    requires lo <= pos < |after| && pos !in bits && spaces[k].bottom <= pos < spaces[k].top
    ensures AtBoundary(spaces, g, bits, before, after[pos := Zero], k, lo, pos + 1, updated)
  {
    hide HeadersOk, BitsOk, IsFields, Renamed;
    ClearKeepsHeaders(bits, after, g, pos, Zero);
    forall a | a in g
      ensures pos + 1 != a && (pos < a || a + g[a].size <= pos || g[a].space != k)
    {
      if pos + 1 == a {
        WordIsSet(bits, g, a, pos);
      }
    }
    assert ObjectsIn(g, k, lo, pos + 1) == ObjectsIn(g, k, lo, pos);
    assert RetainedIn(g, k, lo, pos + 1) == RetainedIn(g, k, lo, pos);
  }

  /** An allocated word at a boundary is an object's header. */
  lemma HeaderAt(spaces: seq<Space>, words: nat, g: Shape, bits: set<nat>, k: nat, pos: nat)
    requires SpacesOk(spaces, words) && ShapeOk(spaces, g) && BitsOk(bits, g) && k < |spaces| && Between(g, k, pos)
    requires pos in bits && spaces[k].bottom <= pos < spaces[k].top
    ensures pos + 1 in g && g[pos + 1].space == k && pos + 1 + g[pos + 1].size <= spaces[k].top
  {
    var a :| a in g && a - 1 <= pos < a + g[a].size;
    assert InSpace(spaces, a, g[a]);
  }

  /** What scanning the object at pos + 1 adds to the words counted. */
  function Counted(g: Shape, a: nat): nat
    requires a in g
  {
    if g[a].final == a then g[a].size + 1 else 0
  }

  lemma CountObject(spaces: seq<Space>, g: Shape, k: nat, lo: nat, pos: nat)
    requires ShapeOk(spaces, g) && pos + 1 in g && g[pos + 1].space == k && lo <= pos
    ensures ObjectsIn(g, k, lo, pos + 1 + g[pos + 1].size) == ObjectsIn(g, k, lo, pos) + {pos + 1}
    ensures Total(g, RetainedIn(g, k, lo, pos + 1 + g[pos + 1].size))
      == Total(g, RetainedIn(g, k, lo, pos)) + Counted(g, pos + 1)
  {
    var a := pos + 1;
    var s, s' := RetainedIn(g, k, lo, pos), RetainedIn(g, k, lo, a + g[a].size);
    forall x | x in g && x != a
      ensures !(a <= x <= a + g[a].size)
    {
      assert !Overlaps(a, g[a].size, x - 1, g[x].size + 1);
    }
    assert ObjectsIn(g, k, lo, a + g[a].size) == ObjectsIn(g, k, lo, pos) + {a};
    if g[a].final == a {
      assert s' - {a} == s;
      TotalWithout(g, s', a);
    } else {
      assert s' == s;
    }
  }

  lemma ObjectScanned(spaces: seq<Space>, words: nat, g: Shape, bits: set<nat>, before: seq<Word>, after: seq<Word>,
                      after': seq<Word>, k: nat, lo: nat, pos: nat, updated: nat)
    requires ShapeOk(spaces, g) && BitsOk(bits, g) && AtBoundary(spaces, g, bits, before, after, k, lo, pos, updated)
    requires pos + 1 in g && g[pos + 1].space == k && lo <= pos && pos + 1 + g[pos + 1].size <= |before|
    requires HeadersOk(after', g) && SameOutside(spaces, before, after', k)
    requires UpdatedTo(g, before, after', pos + 1, pos + 1 + g[pos + 1].size)
    requires forall w :: 0 <= w < |after| && !(pos + 1 <= w < pos + 1 + g[pos + 1].size) ==> after'[w] == after[w]
    ensures AtBoundary(spaces, g, bits, before, after', k, lo, pos + 1 + g[pos + 1].size,
                       updated + Counted(g, pos + 1))
  {
    hide HeadersOk, IsFields, Renamed, ShapeOk, BitsOk, Total;
    var a := pos + 1;
    CountObject(spaces, g, k, lo, pos);
    ObjectsBeside(spaces, g, a);
    forall x | x in ObjectsIn(g, k, lo, a + g[a].size)
      ensures 0 < x && x + g[x].size <= |before| && UpdatedTo(g, before, after', x, x + g[x].size)
    {
      assert x != a ==> UpdatedTo(g, before, after, x, x + g[x].size);
    }
    forall w: nat | lo <= w < a + g[a].size && w !in bits
      ensures after'[w] == Zero
    {
      if w >= pos {
        WordIsSet(bits, g, a, w);
      }
    }
  }

  lemma ObjectsBeside(spaces: seq<Space>, g: Shape, a: nat)
    requires ShapeOk(spaces, g) && a in g
    ensures forall x :: x in g && x != a ==> x + g[x].size < a || a + g[a].size < x
  {
    forall x | x in g && x != a
      ensures x + g[x].size < a || a + g[a].size < x
    {
      assert !Overlaps(a, g[a].size, x - 1, g[x].size + 1);
    }
  }

  /** Clear words up to the next allocated one or the top. */
  method ClearGap(mem: array<Word>, area: LocalMemSpace, from: nat, highest: nat,
                  ghost spaces: seq<Space>, ghost g: Shape, ghost bits: set<nat>, ghost before: seq<Word>,
                  ghost k: nat, ghost lo: nat, ghost updated: nat) returns (bitno: nat)
    requires AreaOk(area, spaces, bits, lo, k) && BitsOk(bits, g) && spaces[k].top <= mem.Length
    requires highest == area.top - area.bottom && from <= highest && lo <= area.bottom + from
    requires mem as object != area.bitmap.m_bits as object
    requires AtBoundary(spaces, g, bits, before, mem[..], k, lo, area.bottom + from, updated)
    modifies mem
    ensures from <= bitno <= highest && (bitno < highest ==> area.bitmap.TestBit(bitno))
    ensures AtBoundary(spaces, g, bits, before, mem[..], k, lo, area.bottom + bitno, updated)
  {
    hide AtBoundary, BitsOk;
    bitno := from;
    while bitno < highest && !area.bitmap.TestBit(bitno)
      invariant from <= bitno <= highest
      invariant AtBoundary(spaces, g, bits, before, mem[..], k, lo, area.bottom + bitno, updated)
    {
      ghost var was := mem[..];
      var pt := area.bottom + bitno;
      assert area.bitmap.TestBit(pt - area.bottom) <==> pt in bits;
      ClearWord(spaces, g, bits, before, was, k, lo, pt, updated);
      mem[pt] := Zero;
      assert mem[..] == was[pt := Zero];
      bitno := bitno + 1;
    }
  }

  /** One allocated object: skip it if it has moved, otherwise count it and update its fields. */
  method ScanObject(mem: array<Word>, obj: nat, ghost spaces: seq<Space>, ghost g: Shape, ghost k: nat,
                    ghost before: seq<Word>) returns (length: nat, counted: nat)
    requires ShapeOk(spaces, g) && HeadersOk(mem[..], g) && SameOutside(spaces, before, mem[..], k)
    requires FieldsOk(spaces, g, before) && obj in g && g[obj].space == k
    requires obj > 0 && obj + g[obj].size <= mem.Length
    requires forall w :: obj - 1 <= w < obj + g[obj].size ==> mem[w] == before[w]
    modifies mem
    ensures length == g[obj].size && counted == Counted(g, obj)
    ensures HeadersOk(mem[..], g) && SameOutside(spaces, before, mem[..], k)
    ensures UpdatedTo(g, before, mem[..], obj, obj + length)
    ensures forall w :: 0 <= w < mem.Length && !(obj <= w < obj + length) ==> mem[w] == old(mem[w])
  {
    hide FieldsOk, ShapeOk;
    var L := mem[obj - 1];
    assert HeaderOk(g, obj, mem[..][obj - 1]);
    if L.Tombstone? {
      var at := UpdateAddress(mem, obj, g);
      length, counted := mem[at - 1].length, 0;
    } else {
      length, counted := L.length, L.length + 1;
      if !L.isByte {
        assert InSpace(spaces, obj, g[obj]) by {
          ObjectInSpace(spaces, g, obj);
        }
        UpdateFields(mem, obj, length, spaces, g, k, before);
      }
    }
  }

  /**
   Scan an area from its retention limit to its top. Every retained object there has its pointers
   renamed, words that belong to no object are cleared, and the words of retained objects counted.
   */
  method UpdateObjectsInArea(mem: array<Word>, area: LocalMemSpace,
                             ghost spaces: seq<Space>, ghost g: Shape, ghost bits: set<nat>, ghost k: nat)
    returns (updated: nat)
    requires SpacesOk(spaces, mem.Length) && AreaOk(area, spaces, bits, area.upperAllocPtr, k)
    requires mem as object != area.bitmap.m_bits as object
    requires ShapeOk(spaces, g) && BitsOk(bits, g) && HeadersOk(mem[..], g) && FieldsOk(spaces, g, mem[..])
    requires Between(g, k, area.upperAllocPtr)
    modifies mem
    ensures AtBoundary(spaces, g, bits, old(mem[..]), mem[..], k, area.upperAllocPtr, spaces[k].top, updated)
  {
    hide FieldsOk, ShapeOk, BitsOk, HeadersOk, ScannedTo, RetainedIn;
    ghost var before, lo := mem[..], area.upperAllocPtr;
    var bitno, highest := area.upperAllocPtr - area.bottom, area.top - area.bottom;
    updated := 0;
    ScanStarts(spaces, g, bits, before, k, lo);
    while true
      invariant lo - area.bottom <= bitno <= highest
      invariant AtBoundary(spaces, g, bits, before, mem[..], k, lo, area.bottom + bitno, updated)
      decreases highest - bitno
    {
      bitno := ClearGap(mem, area, bitno, highest, spaces, g, bits, before, k, lo, updated);
      if bitno == highest {
        break;
      }
      ghost var was, pos := mem[..], area.bottom + bitno;
      assert area.bitmap.TestBit(pos - area.bottom) <==> pos in bits;
      HeaderAt(spaces, mem.Length, g, bits, k, pos);
      AheadUnchanged(g, bits, before, was, k, lo, pos);
      var length, counted := ScanObject(mem, area.bottom + bitno + 1, spaces, g, k, before);
      ObjectScanned(spaces, mem.Length, g, bits, before, was, mem[..], k, lo, pos, updated);
      bitno, updated := bitno + 1 + length, updated + counted;
    }
  }

  lemma AheadUnchanged(g: Shape, bits: set<nat>, before: seq<Word>, after: seq<Word>, k: nat, lo: nat, pos: nat)
    requires ScannedTo(g, bits, before, after, k, lo, pos)
    ensures |after| == |before| && forall w :: pos <= w < |after| ==> after[w] == before[w]
  {
  }
}
