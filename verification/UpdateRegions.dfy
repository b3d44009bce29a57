/** Updating the addresses held in the objects of permanent mutable areas. */
module UpdateRegions {
  import opened Heap
  import opened UpdatePhase

  datatype Region = Region(bottom: nat, top: nat)

  /** Objects with length words fill the words from lo to hi - 1 end to end. */
  predicate Filled(mem: seq<Word>, lo: nat, hi: nat)
    decreases hi - lo
  {
    lo == hi || (lo < hi <= |mem| && mem[lo].Length? && lo + 1 + mem[lo].length <= hi && Filled(mem, lo + 1 + mem[lo].length, hi))
  }

  predicate Amid(lo: int, w: int, hi: int) {
    lo <= w < hi
  }

  function Words(lo: nat, hi: nat): set<nat> {
    set w | lo <= w < hi && Amid(lo, w, hi)
  }

  /** The objects that fill them. */
  function RegionObjects(mem: seq<Word>, lo: nat, hi: nat): set<nat>
    requires Filled(mem, lo, hi)
    decreases hi - lo
  {
    if lo == hi then {} else {lo + 1} + RegionObjects(mem, lo + 1 + mem[lo].length, hi)
  }

  /** The words that are fields of those objects. */
  function RegionFields(mem: seq<Word>, lo: nat, hi: nat): set<nat>
    requires Filled(mem, lo, hi)
    decreases hi - lo
  {
    if lo == hi then {}
    else (if mem[lo].isByte then {} else Words(lo + 1, lo + 1 + mem[lo].length)) + RegionFields(mem, lo + 1 + mem[lo].length, hi)
  }

  predicate AllFilled(mem: seq<Word>, regions: seq<Region>) {
    forall i :: 0 <= i < |regions| ==> Filled(mem, regions[i].bottom, regions[i].top)
  }

  function AllObjects(mem: seq<Word>, regions: seq<Region>): set<nat>
    requires AllFilled(mem, regions)
  {
    if regions == [] then {}
    else var last := regions[|regions| - 1];
      AllObjects(mem, regions[..|regions| - 1]) + RegionObjects(mem, last.bottom, last.top)
  }

  function AllFields(mem: seq<Word>, regions: seq<Region>): set<nat>
    requires AllFilled(mem, regions)
  {
    if regions == [] then {}
    else var last := regions[|regions| - 1];
      AllFields(mem, regions[..|regions| - 1]) + RegionFields(mem, last.bottom, last.top)
  }

  predicate RegionsApart(regions: seq<Region>) {
    forall i, j :: 0 <= i < j < |regions| ==> regions[i].top <= regions[j].bottom || regions[j].top <= regions[i].bottom
  }

  /** The words of s, and no others, have been renamed. */
  ghost predicate Rewritten(g: Shape, before: seq<Word>, after: seq<Word>, s: set<nat>) {
    |after| == |before| && forall w :: 0 <= w < |before| ==> after[w] == if w in s then Renamed(g, before[w]) else before[w]
  }

  /** The words of s are fields outside the local spaces. */
  ghost predicate FieldWords(spaces: seq<Space>, g: Shape, mem: seq<Word>, s: set<nat>) {
    forall w :: w in s ==> w < |mem| && Outside(spaces, w) && FieldOk(spaces, g, mem, mem[w])
  }

  /** Renaming fields changes no header, so what was a field still is. */
  lemma StillField(spaces: seq<Space>, g: Shape, before: seq<Word>, after: seq<Word>, s: set<nat>, v: Word)
    requires Rewritten(g, before, after, s) && FieldWords(spaces, g, before, s) && FieldOk(spaces, g, before, v)
    ensures FieldOk(spaces, g, after, v)
  {
    hide Outside;
  }

  lemma OutsideKeepsHeaders(spaces: seq<Space>, mem: seq<Word>, g: Shape, w: nat, v: Word)
    requires ShapeOk(spaces, g) && HeadersOk(mem, g) && w < |mem| && Outside(spaces, w)
    ensures HeadersOk(mem[w := v], g)
  {
    hide FinalOk, HeaderOk;
    forall x | x in g
      ensures 0 < x <= |mem| && HeaderOk(g, x, mem[w := v][x - 1])
    {
      assert InSpace(spaces, x, g[x]);
    }
  }

  lemma OneMore(g: Shape, before: seq<Word>, after: seq<Word>, s: set<nat>, w: nat)
    requires Rewritten(g, before, after, s) && w < |before| && w !in s
    ensures |after| == |before| && after[w] == before[w] && Rewritten(g, before, after[w := Renamed(g, before[w])], s + {w})
  {
    hide Renamed;
  }

  /** Update the words of an object from the last to the first. */
  method ScanAddressesInObject(mem: array<Word>, obj: nat, length: nat, ghost spaces: seq<Space>, ghost g: Shape,
                               ghost before: seq<Word>, ghost s: set<nat>)
    requires ShapeOk(spaces, g) && HeadersOk(mem[..], g) && Rewritten(g, before, mem[..], s)
    requires s !! Words(obj, obj + length) && FieldWords(spaces, g, before, s + Words(obj, obj + length))
    modifies mem
    ensures HeadersOk(mem[..], g) && Rewritten(g, before, mem[..], s + Words(obj, obj + length))
  {
    hide HeadersOk, ShapeOk, Renamed, FieldOk, Rewritten, Outside;
    var end := obj + length;
    assert Words(end, end) == {} && s + {} == s;
    while end != obj
      invariant obj <= end <= obj + length && HeadersOk(mem[..], g)
      invariant Rewritten(g, before, mem[..], s + Words(end, obj + length))
    {
      var w := end - 1;
      ghost var done := s + Words(end, obj + length);
      assert w in Words(obj, obj + length) && done + {w} == s + Words(w, obj + length);
      assert FieldWords(spaces, g, before, done);
      OneMore(g, before, mem[..], done, w);
      StillField(spaces, g, before, mem[..], done, before[w]);
      OutsideKeepsHeaders(spaces, mem[..], g, w, Renamed(g, before[w]));
      ghost var was := mem[..];
      if mem[w].Tagged? || mem[w] == Zero {
        assert Renamed(g, mem[w]) == mem[w] by { NoAddress(g, mem[w]); }
        assert was == was[w := mem[w]];
      } else {
        mem[w] := ScanAddress(mem, mem[w], spaces, g);
        assert mem[..] == was[w := Renamed(g, before[w])];
      }
      end := w;
    }
  }

  lemma NoAddress(g: Shape, v: Word)
    requires v.Tagged? || v == Zero
    ensures Renamed(g, v) == v
  {
  }

  lemma {:induction false} FieldsWithin(mem: seq<Word>, lo: nat, hi: nat)
    requires Filled(mem, lo, hi)
    ensures RegionFields(mem, lo, hi) <= Words(lo, hi)
    decreases hi - lo
  {
    if lo != hi { FieldsWithin(mem, lo + 1 + mem[lo].length, hi); }
  }

  /** What is left to do after an object. */
  lemma NextObject(mem: seq<Word>, lo: nat, hi: nat)
    requires Filled(mem, lo, hi) && lo < hi
    ensures hi <= |mem| && mem[lo].Length? && lo + 1 + mem[lo].length <= hi && Filled(mem, lo + 1 + mem[lo].length, hi)
    ensures RegionFields(mem, lo, hi) ==
      (if mem[lo].isByte then {} else Words(lo + 1, lo + 1 + mem[lo].length)) + RegionFields(mem, lo + 1 + mem[lo].length, hi)
  {
  }

  /** Go through an area object by object. */
  method ScanAddressesInRegion(mem: array<Word>, region: nat, end: nat, ghost spaces: seq<Space>, ghost g: Shape,
                               ghost before: seq<Word>, ghost s: set<nat>)
    requires ShapeOk(spaces, g) && HeadersOk(mem[..], g) && Rewritten(g, before, mem[..], s)
    requires Filled(before, region, end) && s !! Words(region, end)
    requires FieldWords(spaces, g, before, s + RegionFields(before, region, end))
    modifies mem
    ensures HeadersOk(mem[..], g) && Rewritten(g, before, mem[..], s + RegionFields(before, region, end))
  {
    hide HeadersOk, ShapeOk, FieldOk, Outside, Filled, RegionFields;
    ghost var all := s + RegionFields(before, region, end);
    var pt := region;
    ghost var done := s;
    assert pt <= end by { FilledOrder(before, pt, end); }
    while pt < end
      invariant pt <= end && Filled(before, pt, end) && HeadersOk(mem[..], g) && Rewritten(g, before, mem[..], done)
      invariant done !! Words(pt, end) && done + RegionFields(before, pt, end) == all
    {
      NextObject(before, pt, end);
      assert pt in Words(pt, end);
      assert mem[pt] == before[pt];
      var length := mem[pt].length;
      if !mem[pt].isByte && length != 0 {
        FieldsWithin(before, pt + 1 + length, end);
        assert Words(pt + 1, pt + 1 + length) <= Words(pt, end);
        ScanAddressesInObject(mem, pt + 1, length, spaces, g, before, done);
        done := done + Words(pt + 1, pt + 1 + length);
      } else if length == 0 {
        assert Words(pt + 1, pt + 1) == {};
      }
      assert Words(pt + 1 + length, end) <= Words(pt, end);
      pt := pt + 1 + length;
    }
    assert RegionFields(before, end, end) == {} by { NoFields(before, end); }
  }

  lemma FilledOrder(mem: seq<Word>, lo: nat, hi: nat)
    requires Filled(mem, lo, hi)
    ensures lo <= hi
  {
  }

  lemma NoFields(mem: seq<Word>, lo: nat)
    ensures RegionFields(mem, lo, lo) == {}
  {
  }

  lemma {:induction false} AllFieldsWithin(mem: seq<Word>, regions: seq<Region>, w: nat)
    requires AllFilled(mem, regions) && w in AllFields(mem, regions)
    ensures exists i :: 0 <= i < |regions| && regions[i].bottom <= w < regions[i].top
  {
    var n := |regions| - 1;
    if w in AllFields(mem, regions[..n]) {
      AllFieldsWithin(mem, regions[..n], w);
      var i :| 0 <= i < n && regions[..n][i].bottom <= w < regions[..n][i].top;
      assert regions[i] == regions[..n][i];
    } else {
      FieldsWithin(mem, regions[n].bottom, regions[n].top);
    }
  }

  lemma FieldsSoFar(mem: seq<Word>, regions: seq<Region>, j: nat)
    requires AllFilled(mem, regions) && RegionsApart(regions) && j < |regions|
    ensures AllFields(mem, regions[..j + 1]) == AllFields(mem, regions[..j]) + RegionFields(mem, regions[j].bottom, regions[j].top)
    ensures AllFields(mem, regions[..j]) !! Words(regions[j].bottom, regions[j].top)
  {
    hide Filled, RegionFields;
    assert regions[..j + 1][..j] == regions[..j];
    forall w | w in AllFields(mem, regions[..j])
      ensures w !in Words(regions[j].bottom, regions[j].top)
    {
      AllFieldsWithin(mem, regions[..j], w);
    }
  }

  lemma {:induction false} FieldsOfMore(mem: seq<Word>, regions: seq<Region>, j: nat)
    requires AllFilled(mem, regions) && j <= |regions|
    ensures AllFields(mem, regions[..j]) <= AllFields(mem, regions)
    decreases |regions|
  {
    if j == |regions| {
      assert regions[..j] == regions;
    } else {
      var n := |regions| - 1;
      FieldsOfMore(mem, regions[..n], j);
      assert regions[..n][..j] == regions[..j];
    }
  }

  /** Update all permanent mutable areas. */
  method UpdatePermanent(mem: array<Word>, regions: seq<Region>, ghost spaces: seq<Space>, ghost g: Shape)
    requires ShapeOk(spaces, g) && HeadersOk(mem[..], g) && AllFilled(mem[..], regions) && RegionsApart(regions)
    requires FieldWords(spaces, g, mem[..], AllFields(mem[..], regions))
    modifies mem
    ensures HeadersOk(mem[..], g) && Rewritten(g, old(mem[..]), mem[..], AllFields(old(mem[..]), regions))
  {
    hide HeadersOk, ShapeOk, FieldOk, Outside, Filled, RegionFields, Rewritten, AllFields, RegionsApart;
    ghost var before := mem[..];
    assert AllFields(before, regions[..0]) == {} && Rewritten(g, before, before, {}) by { NothingYet(g, before, regions); }
    for j := 0 to |regions|
      invariant HeadersOk(mem[..], g) && Rewritten(g, before, mem[..], AllFields(before, regions[..j]))
    {
      FieldsSoFar(before, regions, j);
      FieldsOfMore(before, regions, j + 1);
      ScanAddressesInRegion(mem, regions[j].bottom, regions[j].top, spaces, g, before, AllFields(before, regions[..j]));
    }
    assert regions[..|regions|] == regions;
  }

  lemma NothingYet(g: Shape, mem: seq<Word>, regions: seq<Region>)
    ensures AllFields(mem, regions[..0]) == {} && Rewritten(g, mem, mem, {})
  {
  }

  // ---------- The objects of the areas ----------

  /** The fields of an object of an area are among those of the area, and its header is not. */
  lemma {:induction false} ObjectOfRegion(mem: seq<Word>, lo: nat, hi: nat, o: nat)
    requires Filled(mem, lo, hi) && o in RegionObjects(mem, lo, hi)
    ensures lo < o <= hi <= |mem| && mem[o - 1].Length? && o + mem[o - 1].length <= hi
    ensures !mem[o - 1].isByte ==> Words(o, o + mem[o - 1].length) <= RegionFields(mem, lo, hi)
    ensures mem[o - 1].isByte ==> Words(o, o + mem[o - 1].length) !! RegionFields(mem, lo, hi)
    decreases hi - lo
  {
    FieldsWithin(mem, lo + 1 + mem[lo].length, hi);
    if o != lo + 1 { ObjectOfRegion(mem, lo + 1 + mem[lo].length, hi, o); }
  }

  lemma {:induction false} ObjectOfAll(mem: seq<Word>, regions: seq<Region>, o: nat)
    requires AllFilled(mem, regions) && RegionsApart(regions) && o in AllObjects(mem, regions)
    ensures 0 < o <= |mem| && mem[o - 1].Length? && o + mem[o - 1].length <= |mem|
    ensures !mem[o - 1].isByte ==> Words(o, o + mem[o - 1].length) <= AllFields(mem, regions)
    ensures mem[o - 1].isByte ==> Words(o, o + mem[o - 1].length) !! AllFields(mem, regions)
    ensures exists i :: 0 <= i < |regions| && regions[i].bottom < o && o + mem[o - 1].length <= regions[i].top
  {
    hide Filled, RegionFields, RegionObjects;
    var n := |regions| - 1;
    var last := regions[n];
    FieldsWithin(mem, last.bottom, last.top);
    if o in RegionObjects(mem, last.bottom, last.top) {
      ObjectOfRegion(mem, last.bottom, last.top, o);
      FieldsSoFar(mem, regions, n);
    } else {
      ObjectOfAll(mem, regions[..n], o);
      var i :| 0 <= i < n && regions[..n][i].bottom < o && o + mem[o - 1].length <= regions[..n][i].top;
      assert regions[i] == regions[..n][i];
    }
  }

  /** The areas are as they were if their words are. */
  lemma {:induction false} SameRegion(mem: seq<Word>, mem': seq<Word>, lo: nat, hi: nat)
    requires Filled(mem, lo, hi) && |mem'| == |mem| && forall w :: lo <= w < hi && w < |mem| ==> mem'[w] == mem[w]
    ensures Filled(mem', lo, hi) && RegionFields(mem', lo, hi) == RegionFields(mem, lo, hi)
    decreases hi - lo
  {
    if lo != hi { SameRegion(mem, mem', lo + 1 + mem[lo].length, hi); }
  }

  /** No word of an area is in a local space. */
  predicate RegionsOutside(spaces: seq<Space>, regions: seq<Region>) {
    forall i, w :: 0 <= i < |regions| && regions[i].bottom <= w < regions[i].top ==> Outside(spaces, w)
  }

  lemma {:induction false} SameRegions(spaces: seq<Space>, mem: seq<Word>, mem': seq<Word>, regions: seq<Region>)
    requires AllFilled(mem, regions) && RegionsOutside(spaces, regions) && OutsideKept(spaces, mem, mem')
    ensures AllFilled(mem', regions) && AllFields(mem', regions) == AllFields(mem, regions)
  {
    hide Outside, Filled, RegionFields;
    forall i | 0 <= i < |regions|
      ensures Filled(mem', regions[i].bottom, regions[i].top)
      ensures RegionFields(mem', regions[i].bottom, regions[i].top) == RegionFields(mem, regions[i].bottom, regions[i].top)
    {
      SameRegion(mem, mem', regions[i].bottom, regions[i].top);
    }
    if regions != [] {
      SameRegions(spaces, mem, mem', regions[..|regions| - 1]);
    }
  }

  /** A field of the areas is one of an object that has fields. */
  lemma {:induction false} FieldOfObject(mem: seq<Word>, lo: nat, hi: nat, w: nat) returns (o: nat)
    requires Filled(mem, lo, hi) && w in RegionFields(mem, lo, hi)
    ensures o in RegionObjects(mem, lo, hi) && 0 < o <= |mem| && mem[o - 1].Length? && !mem[o - 1].isByte
    ensures o <= w < o + mem[o - 1].length
    decreases hi - lo
  {
    if !mem[lo].isByte && w in Words(lo + 1, lo + 1 + mem[lo].length) {
      o := lo + 1;
    } else {
      o := FieldOfObject(mem, lo + 1 + mem[lo].length, hi, w);
    }
  }

  lemma {:induction false} FieldOfAll(mem: seq<Word>, regions: seq<Region>, w: nat) returns (o: nat)
    requires AllFilled(mem, regions) && w in AllFields(mem, regions)
    ensures o in AllObjects(mem, regions) && 0 < o <= |mem| && mem[o - 1].Length? && !mem[o - 1].isByte
    ensures o <= w < o + mem[o - 1].length
  {
    hide Filled, RegionFields, RegionObjects;
    var n := |regions| - 1;
    if w in RegionFields(mem, regions[n].bottom, regions[n].top) {
      o := FieldOfObject(mem, regions[n].bottom, regions[n].top, w);
    } else {
      o := FieldOfAll(mem, regions[..n], w);
    }
  }
}
