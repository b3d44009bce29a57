/** Putting the headers back after an export, and the export as a whole. */
module ExportRepair {
  import opened Heap
  import opened ExportState
  import opened Exporting

  /** Memory while headers are being put back: each word is as the copying left it or as it was before. */
  ghost predicate Repairing(S: Setting, x: Export, mem: seq<Word>) {
    && |mem| == |x.mem| == |S.orig|
    && forall w :: 0 <= w < |mem| ==> mem[w] == x.mem[w] || (w < S.limit && mem[w] == S.orig[w])
  }

  /** Words that are as they were before the export stay so. */
  ghost predicate Nearer(S: Setting, mem: seq<Word>, mem': seq<Word>) {
    && |mem'| == |mem| == |S.orig|
    && forall w :: 0 <= w < |mem| ==> mem'[w] == mem[w] || mem'[w] == S.orig[w]
  }

  /** An object of the heap or a copy, and the length word that is found for it. */
  ghost predicate LengthOf(S: Setting, x: Export, obj: nat, header: Word) {
    if obj in S.g then S.g[obj].final in S.g && 0 < S.g[obj].final <= |S.orig| && header == S.orig[S.g[obj].final - 1]
    else exists a :: a in x.copies && x.copies[a] == obj && 0 < a <= |S.orig| && header == S.orig[a - 1]
  }

  predicate IsKnown(S: Setting, x: Export, obj: nat) {
    obj in S.g || exists a :: a in x.copies && x.copies[a] == obj
  }

  /** What is found at an object of the heap. */
  lemma HeapHeader(S: Setting, x: Export, mem: seq<Word>, obj: nat)
    requires ExportOk(S, x) && Repairing(S, x, mem) && obj in S.g
    ensures 0 < obj <= |mem| && obj < S.limit && HeaderOk(S.g, obj, S.orig[obj - 1]) && FinalOk(S.g, obj)
    ensures mem[obj - 1] == S.orig[obj - 1] || (obj in x.copies && mem[obj - 1] == Tombstone(x.copies[obj]))
    ensures obj in x.copies ==> S.orig[obj - 1].Length? && InExport(x.spaces, x.copies[obj]) && x.copies[obj] !in S.g
    ensures S.orig[obj - 1].Tombstone? ==> !InExport(x.spaces, S.orig[obj - 1].dest)
  {
    hide WordsOk, HeaderOk, FinalOk, Closed;
    GInOrder(S, obj);
    HeaderNow(S, x, obj);
    if obj in x.copies { CopyInExport(S, x, obj); }
    if S.orig[obj - 1].Tombstone? { NotExported(S, x, S.orig[obj - 1].dest); }
  }

  lemma GInOrder(S: Setting, obj: nat)
    requires SettingOk(S) && obj in S.g
    ensures 0 < obj <= |S.orig| && obj < S.limit && HeaderOk(S.g, obj, S.orig[obj - 1]) && FinalOk(S.g, obj)
    ensures S.orig[obj - 1].Tombstone? ==> S.orig[obj - 1].dest in S.g && S.orig[obj - 1].dest < S.limit
  {
    hide Closed, FinalOk;
    assert HeaderOk(S.g, obj, S.orig[obj - 1]);
  }

  lemma CopyInExport(S: Setting, x: Export, a: nat)
    requires ExportOk(S, x) && a in x.copies
    ensures a in S.g && 0 < a <= |S.orig| && S.orig[a - 1].Length? && S.limit < x.copies[a] <= |x.mem|
    ensures InExport(x.spaces, x.copies[a]) && x.copies[a] !in S.g && x.mem[x.copies[a] - 1] == S.orig[a - 1]
  {
    hide HeapKept, GravesOk, WordsOk, HeadersOk, Closed;
    assert CopyAt(S, x, a, x.copies[a]);
    SizesKnown(S, a);
    var i :| 0 <= i < |x.spaces| && Holds(x.spaces[i], S.orig[a - 1], x.copies[a]);
    assert x.spaces[i].bottom <= x.copies[a] < x.spaces[i].top;
  }

  /** The length word of an object, through tombstones; one that leads to an export space gives way to the length word. */
  method GetObjLength(mem: array<Word>, spaces: seq<ExportSpace>, obj: nat, ghost S: Setting, ghost x: Export)
    returns (length: Word)
    requires ExportOk(S, x) && Repairing(S, x, mem[..]) && spaces == x.spaces && IsKnown(S, x, obj)
    modifies mem
    ensures Repairing(S, x, mem[..]) && Nearer(S, old(mem[..]), mem[..]) && LengthOf(S, x, obj, length)
    ensures obj in S.g ==> 0 < obj <= mem.Length && mem[obj - 1] == S.orig[obj - 1]
    decreases if obj in S.g then S.g[obj].space + 1 else 0, mem.Length - obj
  {
    hide ExportOk, HeaderOk, FinalOk, InExport, LeadsOn, Above;
    if obj in S.g {
      HeapHeader(S, x, mem[..], obj);
      HeaderKinds(S, obj);
    } else {
      ghost var a :| a in x.copies && x.copies[a] == obj;
      CopyInExport(S, x, a);
    }
    if mem[obj - 1].Tombstone? {
      var forwardedTo := mem[obj - 1].dest;
      length := GetObjLength(mem, spaces, forwardedTo, S, x);
      if InExport(spaces, forwardedTo) {
        assert obj in x.copies && x.copies[obj] == forwardedTo;
        OneLength(S, x, obj, length);
        mem[obj - 1] := length;
      }
    } else {
      length := mem[obj - 1];
    }
  }

  lemma HeaderKinds(S: Setting, obj: nat)
    requires obj in S.g && 0 < obj <= |S.orig| && HeaderOk(S.g, obj, S.orig[obj - 1]) && FinalOk(S.g, obj)
    ensures S.orig[obj - 1].Length? || S.orig[obj - 1].Tombstone?
    ensures S.orig[obj - 1].Length? ==> S.g[obj].final == obj && S.orig[obj - 1].length == S.g[obj].size
    ensures S.orig[obj - 1].Tombstone? ==> LeadsOn(S.g, obj, S.orig[obj - 1].dest) && S.orig[obj - 1].dest in S.g
    ensures S.orig[obj - 1].Tombstone? ==> S.g[S.orig[obj - 1].dest].final == S.g[obj].final
    ensures S.orig[obj - 1].Tombstone? ==> Above(S.orig[obj - 1].dest, S.g[S.orig[obj - 1].dest].space, obj, S.g[obj].space)
  {
  }

  /** A copy is the copy of one object only. */
  lemma OneLength(S: Setting, x: Export, obj: nat, length: Word)
    requires ExportOk(S, x) && obj in x.copies && LengthOf(S, x, x.copies[obj], length)
    ensures 0 < obj <= |S.orig| && length == S.orig[obj - 1]
  {
    hide SettingOk, HeapKept, GravesOk, WordsOk, ExportSpacesOk, Housed, NotSpare;
    CopyInExport(S, x, obj);
    var a: nat :| a in x.copies && x.copies[a] == x.copies[obj] && 0 < a <= |S.orig| && length == S.orig[a - 1];
    CopyInExport(S, x, a);
    assert a != obj ==> Apart(S, a, x.copies[a], obj, x.copies[obj]);
  }

  // ---------- One area, and all of them ----------

  /** Objects fill the words from lo to hi - 1 end to end. */
  ghost predicate Filled(g: Shape, lo: nat, hi: nat)
    decreases hi - lo
  {
    lo == hi || (lo < hi && lo + 1 in g && lo + 1 + g[lo + 1].size <= hi && Filled(g, lo + 1 + g[lo + 1].size, hi))
  }

  /** The headers of the objects of the heap from lo to hi - 1 are as before the export. */
  ghost predicate Repaired(S: Setting, mem: seq<Word>, lo: nat, hi: nat) {
    forall a :: a in S.g && lo < a <= hi && a <= |mem| == |S.orig| ==> mem[a - 1] == S.orig[a - 1]
  }

  lemma FilledNext(g: Shape, lo: nat, hi: nat)
    requires Filled(g, lo, hi) && lo < hi
    ensures lo + 1 in g && lo + 1 + g[lo + 1].size <= hi && Filled(g, lo + 1 + g[lo + 1].size, hi)
  {
  }

  lemma StaysRepaired(S: Setting, mem: seq<Word>, mem': seq<Word>, lo: nat, hi: nat)
    requires Repaired(S, mem, lo, hi) && Nearer(S, mem, mem')
    ensures Repaired(S, mem', lo, hi)
  {
  }

  lemma NearerTwice(S: Setting, m0: seq<Word>, m1: seq<Word>, m2: seq<Word>)
    requires Nearer(S, m0, m1) && Nearer(S, m1, m2)
    ensures Nearer(S, m0, m2)
  {
  }

  /** The length found for an object is its size, whether it has been moved, copied or neither. */
  lemma LengthIsSize(S: Setting, x: Export, obj: nat, length: Word)
    requires ExportOk(S, x) && obj in S.g && LengthOf(S, x, obj, length)
    ensures length.Length? && length.length == S.g[obj].size
  {
    hide HeaderOk, LeadsOn, Closed;
    GInOrder(S, obj);
    var f := S.g[obj].final;
    GInOrder(S, f);
    HeaderKinds(S, f);
    assert FinalOk(S.g, obj);
  }

  lemma NextRepaired(S: Setting, mem: seq<Word>, lo: nat, pos: nat)
    requires SettingOk(S) && pos + 1 in S.g && Repaired(S, mem, lo, pos) && lo <= pos < |mem| && mem[pos] == S.orig[pos]
    ensures Repaired(S, mem, lo, pos + 1 + S.g[pos + 1].size)
  {
    hide HeadersOk, Closed;
    forall a | a in S.g && lo < a <= pos + 1 + S.g[pos + 1].size && a <= |mem| == |S.orig|
      ensures mem[a - 1] == S.orig[a - 1]
    {
      if a > pos { NotInside(S, pos + 1, a); }
    }
  }

  /** Go through an area object by object, putting headers back. */
  method FixForwarding(mem: array<Word>, spaces: seq<ExportSpace>, start: nat, n: nat, ghost S: Setting, ghost x: Export)
    requires ExportOk(S, x) && Repairing(S, x, mem[..]) && spaces == x.spaces && Filled(S.g, start, start + n)
    modifies mem
    ensures Repairing(S, x, mem[..]) && Nearer(S, old(mem[..]), mem[..]) && Repaired(S, mem[..], start, start + n)
  {
    hide ExportOk, Repairing, Nearer, LengthOf, Repaired, Filled, SettingOk;
    ghost var m0 := mem[..];
    var pt, space := start, n;
    assert Nearer(S, m0, m0) by { NearerStart(S, x, m0); }
    assert Repaired(S, m0, start, start) by { NoneToRepair(S, m0, start); }
    while space != 0
      invariant start <= pt && 0 <= space && pt + space == start + n && Filled(S.g, pt, start + n)
      invariant Repairing(S, x, mem[..]) && Nearer(S, m0, mem[..]) && Repaired(S, mem[..], start, pt)
    {
      ghost var m1 := mem[..];
      var obj := pt + 1;
      FilledNext(S.g, pt, start + n);
      var header := GetObjLength(mem, spaces, obj, S, x);
      LengthIsSize(S, x, obj, header);
      NearerTwice(S, m0, m1, mem[..]);
      StaysRepaired(S, m1, mem[..], start, pt);
      assert SettingOk(S) by { ExportSetting(S, x); }
      NextRepaired(S, mem[..], start, pt);
      assert space > header.length;
      pt := obj + header.length;
      space := space - (header.length + 1);
    }
  }

  lemma NearerStart(S: Setting, x: Export, mem: seq<Word>)
    requires Repairing(S, x, mem)
    ensures Nearer(S, mem, mem)
  {
  }

  lemma NoneToRepair(S: Setting, mem: seq<Word>, lo: nat)
    ensures Repaired(S, mem, lo, lo)
  {
  }

  lemma ExportSetting(S: Setting, x: Export)
    requires ExportOk(S, x)
    ensures SettingOk(S)
  {
  }

  /** The parts of an area that have objects are filled with them. */
  ghost predicate AreaOk(g: Shape, area: Area) {
    match area.kind
    case Io => true
    case Local =>
      area.bottom <= area.lower && area.upper <= area.top && Filled(g, area.bottom, area.lower) && Filled(g, area.upper, area.top)
    case Permanent(_, _) => area.bottom <= area.top && Filled(g, area.bottom, area.top)
  }

  /** The object at a is in the area. */
  predicate InArea(area: Area, a: nat) {
    match area.kind
    case Io => false
    case Local => area.bottom < a <= area.lower || area.upper < a <= area.top
    case Permanent(_, _) => area.bottom < a <= area.top
  }

  /** Every object is in one of the areas. */
  ghost predicate AreasOk(S: Setting) {
    && (forall k :: 0 <= k < |S.areas| ==> AreaOk(S.g, S.areas[k]))
    && (forall a :: a in S.g ==> exists k :: 0 <= k < |S.areas| && InArea(S.areas[k], a))
  }

  /** The objects of one area have their headers back. */
  ghost predicate AreaRepaired(S: Setting, mem: seq<Word>, area: Area) {
    forall a :: a in S.g && InArea(area, a) && a <= |mem| == |S.orig| ==> mem[a - 1] == S.orig[a - 1]
  }

  method FixArea(mem: array<Word>, spaces: seq<ExportSpace>, area: Area, ghost S: Setting, ghost x: Export)
    requires ExportOk(S, x) && Repairing(S, x, mem[..]) && spaces == x.spaces && AreaOk(S.g, area)
    modifies mem
    ensures Repairing(S, x, mem[..]) && Nearer(S, old(mem[..]), mem[..]) && AreaRepaired(S, mem[..], area)
  {
    hide ExportOk, Repairing, Nearer, Filled;
    ghost var m0 := mem[..];
    match area.kind {
      case Io =>
        NearerStart(S, x, m0);
      case Local =>
        FixForwarding(mem, spaces, area.bottom, area.lower - area.bottom, S, x);
        ghost var m1 := mem[..];
        FixForwarding(mem, spaces, area.upper, area.top - area.upper, S, x);
        StaysRepaired(S, m1, mem[..], area.bottom, area.lower);
        NearerTwice(S, m0, m1, mem[..]);
      case Permanent(_, _) =>
        FixForwarding(mem, spaces, area.bottom, area.top - area.bottom, S, x);
    }
  }

  /** When every area has been gone through, the heap is as it was before the export. */
  lemma AllRepaired(S: Setting, x: Export, mem: seq<Word>)
    requires ExportOk(S, x) && Repairing(S, x, mem) && AreasOk(S)
    requires forall k :: 0 <= k < |S.areas| ==> AreaRepaired(S, mem, S.areas[k])
    ensures S.limit <= |mem| == |S.orig| && mem[..S.limit] == S.orig[..S.limit]
  {
    hide AreaOk, InArea, CopiesOk, WordsOk, ExportSpacesOk, GravesOk, ReadOnly;
    SettingLimit(S);
    hide SettingOk;
    forall w | 0 <= w < S.limit
      ensures mem[w] == S.orig[w]
    {
      if w + 1 in x.copies {
        CopyInExport(S, x, w + 1);
        var k :| 0 <= k < |S.areas| && InArea(S.areas[k], w + 1);
        assert AreaRepaired(S, mem, S.areas[k]);
      }
    }
  }

  // ---------- The export ----------

  /** The copy of the object at a: the same header, and the same words but for the addresses of what was exported. */
  ghost predicate CopyIs(S: Setting, spaces: seq<ExportSpace>, copies: map<nat, nat>, mem: seq<Word>, a: nat) {
    && a in copies && IsObject(S, a) && S.limit < copies[a] && copies[a] + S.g[a].size <= |mem|
    && mem[copies[a] - 1] == S.orig[a - 1] && Housed(spaces, S.orig[a - 1], copies[a])
    && forall i: nat :: i < S.g[a].size ==> WordIs(S, copies, mem, a, i)
  }

  /** Word i of that copy. */
  predicate WordIs(S: Setting, copies: map<nat, nat>, mem: seq<Word>, a: nat, i: nat) {
    && 0 < a && a + i < |S.orig| && S.orig[a - 1].Length? && a in copies && copies[a] + i < |mem|
    && var v, v' := S.orig[a + i], mem[copies[a] + i];
    if S.orig[a - 1].isByte then v' == v else Translated(S, copies, v, v')
  }

  /** The copies are of a set of objects with all they lead to, in places of their own. */
  ghost predicate Exported(S: Setting, spaces: seq<ExportSpace>, copies: map<nat, nat>, mem: seq<Word>) {
    && Closed(S, copies.Keys) && copies.Keys <= S.live
    && (forall a :: a in copies ==> CopyIs(S, spaces, copies, mem, a))
    && (forall a, b :: a in copies && b in copies && a != b && a in S.g && b in S.g ==> Apart(S, a, copies[a], b, copies[b]))
  }

  lemma CopiedObject(S: Setting, x: Export, mem: seq<Word>, a: nat)
    requires ExportOk(S, x) && x.todo == {} && a in x.copies && |mem| == |x.mem|
    requires forall w :: S.limit <= w < |mem| ==> mem[w] == x.mem[w]
    ensures CopyIs(S, x.spaces, x.copies, mem, a) && a in S.live
  {
    hide SettingOk, HeapKept, GravesOk, ExportSpacesOk, Translated, Housed, NotSpare;
    assert CopyAt(S, x, a, x.copies[a]);
    forall i: nat | i < S.g[a].size
      ensures WordIs(S, x.copies, mem, a, i)
    {
      assert WordOk(S, x, a, i);
    }
  }

  lemma CopiedCloses(S: Setting, x: Export, mem: seq<Word>, a: nat)
    requires ExportOk(S, x) && CopyIs(S, x.spaces, x.copies, mem, a) && a in S.live
    ensures ClosedAt(S, x.copies.Keys, a)
  {
    hide SettingOk, HeapKept, GravesOk, ExportSpacesOk, CopiesOk, WordsOk, Housed, FieldOk;
    SettingLimit(S);
    assert ClosedAt(S, S.live, a);
    hide Closed;
    if !S.orig[a - 1].isByte {
      forall w | a <= w < a + S.g[a].size
        ensures FieldOk(S, S.orig[w]) && (ToCopy(S, S.orig[w]) ==> S.orig[w].addr in x.copies.Keys)
      {
        var i: nat := w - a;
        assert WordIs(S, x.copies, mem, a, i);
      }
    }
  }

  /** When no word waits the copy is complete. */
  lemma CopyComplete(S: Setting, x: Export, mem: seq<Word>)
    requires ExportOk(S, x) && x.todo == {} && Repairing(S, x, mem)
    ensures Exported(S, x.spaces, x.copies, mem)
  {
    hide SettingOk, HeapKept, GravesOk, ExportSpacesOk, WordsOk, CopyIs, ClosedAt, CopyAt;
    forall a | a in x.copies
      ensures CopyIs(S, x.spaces, x.copies, mem, a) && a in S.live && ClosedAt(S, x.copies.Keys, a)
    {
      CopiedObject(S, x, mem, a);
      CopiedCloses(S, x, mem, a);
    }
  }

  /**
   An address that is not of the heap exported: outside all areas, in the area of the run-time system, or in a
   permanent area of a level below the one exported.
   */
  predicate Foreign(areas: seq<Area>, hierarchy: nat, addr: nat) {
    match AreaAt(areas, addr)
    case None => true
    case Some(area) =>
      match area.kind
      case Io => true
      case Local => false
      case Permanent(_, level) => level < hierarchy
  }

  /** The field led to an object that had been moved and not been followed to its new place. */
  predicate LedToTombstone(orig: seq<Word>, v: Word) {
    v.Pointer? && 0 < v.addr <= |orig| && orig[v.addr - 1].Tombstone?
  }

  /** Word i of the copy of the object at a, if it is an address, leads into the export or is foreign. */
  ghost predicate FieldStandsAlone(S: Setting, spaces: seq<ExportSpace>, copies: map<nat, nat>, mem: seq<Word>, a: nat, i: nat) {
    && 0 < a && a + i < |S.orig| && S.orig[a - 1].Length? && a in copies && copies[a] + i < |mem|
    && (!S.orig[a - 1].isByte && mem[copies[a] + i].Pointer? && !LedToTombstone(S.orig, S.orig[a + i]) ==>
          InExport(spaces, mem[copies[a] + i].addr) || Foreign(S.areas, S.hierarchy, mem[copies[a] + i].addr))
  }

  /** So it is with every field of a copy, but for fields that led to tombstones. */
  ghost predicate SelfContained(S: Setting, spaces: seq<ExportSpace>, copies: map<nat, nat>, mem: seq<Word>) {
    forall a, i: nat :: a in copies && a in S.g && i < S.g[a].size ==> FieldStandsAlone(S, spaces, copies, mem, a, i)
  }

  lemma CopyHoused(S: Setting, spaces: seq<ExportSpace>, copies: map<nat, nat>, mem: seq<Word>, a: nat)
    requires CopyIs(S, spaces, copies, mem, a)
    ensures InExport(spaces, copies[a])
  {
    hide WordIs;
    var i :| 0 <= i < |spaces| && Holds(spaces[i], S.orig[a - 1], copies[a]);
    assert spaces[i].bottom <= copies[a] < spaces[i].top;
  }

  /** What is exported needs nothing of the heap it comes from, and foreign addresses are kept. */
  lemma ExportStandsAlone(S: Setting, spaces: seq<ExportSpace>, copies: map<nat, nat>, mem: seq<Word>)
    requires Exported(S, spaces, copies, mem)
    ensures SelfContained(S, spaces, copies, mem)
    ensures forall a, i: nat :: a in copies && a in S.g && i < S.g[a].size ==> KeepsForeign(S, copies, mem, a, i)
  {
    hide Closed, InExport, Housed, AreaAt;
    forall a, i: nat | a in copies && a in S.g && i < S.g[a].size
      ensures FieldStandsAlone(S, spaces, copies, mem, a, i) && KeepsForeign(S, copies, mem, a, i)
    {
      assert CopyIs(S, spaces, copies, mem, a) && WordIs(S, copies, mem, a, i);
      var v := S.orig[a + i];
      if ToCopy(S, v) && v.addr in copies { CopyHoused(S, spaces, copies, mem, v.addr); }
    }
  }

  /** Word i of the copy of the object at a is as it was if it led to nothing that is exported. */
  ghost predicate KeepsForeign(S: Setting, copies: map<nat, nat>, mem: seq<Word>, a: nat, i: nat) {
    && 0 < a && a + i < |S.orig| && a in copies && copies[a] + i < |mem|
    && (S.orig[a + i].Pointer? && Foreign(S.areas, S.hierarchy, S.orig[a + i].addr) ==>
          mem[copies[a] + i] == S.orig[a + i])
  }

  /** The root is to be copied, and the first request for an area is refused. */
  predicate RootRefused(S: Setting, root: nat, supply: seq<nat>, immSize: nat, mutSize: nat, noOverSize: nat) {
    && ToCopy(S, Pointer(root)) && S.orig[root - 1].Length?
    && !(|supply| > 0 && SizeAsked(S.orig[root - 1], immSize, mutSize, noOverSize) <= supply[0] <= |S.orig| - S.limit)
  }

  /** A live object of the kind for which memory is set before it is known to be there. */
  predicate MutableBytes(S: Setting, a: nat) {
    a in S.live && 0 < a <= |S.orig| && S.orig[a - 1].Length? && S.orig[a - 1].isMutable && S.orig[a - 1].isByte
  }

  /**
   Copy the root and all it leads to, then put every header back. Whether the copying is completed or
   stopped for want of memory, the heap is left as it was before, unless a null address has been used;
   that takes a mutable byte object for which there is no memory. If the copying is completed, the copies are
   those of the root and exactly what it leads to; for live may be any set that has the root and is closed.
   */
  method RunExport(mem: array<Word>, graves: array<Word>, areas: seq<Area>, limit: nat, root: nat, initialised: bool,
                   immSize: nat, mutSize: nat, noOverSize: nat, supply: seq<nat>, ghost g: Shape, ghost live: set<nat>)
    returns (how: Outcome, copiedRoot: Option<nat>, spaces: seq<ExportSpace>, ghost copies: map<nat, nat>)
    requires mem != graves && graves.Length == mem.Length && forall w :: 0 <= w < graves.Length ==> graves[w] == Zero
    requires SettingOk(Setting(mem[..], g, areas, limit, 0, live)) && AreasOk(Setting(mem[..], g, areas, limit, 0, live))
    requires root in live && ExportState.FieldOk(Setting(mem[..], g, areas, limit, 0, live), Pointer(root))
    modifies mem, graves
    ensures !how.NullUse? ==> limit <= mem.Length && mem[..limit] == old(mem[..limit])
    ensures copiedRoot.Some? <==> how.Went?
    ensures copiedRoot.Some? ==> Exported(Setting(old(mem[..]), g, areas, limit, 0, live), spaces, copies, mem[..])
    ensures copiedRoot.Some? ==>
      Translated(Setting(old(mem[..]), g, areas, limit, 0, live), copies, Pointer(root), Pointer(copiedRoot.value))
    ensures copiedRoot.Some? ==>
      SelfContained(Setting(old(mem[..]), g, areas, limit, 0, live), spaces, copies, mem[..])
    ensures how.NullUse? ==> initialised && exists a :: MutableBytes(Setting(old(mem[..]), g, areas, limit, 0, live), a)
    ensures old(initialised && RootRefused(Setting(mem[..], g, areas, limit, 0, live), root, supply, immSize, mutSize, noOverSize)) ==>
      how == Failure(old(mem[root - 1]))
  {
    hide SettingOk, ExportOk, Repairing, AreasOk, AreaRepaired, Exported, SelfContained, Translated, FieldOk, AreaOk, ToCopy;
    ghost var S := Setting(mem[..], g, areas, limit, 0, live);
    SettingLimit(S);
    how, copiedRoot := NoMemory, None;
    var copyScan := new CopyScan(mem, graves, areas, limit, 0, immSize, mutSize, noOverSize, supply, g, live);
    if initialised {
      var r;
      how, r := copyScan.ScanObjectAddress(root);
      if how.Went? { copiedRoot := Some(r); }
    }
    spaces := copyScan.eSpaces;
    ghost var x := copyScan.Now();
    copies := x.copies;
    if how.NullUse? {
      assert exists a :: MutableBytes(S, a) by { StarvedByBytes(copyScan, S); }
      return;
    }
    assert Repairing(S, x, mem[..]) by { RepairStarts(S, x); }
    for j := 0 to |areas|
      invariant Repairing(S, x, mem[..]) && forall k :: 0 <= k < j ==> AreaRepaired(S, mem[..], areas[k])
    {
      ghost var m := mem[..];
      assert AreaOk(g, areas[j]) by { AreasKnown(S); }
      FixArea(mem, spaces, areas[j], S, x);
      AreasStay(S, m, mem[..], j);
    }
    AllRepaired(S, x, mem[..]);
    if copiedRoot.Some? {
      CopyComplete(S, x, mem[..]);
      ExportStandsAlone(S, spaces, copies, mem[..]);
    }
  }

  lemma OnlyBytesFail(header: Word)
    requires header.Length? && Failure(header) == NullUse
    ensures header.isMutable && header.isByte
  {
  }

  lemma StarvedByBytes(copyScan: CopyScan, S: Setting)
    requires copyScan.Starved(NullUse) && S == copyScan.Fixed()
    ensures exists a :: MutableBytes(S, a)
  {
    var a :| a in S.live && 0 < a <= |S.orig| && S.orig[a - 1].Length? && NullUse == Failure(S.orig[a - 1]);
    OnlyBytesFail(S.orig[a - 1]);
    assert MutableBytes(S, a);
  }

  /** One mutable byte object, and no memory at all: the export uses a null address. */
  method ExportWithoutMemory() returns (how: Outcome)
    ensures how == NullUse
  {
    var header := Length(1, true, true, false);
    var mem, graves := new Word[2](i => if i == 0 then header else Tagged(0)), new Word[2](i => Zero);
    var areas := [Area(0, 2, 0, 0, Local)];
    ghost var g, live := map[1 := Obj(1, 0, 1)], {1};
    assert mem[..] == [header, Tagged(0)];
    assert Filled(g, 2, 2) && Filled(g, 0, 2) && Filled(g, 0, 0);
    assert InArea(areas[0], 1);
    var copiedRoot, spaces;
    ghost var copies;
    how, copiedRoot, spaces, copies := RunExport(mem, graves, areas, 2, 1, true, 4, 4, 4, [], g, live);
  }

  lemma RepairStarts(S: Setting, x: Export)
    requires ExportOk(S, x)
    ensures Repairing(S, x, x.mem)
  {
    hide SettingOk, GravesOk, ExportSpacesOk, CopiesOk, WordsOk;
  }

  lemma AreasKnown(S: Setting)
    requires AreasOk(S)
    ensures forall k :: 0 <= k < |S.areas| ==> AreaOk(S.g, S.areas[k])
  {
    hide AreaOk;
  }

  lemma AreasStay(S: Setting, mem: seq<Word>, mem': seq<Word>, n: nat)
    requires n <= |S.areas| && Nearer(S, mem, mem')
    requires forall k :: 0 <= k < n ==> AreaRepaired(S, mem, S.areas[k])
    ensures forall k :: 0 <= k < n ==> AreaRepaired(S, mem', S.areas[k])
  {
    forall k | 0 <= k < n
      ensures AreaRepaired(S, mem', S.areas[k])
    {
      assert AreaRepaired(S, mem, S.areas[k]);
    }
  }
}
