/** Exporting: the state while the objects to be exported are copied, and what every step of the copying keeps. */
module ExportState {
  import opened Heap

  /** The kinds of memory that an address may be in before the export. */
  datatype Kind = Io | Local | Permanent(isMutable: bool, hierarchy: nat)

  /** An area of memory. A local area has objects only below lower and from upper; the pointers are not used of others. */
  datatype Area = Area(bottom: nat, top: nat, lower: nat, upper: nat, kind: Kind)

  /** An area that copies are put in, filled from the bottom. */
  datatype ExportSpace = ExportSpace(bottom: nat, top: nat, topPointer: nat, isMutable: bool, noOverwrite: bool, byteOnly: bool)

  /**
   What does not change: the memory before the export, its objects (some perhaps with tombstones left by
   a collection), the areas they are in, the address from which there is room for copies, the lowest
   level of permanent area that is included, and a set of objects with all they lead to.
   */
  datatype Setting = Setting(orig: seq<Word>, g: Shape, areas: seq<Area>, limit: nat, hierarchy: nat, live: set<nat>)

  /** The first area that an address is in. */
  function AreaAt(areas: seq<Area>, a: nat): (r: Option<Area>)
    ensures r == None <==> forall i :: 0 <= i < |areas| ==> !(areas[i].bottom <= a < areas[i].top)
    ensures r.Some? ==> exists i :: 0 <= i < |areas| && areas[i] == r.value && areas[i].bottom <= a < areas[i].top
                                    && forall j :: 0 <= j < i ==> !(areas[j].bottom <= a < areas[j].top)
  {
    if areas == [] then None
    else if areas[0].bottom <= a < areas[0].top then Some(areas[0])
    else AreaAt(areas[1..], a)
  }

  predicate InExport(spaces: seq<ExportSpace>, a: nat) {
    exists i :: 0 <= i < |spaces| && spaces[i].bottom <= a < spaces[i].top
  }

  /** The object at p is one to copy: it is local, or permanent and not of a lower level. */
  predicate Exportable(areas: seq<Area>, hierarchy: nat, p: nat) {
    match AreaAt(areas, p)
    case None => false
    case Some(area) => area.kind.Local? || (area.kind.Permanent? && area.kind.hierarchy >= hierarchy)
  }

  /** The object at p cannot be written to; its tombstone goes to the graveyard. */
  predicate ReadOnly(areas: seq<Area>, p: nat) {
    match AreaAt(areas, p)
    case None => false
    case Some(area) => area.kind.Permanent? && !area.kind.isMutable && area.kind.hierarchy == 0
  }

  /** The address of an object that is to be copied, rather than followed to where a collection moved it. */
  predicate ToCopy(S: Setting, v: Word) {
    && v.Pointer? && Exportable(S.areas, S.hierarchy, v.addr)
    && 0 < v.addr <= |S.orig| && !S.orig[v.addr - 1].Tombstone?
  }

  /** The address of an object that is there, and not empty, if it is one to export. */
  predicate FieldOk(S: Setting, v: Word) {
    v.Pointer? && Exportable(S.areas, S.hierarchy, v.addr) ==>
      v.addr in S.g && v.addr <= |S.orig| && 0 < v.addr < S.limit && 0 < S.g[v.addr].size
  }

  /** The fields of the object at a lead only to objects of s. */
  ghost predicate LeadsInto(S: Setting, s: set<nat>, a: nat)
    requires a in S.g && a + S.g[a].size <= |S.orig|
  {
    forall w :: a <= w < a + S.g[a].size ==> FieldOk(S, S.orig[w]) && (ToCopy(S, S.orig[w]) ==> S.orig[w].addr in s)
  }

  /** An object that is not empty, in its place. */
  predicate IsObject(S: Setting, a: nat) {
    && a in S.g && 0 < a < S.limit <= |S.orig| && a + S.g[a].size <= S.limit
    && S.orig[a - 1].Length? && S.orig[a - 1].length == S.g[a].size > 0
  }

  /** An object to export, of which s has all that it leads to. */
  ghost predicate ClosedAt(S: Setting, s: set<nat>, a: nat) {
    && IsObject(S, a) && (!S.orig[a - 1].isByte ==> LeadsInto(S, s, a))
  }

  /** A set of objects with all they lead to. */
  ghost predicate Closed(S: Setting, s: set<nat>) {
    forall a :: a in s ==> ClosedAt(S, s, a)
  }

  /** What is known before the export. */
  ghost predicate SettingOk(S: Setting) {
    && S.limit <= |S.orig| && HeadersOk(S.orig, S.g) && Closed(S, S.live)
    && (forall a :: a in S.g ==> a < S.limit && a + S.g[a].size <= S.limit)
    && (forall a, b :: a in S.g && b in S.g && a != b ==> !Overlaps(a, S.g[a].size, b - 1, S.g[b].size + 1))
  }

  /** The state of the export: memory, graveyard, areas for copies, the copies made and the words of them still to be scanned. */
  datatype Export = Export(mem: seq<Word>, graves: seq<Word>, spaces: seq<ExportSpace>, brk: nat,
                           copies: map<nat, nat>, todo: set<nat>)

  /** Memory as it was but for the tombstones of objects that have been copied. */
  ghost predicate HeapKept(S: Setting, mem: seq<Word>, copies: map<nat, nat>) {
    && |mem| == |S.orig|
    && forall w :: 0 <= w < S.limit && w < |mem| ==>
         mem[w] == if w + 1 in copies && !ReadOnly(S.areas, w + 1) then Tombstone(copies[w + 1]) else S.orig[w]
  }

  /** The graveyard has the tombstones of read-only objects that have been copied. */
  ghost predicate GravesOk(S: Setting, graves: seq<Word>, copies: map<nat, nat>) {
    && |graves| == |S.orig|
    && forall w :: 0 <= w < |graves| ==>
         graves[w] == if w + 1 in copies && ReadOnly(S.areas, w + 1) then Tombstone(copies[w + 1]) else Zero
  }

  /** The space has the copy at d of an object with this header, and is for objects of its kind. */
  predicate Holds(space: ExportSpace, header: Word, d: nat)
    requires header.Length?
  {
    && space.bottom < d && d + header.length <= space.topPointer <= space.top && ForKind(space, header)
  }

  predicate ForKind(space: ExportSpace, header: Word)
    requires header.Length?
  {
    && space.isMutable == header.isMutable
    && space.noOverwrite == (header.isMutable && header.isNoOverwrite)
    && space.byteOnly == (header.isMutable && header.isByte)
  }

  ghost predicate Housed(spaces: seq<ExportSpace>, header: Word, d: nat)
    requires header.Length?
  {
    exists i :: 0 <= i < |spaces| && Holds(spaces[i], header, d)
  }

  /** The words from p to q - 1 are not in the unused part of any export space. */
  ghost predicate NotSpare(spaces: seq<ExportSpace>, p: int, q: int) {
    forall i :: 0 <= i < |spaces| ==> q <= spaces[i].topPointer || spaces[i].top <= p
  }

  /** The copy at d of the object at a. */
  ghost predicate CopyAt(S: Setting, x: Export, a: nat, d: nat) {
    && a in S.live && IsObject(S, a) && S.limit < d && d + S.g[a].size <= x.brk <= |x.mem|
    && x.mem[d - 1] == S.orig[a - 1] && Housed(x.spaces, S.orig[a - 1], d)
    && NotSpare(x.spaces, d - 1, d + S.g[a].size)
  }

  /** Two copies do not overlap. */
  predicate Apart(S: Setting, a: nat, d: nat, b: nat, e: nat)
    requires a in S.g && b in S.g
  {
    d + S.g[a].size < e || e + S.g[b].size < d
  }

  ghost predicate CopiesOk(S: Setting, x: Export) {
    && (forall a :: a in x.copies ==> CopyAt(S, x, a, x.copies[a]))
    && (forall a, b :: a in x.copies && b in x.copies && a != b && a in S.g && b in S.g ==>
          Apart(S, a, x.copies[a], b, x.copies[b]))
  }

  /** The word v of an object as it is in the copy: addresses of objects exported are those of their copies. */
  predicate Translated(S: Setting, copies: map<nat, nat>, v: Word, v': Word) {
    if ToCopy(S, v) then v.addr in copies && v' == Pointer(copies[v.addr])
    else if v.Pointer? && Exportable(S.areas, S.hierarchy, v.addr) then
      0 < v.addr <= |S.orig| && S.orig[v.addr - 1].Tombstone? && v' == Pointer(S.orig[v.addr - 1].dest)
    else v' == v
  }

  /** Word i of the copy of the object at a: as it was if it is no field or has not been scanned, otherwise translated. */
  ghost predicate WordOk(S: Setting, x: Export, a: nat, i: nat)
    requires a in x.copies && CopyAt(S, x, a, x.copies[a]) && i < S.g[a].size
  {
    var v, v' := S.orig[a + i], x.mem[x.copies[a] + i];
    if S.orig[a - 1].isByte || x.copies[a] + i in x.todo then v' == v else Translated(S, x.copies, v, v')
  }

  /** A word still to be scanned is a field of a copy. */
  ghost predicate FieldOfCopy(S: Setting, x: Export, a: nat, w: nat)
    requires a in x.copies && CopyAt(S, x, a, x.copies[a])
  {
    x.copies[a] <= w < x.copies[a] + S.g[a].size && !S.orig[a - 1].isByte
  }

  ghost predicate WordsOk(S: Setting, x: Export)
    requires CopiesOk(S, x)
  {
    && (forall a, i: nat :: a in x.copies && a in S.g && i < S.g[a].size ==> WordOk(S, x, a, i))
    && (forall w :: w in x.todo ==> exists a :: a in x.copies && FieldOfCopy(S, x, a, w))
  }

  predicate SpaceOk(limit: nat, brk: nat, space: ExportSpace) {
    limit <= space.bottom <= space.topPointer <= space.top <= brk
  }

  ghost predicate SpacesApart(spaces: seq<ExportSpace>) {
    forall i, j :: 0 <= i < j < |spaces| ==> spaces[i].top <= spaces[j].bottom
  }

  ghost predicate ExportSpacesOk(S: Setting, x: Export) {
    && S.limit <= x.brk <= |x.mem| && SpacesApart(x.spaces)
    && forall i :: 0 <= i < |x.spaces| ==> SpaceOk(S.limit, x.brk, x.spaces[i])
  }

  ghost predicate ExportOk(S: Setting, x: Export) {
    && SettingOk(S) && HeapKept(S, x.mem, x.copies) && GravesOk(S, x.graves, x.copies)
    && ExportSpacesOk(S, x) && CopiesOk(S, x) && WordsOk(S, x)
  }

  predicate Within(p: int, w: int, q: int) {
    p <= w < q
  }

  function Range(p: nat, q: nat): set<nat> {
    set w | p <= w < q && Within(p, w, q)
  }

  /** The words of an object that are fields. */
  function FieldsOf(d: nat, header: Word): set<nat>
    requires header.Length?
  {
    if header.isByte then {} else Range(d, d + header.length)
  }

  // ---------- The start ----------

  lemma Begins(S: Setting, x: Export)
    requires SettingOk(S) && x.mem == S.orig && |x.graves| == |x.mem| && x.spaces == [] && x.brk == S.limit
    requires x.copies == map[] && x.todo == {} && forall w :: 0 <= w < |x.graves| ==> x.graves[w] == Zero
    ensures ExportOk(S, x)
  {
    hide SettingOk;
    assert S.limit <= |S.orig| by { SettingLimit(S); }
  }

  lemma SettingLimit(S: Setting)
    requires SettingOk(S)
    ensures S.limit <= |S.orig| && Closed(S, S.live)
  {
  }

  // ---------- Reading ----------

  /** A word still to be scanned is as it was in the object, a field that leads to a live object. */
  lemma FieldToScan(S: Setting, x: Export, w: nat)
    requires ExportOk(S, x) && w in x.todo
    ensures S.limit <= w < |x.mem| && FieldOk(S, x.mem[w]) && (ToCopy(S, x.mem[w]) ==> x.mem[w].addr in S.live)
  {
    hide SettingOk, HeapKept, GravesOk, ExportSpacesOk, ToCopy, Housed, NotSpare, FieldOk, Translated, Exportable;
    var a: nat :| a in x.copies && FieldOfCopy(S, x, a, w);
    SettingLimit(S);
    assert CopyAt(S, x, a, x.copies[a]) && WordOk(S, x, a, w - x.copies[a]) && ClosedAt(S, S.live, a);
    var u := a + (w - x.copies[a]);
    assert FieldOk(S, S.orig[u]);
  }

  /** The words of an object that is to be copied have not been touched. */
  lemma ObjectIntact(S: Setting, x: Export, p: nat)
    requires ExportOk(S, x) && p in S.live
    ensures ClosedAt(S, S.live, p) && |x.mem| == |S.orig|
    ensures forall w :: p <= w < p + S.g[p].size ==> x.mem[w] == S.orig[w]
  {
    hide HeadersOk, GravesOk, ExportSpacesOk, WordsOk, LeadsInto, IsObject, ReadOnly;
    SettingLimit(S);
    assert ClosedAt(S, S.live, p) && IsObject(S, p);
    SizesKnown(S, p);
    forall a | a in x.copies
      ensures a - 1 < p || p + S.g[p].size <= a - 1
    {
      CopyIsLive(S, x, a);
      SizesKnown(S, a);
      NotInside(S, p, a);
    }
  }

  /** No object's header is among the words of another. */
  lemma NotInside(S: Setting, p: nat, a: nat)
    requires SettingOk(S) && p in S.g && a in S.g
    ensures a - 1 < p || p + S.g[p].size <= a - 1
  {
    hide HeadersOk, Closed;
    assert a != p ==> !Overlaps(p, S.g[p].size, a - 1, S.g[a].size + 1);
  }

  /** What the headers of live objects say while others are copied. */
  lemma HeaderNow(S: Setting, x: Export, p: nat)
    requires ExportOk(S, x) && 0 < p < S.limit
    ensures p <= |x.mem| == |x.graves| == |S.orig|
    ensures p in x.copies && !ReadOnly(S.areas, p) ==> x.mem[p - 1] == Tombstone(x.copies[p])
    ensures !(p in x.copies && !ReadOnly(S.areas, p)) ==> x.mem[p - 1] == S.orig[p - 1]
    ensures p in x.copies && ReadOnly(S.areas, p) ==> x.graves[p - 1] == Tombstone(x.copies[p])
    ensures !(p in x.copies && ReadOnly(S.areas, p)) ==> x.graves[p - 1] == Zero
    ensures p in x.copies ==> S.orig[p - 1].Length?
  {
    hide CopiesOk, ExportSpacesOk, WordsOk, ReadOnly, HeadersOk, Closed;
    if p in x.copies { CopyIsLive(S, x, p); }
  }

  lemma CopyIsLive(S: Setting, x: Export, a: nat)
    requires CopiesOk(S, x) && a in x.copies
    ensures a in S.live && IsObject(S, a) && S.limit < x.copies[a] && x.copies[a] + S.g[a].size <= |x.mem|
    ensures x.mem[x.copies[a] - 1] == S.orig[a - 1]
  {
    assert CopyAt(S, x, a, x.copies[a]);
  }

  /** Nothing has been written to the header of an object in an immutable permanent area of level 0. */
  lemma ReadOnlyKept(S: Setting, x: Export, a: nat)
    requires ExportOk(S, x) && 0 < a < S.limit && AreaAt(S.areas, a).Some?
    requires AreaAt(S.areas, a).value.kind == Permanent(false, 0)
    ensures a <= |x.mem| == |S.orig| && x.mem[a - 1] == S.orig[a - 1]
  {
    hide CopiesOk, WordsOk, GravesOk, ExportSpacesOk, AreaAt;
    SettingLimit(S);
  }

  // ---------- A word scanned ----------

  lemma ScannedCopies(S: Setting, x: Export, x': Export, w: nat)
    requires CopiesOk(S, x) && WordsOk(S, x) && w in x.todo
    requires |x'.mem| == |x.mem| && forall u :: 0 <= u < |x.mem| && u != w ==> x'.mem[u] == x.mem[u]
    requires x'.spaces == x.spaces && x'.brk == x.brk && x'.copies == x.copies && x'.todo == x.todo - {w}
    ensures CopiesOk(S, x')
  {
    hide IsObject, Housed, NotSpare, WordOk;
    var a :| a in x.copies && FieldOfCopy(S, x, a, w);
    forall b | b in x'.copies
      ensures CopyAt(S, x', b, x'.copies[b])
    {
      assert CopyAt(S, x, b, x.copies[b]) && CopyAt(S, x, a, x.copies[a]);
      SizesKnown(S, a);
      SizesKnown(S, b);
      assert a != b ==> Apart(S, a, x.copies[a], b, x.copies[b]);
    }
  }

  lemma SizesKnown(S: Setting, a: nat)
    requires IsObject(S, a)
    ensures a in S.g && 0 < a <= |S.orig| && a + S.g[a].size <= |S.orig|
    ensures S.orig[a - 1].Length? && S.orig[a - 1].length == S.g[a].size
  {
  }

  lemma ScannedWord(S: Setting, x: Export, x': Export, w: nat, b: nat, i: nat)
    requires CopiesOk(S, x) && WordsOk(S, x) && w in x.todo && w < |x.mem| && CopiesOk(S, x')
    requires |x'.mem| == |x.mem| && forall u :: 0 <= u < |x.mem| && u != w ==> x'.mem[u] == x.mem[u]
    requires x'.copies == x.copies && x'.todo == x.todo - {w} && Translated(S, x.copies, x.mem[w], x'.mem[w])
    requires b in x.copies && b in S.g && i < S.g[b].size
    ensures CopyAt(S, x', b, x'.copies[b]) && WordOk(S, x', b, i)
  {
    hide IsObject, Housed, NotSpare, Translated;
    assert CopyAt(S, x', b, x'.copies[b]) && CopyAt(S, x, b, x.copies[b]) && WordOk(S, x, b, i);
    SizesKnown(S, b);
    var a: nat :| a in x.copies && FieldOfCopy(S, x, a, w);
    SizesKnown(S, a);
    assert a != b ==> Apart(S, a, x.copies[a], b, x.copies[b]);
  }

  lemma ScannedWords(S: Setting, x: Export, x': Export, w: nat)
    requires CopiesOk(S, x) && WordsOk(S, x) && w in x.todo && w < |x.mem| && CopiesOk(S, x')
    requires |x'.mem| == |x.mem| && forall u :: 0 <= u < |x.mem| && u != w ==> x'.mem[u] == x.mem[u]
    requires x'.copies == x.copies && x'.todo == x.todo - {w} && Translated(S, x.copies, x.mem[w], x'.mem[w])
    ensures WordsOk(S, x')
  {
    hide IsObject, Housed, NotSpare, Translated;
    forall b, i: nat | b in x'.copies && b in S.g && i < S.g[b].size
      ensures WordOk(S, x', b, i)
    {
      ScannedWord(S, x, x', w, b, i);
    }
    forall u | u in x'.todo
      ensures exists a :: a in x'.copies && FieldOfCopy(S, x', a, u)
    {
      var a :| a in x.copies && FieldOfCopy(S, x, a, u);
      assert CopyAt(S, x', a, x'.copies[a]) && FieldOfCopy(S, x', a, u);
    }
  }

  /** A field has been scanned: it is translated and no longer waits. */
  lemma Scanned(S: Setting, x: Export, x': Export, w: nat)
    requires ExportOk(S, x) && w in x.todo && w < |x.mem|
    requires |x'.mem| == |x.mem| && forall u :: 0 <= u < |x.mem| && u != w ==> x'.mem[u] == x.mem[u]
    requires x'.graves == x.graves && x'.spaces == x.spaces && x'.brk == x.brk && x'.copies == x.copies && x'.todo == x.todo - {w}
    requires Translated(S, x.copies, x.mem[w], x'.mem[w])
    ensures ExportOk(S, x')
  {
    hide SettingOk, GravesOk, WordsOk, CopiesOk, Translated;
    FieldToScan(S, x, w);
    ScannedCopies(S, x, x', w);
    ScannedWords(S, x, x', w);
  }

  // ---------- An object copied ----------

  /** Room for the copy of one object. */
  ghost predicate Room(S: Setting, x: Export, header: Word, d: nat)
    requires header.Length?
  {
    && S.limit < d && d + header.length <= x.brk <= |x.mem|
    && Housed(x.spaces, header, d) && NotSpare(x.spaces, d - 1, d + header.length)
    && forall a :: a in x.copies && a in S.g ==> d + header.length < x.copies[a] || x.copies[a] + S.g[a].size < d
  }

  /** The state after the object at p has been copied to d. */
  ghost predicate IsCopied(S: Setting, x: Export, x': Export, p: nat, d: nat)
    requires IsObject(S, p)
  {
    && |x'.mem| == |x.mem| && |x'.graves| == |x.graves| && 0 < d && d + S.g[p].size <= |x.mem|
    && x'.spaces == x.spaces && x'.brk == x.brk
    && x'.copies == x.copies[p := d] && x'.todo == x.todo + FieldsOf(d, S.orig[p - 1])
    && x'.mem[d - 1] == S.orig[p - 1]
    && (forall w :: d <= w < d + S.g[p].size ==> x'.mem[w] == S.orig[p + (w - d)])
    && (forall w :: 0 <= w < |x.mem| && w != p - 1 && !(d - 1 <= w < d + S.g[p].size) ==> x'.mem[w] == x.mem[w])
    && (forall w :: 0 <= w < |x.graves| && w != p - 1 ==> x'.graves[w] == x.graves[w])
    && (p <= |x.mem| ==> x'.mem[p - 1] == if ReadOnly(S.areas, p) then x.mem[p - 1] else Tombstone(d))
    && (p <= |x.graves| ==> x'.graves[p - 1] == if ReadOnly(S.areas, p) then Tombstone(d) else x.graves[p - 1])
  }

  lemma CopiedHeap(S: Setting, x: Export, x': Export, p: nat, d: nat)
    requires ExportOk(S, x) && p in S.live && p !in x.copies && IsObject(S, p)
    requires Room(S, x, S.orig[p - 1], d) && IsCopied(S, x, x', p, d)
    ensures HeapKept(S, x'.mem, x'.copies) && GravesOk(S, x'.graves, x'.copies)
  {
    hide SettingOk, CopiesOk, WordsOk, ExportSpacesOk, ReadOnly, LeadsInto, Housed, NotSpare, FieldsOf;
  }

  lemma CopiedOther(S: Setting, x: Export, x': Export, p: nat, d: nat, a: nat)
    requires ExportOk(S, x) && p in S.live && p !in x.copies && IsObject(S, p)
    requires Room(S, x, S.orig[p - 1], d) && IsCopied(S, x, x', p, d) && a in x.copies
    ensures CopyAt(S, x, a, x.copies[a]) && CopyAt(S, x', a, x'.copies[a]) && Apart(S, a, x.copies[a], p, d)
    ensures forall w :: x.copies[a] - 1 <= w < x.copies[a] + S.g[a].size ==> x'.mem[w] == x.mem[w]
  {
    hide SettingOk, HeapKept, GravesOk, WordsOk, ExportSpacesOk, ReadOnly, LeadsInto, Housed, NotSpare, FieldsOf;
    assert CopyAt(S, x, a, x.copies[a]);
  }

  lemma CopiedCopies(S: Setting, x: Export, x': Export, p: nat, d: nat)
    requires ExportOk(S, x) && p in S.live && p !in x.copies && IsObject(S, p)
    requires Room(S, x, S.orig[p - 1], d) && IsCopied(S, x, x', p, d)
    ensures CopiesOk(S, x')
  {
    hide SettingOk, HeapKept, GravesOk, WordsOk, ExportSpacesOk, ReadOnly, LeadsInto, Housed, NotSpare, FieldsOf;
    forall a | a in x'.copies
      ensures CopyAt(S, x', a, x'.copies[a])
      ensures a != p ==> a in x.copies && a in S.g && Apart(S, a, x.copies[a], p, d)
    {
      if a != p { CopiedOther(S, x, x', p, d, a); }
    }
  }

  lemma TranslatedStill(S: Setting, copies: map<nat, nat>, copies': map<nat, nat>, v: Word, v': Word)
    requires Translated(S, copies, v, v') && forall a :: a in copies ==> a in copies' && copies'[a] == copies[a]
    ensures Translated(S, copies', v, v')
  {
  }

  lemma NewWord(S: Setting, x: Export, x': Export, p: nat, d: nat, i: nat)
    requires IsObject(S, p) && IsCopied(S, x, x', p, d) && i < S.g[p].size && CopyAt(S, x', p, d)
    ensures WordOk(S, x', p, i)
  {
    hide IsObject, Housed, NotSpare, Translated, ReadOnly;
    SizesKnown(S, p);
    var w: nat := d + i;
    assert Within(d, w, d + S.g[p].size);
    assert x'.mem[w] == S.orig[p + i];
  }

  lemma OldWord(S: Setting, x: Export, x': Export, p: nat, d: nat, a: nat, i: nat)
    requires ExportOk(S, x) && p in S.live && p !in x.copies && IsObject(S, p)
    requires Room(S, x, S.orig[p - 1], d) && IsCopied(S, x, x', p, d) && CopiesOk(S, x')
    requires a in x.copies && a in S.g && i < S.g[a].size
    ensures CopyAt(S, x', a, x'.copies[a]) && WordOk(S, x', a, i)
  {
    hide SettingOk, HeapKept, GravesOk, ExportSpacesOk, ReadOnly, LeadsInto, Housed, NotSpare, Translated, CopiesOk;
    CopiedOther(S, x, x', p, d, a);
    assert WordOk(S, x, a, i);
    if !S.orig[a - 1].isByte && x.copies[a] + i !in x.todo {
      TranslatedStill(S, x.copies, x'.copies, S.orig[a + i], x.mem[x.copies[a] + i]);
    }
  }

  lemma CopiedWords(S: Setting, x: Export, x': Export, p: nat, d: nat)
    requires ExportOk(S, x) && p in S.live && p !in x.copies && IsObject(S, p)
    requires Room(S, x, S.orig[p - 1], d) && IsCopied(S, x, x', p, d) && CopiesOk(S, x')
    ensures WordsOk(S, x')
  {
    hide SettingOk, HeapKept, GravesOk, ExportSpacesOk, ReadOnly, LeadsInto, Housed, NotSpare, Translated;
    forall a, i: nat | a in x'.copies && a in S.g && i < S.g[a].size
      ensures WordOk(S, x', a, i)
    {
      if a == p {
        NewWord(S, x, x', p, d, i);
      } else {
        OldWord(S, x, x', p, d, a, i);
      }
    }
    forall u | u in x'.todo
      ensures exists a :: a in x'.copies && FieldOfCopy(S, x', a, u)
    {
      if u in x.todo {
        var a :| a in x.copies && FieldOfCopy(S, x, a, u);
        CopiedOther(S, x, x', p, d, a);
        assert FieldOfCopy(S, x', a, u);
      } else {
        assert CopyAt(S, x', p, d) && FieldOfCopy(S, x', p, u);
      }
    }
  }

  /** An object has been copied: every word of the copy that is a field waits to be scanned. */
  lemma Copied(S: Setting, x: Export, x': Export, p: nat, d: nat)
    requires ExportOk(S, x) && p in S.live && p !in x.copies && IsObject(S, p)
    requires Room(S, x, S.orig[p - 1], d) && IsCopied(S, x, x', p, d)
    ensures ExportOk(S, x')
  {
    hide SettingOk, HeapKept, GravesOk, WordsOk, CopiesOk, Room, FieldsOf, IsObject;
    CopiedHeap(S, x, x', p, d);
    CopiedCopies(S, x, x', p, d);
    CopiedWords(S, x, x', p, d);
  }

  // ---------- Room found ----------

  /** The words of an export space from its top pointer on are in no other space and in no copy. */
  lemma SpareWords(S: Setting, x: Export, i: nat)
    requires ExportOk(S, x) && i < |x.spaces|
    ensures SpaceOk(S.limit, x.brk, x.spaces[i]) && x.brk <= |x.mem|
    ensures forall j :: 0 <= j < |x.spaces| && j != i ==>
      x.spaces[j].top <= x.spaces[i].bottom || x.spaces[i].top <= x.spaces[j].topPointer
    ensures forall a :: a in x.copies && a in S.g ==>
      x.copies[a] + S.g[a].size <= x.spaces[i].topPointer || x.spaces[i].top < x.copies[a]
  {
    hide SettingOk, HeapKept, GravesOk, WordsOk, IsObject, Housed;
    forall a | a in x.copies && a in S.g
      ensures x.copies[a] + S.g[a].size <= x.spaces[i].topPointer || x.spaces[i].top < x.copies[a]
    {
      assert CopyAt(S, x, a, x.copies[a]);
    }
    forall j | 0 <= j < |x.spaces| && j != i
      ensures x.spaces[j].top <= x.spaces[i].bottom || x.spaces[i].top <= x.spaces[j].topPointer
    {
      assert SpaceOk(S.limit, x.brk, x.spaces[j]);
    }
  }

  /** Only the unused parts of export spaces have become less. */
  ghost predicate Uses(x: Export, x': Export) {
    && |x.spaces| <= |x'.spaces| && x.brk <= x'.brk <= |x'.mem|
    && x'.mem == x.mem && x'.graves == x.graves && x'.copies == x.copies && x'.todo == x.todo
    && (forall i :: 0 <= i < |x.spaces| ==>
          x'.spaces[i] == x.spaces[i].(topPointer := x'.spaces[i].topPointer)
          && x.spaces[i].topPointer <= x'.spaces[i].topPointer <= x.spaces[i].top)
    && (forall i :: |x.spaces| <= i < |x'.spaces| ==> x.brk <= x'.spaces[i].topPointer)
  }

  lemma UsesKeepsCopies(S: Setting, x: Export, x': Export)
    requires Uses(x, x') && CopiesOk(S, x)
    ensures CopiesOk(S, x')
  {
    hide IsObject, Housed;
    forall a | a in x'.copies
      ensures CopyAt(S, x', a, x'.copies[a])
    {
      assert CopyAt(S, x, a, x.copies[a]);
      SizesKnown(S, a);
      StillHoused(x.spaces, x'.spaces, S.orig[a - 1], x.copies[a]);
    }
  }

  lemma UsesKeeps(S: Setting, x: Export, x': Export)
    requires Uses(x, x') && ExportOk(S, x) && ExportSpacesOk(S, x')
    ensures ExportOk(S, x')
  {
    UsesKeepsCopies(S, x, x');
    hide CopiesOk, Uses, WordsOk, SettingOk;
    assert WordsOk(S, x') by { UsesSame(x, x'); WordsStay(S, x, x'); }
    UsesSame(x, x');
  }

  lemma UsesSame(x: Export, x': Export)
    requires Uses(x, x')
    ensures x'.mem == x.mem && x'.graves == x.graves && x'.copies == x.copies && x'.todo == x.todo
  {
  }

  /** An export space with more words left than the object needs is given the object. */
  lemma UsesSpace(S: Setting, x: Export, header: Word, i: nat)
    requires ExportOk(S, x) && header.Length? && i < |x.spaces| && ForKind(x.spaces[i], header)
    requires x.spaces[i].topPointer + header.length < x.spaces[i].top
    ensures var top := x.spaces[i].topPointer;
      var x' := x.(spaces := x.spaces[i := x.spaces[i].(topPointer := top + header.length + 1)]);
      ExportOk(S, x') && Room(S, x', header, top + 1)
  {
    hide SettingOk, HeapKept, GravesOk, WordsOk, CopiesOk, IsObject;
    SpareWords(S, x, i);
    var sp := x.spaces[i];
    var x' := x.(spaces := x.spaces[i := sp.(topPointer := sp.topPointer + header.length + 1)]);
    assert Holds(x'.spaces[i], header, sp.topPointer + 1);
    UsesKeeps(S, x, x');
    assert NotSpare(x'.spaces, sp.topPointer, sp.topPointer + 1 + header.length);
  }

  lemma StillHoused(spaces: seq<ExportSpace>, spaces': seq<ExportSpace>, header: Word, d: nat)
    requires header.Length? && Housed(spaces, header, d) && |spaces| <= |spaces'|
    requires forall i :: 0 <= i < |spaces| ==>
      spaces'[i] == spaces[i].(topPointer := spaces'[i].topPointer)
      && spaces[i].topPointer <= spaces'[i].topPointer <= spaces[i].top
    ensures Housed(spaces', header, d)
  {
    var i :| 0 <= i < |spaces| && Holds(spaces[i], header, d);
    assert Holds(spaces'[i], header, d);
  }

  lemma WordsStay(S: Setting, x: Export, x': Export)
    requires CopiesOk(S, x) && WordsOk(S, x) && CopiesOk(S, x')
    requires x'.mem == x.mem && x'.copies == x.copies && x'.todo == x.todo
    ensures WordsOk(S, x')
  {
    hide Translated, IsObject, Housed, NotSpare;
    forall a, i: nat | a in x'.copies && a in S.g && i < S.g[a].size
      ensures WordOk(S, x', a, i)
    {
      assert CopyAt(S, x', a, x'.copies[a]) && CopyAt(S, x, a, x.copies[a]) && WordOk(S, x, a, i);
    }
    forall u | u in x'.todo
      ensures exists a :: a in x'.copies && FieldOfCopy(S, x', a, u)
    {
      var a :| a in x.copies && FieldOfCopy(S, x, a, u);
      assert CopyAt(S, x', a, x'.copies[a]) && FieldOfCopy(S, x', a, u);
    }
  }

  /** A new export space is added, with the object at its bottom. */
  lemma AddsSpace(S: Setting, x: Export, header: Word, size: nat, space: ExportSpace)
    requires ExportOk(S, x) && header.Length? && header.length < size && x.brk + size <= |x.mem| && ForKind(space, header)
    requires space.bottom == x.brk && space.top == x.brk + size && space.topPointer == x.brk + header.length + 1
    ensures var x' := x.(spaces := x.spaces + [space], brk := x.brk + size);
      ExportOk(S, x') && Room(S, x', header, x.brk + 1)
  {
    hide SettingOk, HeapKept, GravesOk, WordsOk, CopiesOk, IsObject;
    var x' := x.(spaces := x.spaces + [space], brk := x.brk + size);
    assert Holds(x'.spaces[|x.spaces|], header, x.brk + 1);
    UsesKeeps(S, x, x');
    CopiesBelow(S, x);
  }

  lemma CopiesBelow(S: Setting, x: Export)
    requires ExportOk(S, x)
    ensures forall a :: a in x.copies && a in S.g ==> x.copies[a] + S.g[a].size <= x.brk
  {
    hide SettingOk, HeapKept, GravesOk, WordsOk, IsObject;
    forall a | a in x.copies
      ensures a in S.g && x.copies[a] + S.g[a].size <= x.brk
    {
      assert CopyAt(S, x, a, x.copies[a]);
      SizesKnown(S, a);
    }
  }
}
