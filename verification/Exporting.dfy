/** The copying for an export, object by object, and the repair of the headers after it. */
module Exporting {
  import opened Heap
  import opened ExportState

  ghost predicate Grows(copies: map<nat, nat>, copies': map<nat, nat>) {
    forall a :: a in copies ==> a in copies' && copies'[a] == copies[a]
  }

  /** How many of the live objects have not been copied. */
  ghost function Left(live: set<nat>, copies: map<nat, nat>): nat {
    |live - copies.Keys|
  }

  /** The words that wait are those from p to q - 1 and, apart from them, those of s. */
  ghost predicate Waiting(todo: set<nat>, s: set<nat>, p: nat, q: nat) {
    todo == s + Range(p, q) && s !! Range(p, q)
  }

  /** What scanning the field v, now r, has added: nothing, or the copy of the object it leads to. */
  ghost predicate ScanResult(S: Setting, x: Export, x': Export, v: Word, r: Word, scan: Option<Word>) {
    && Translated(S, x'.copies, v, r) && Grows(x.copies, x'.copies)
    && (scan.None? ==> x'.copies == x.copies && x'.todo == x.todo)
    && (scan.Some? ==> NewCopy(S, x, x', v, r, scan.value))
    && forall w :: w in x.todo && w < |x.mem| == |x'.mem| ==> x'.mem[w] == x.mem[w]
  }

  ghost predicate NewCopy(S: Setting, x: Export, x': Export, v: Word, r: Word, header: Word) {
    && ToCopy(S, v) && v.addr !in x.copies && v.addr in S.live && header == S.orig[v.addr - 1] && header.Length? && r.Pointer?
    && x'.copies == x.copies[v.addr := r.addr] && x'.todo == x.todo + FieldsOf(r.addr, header)
    && x.todo !! FieldsOf(r.addr, header)
  }

  /** The words from p, which end before d, are copied to d. */
  method CopyWords(mem: array<Word>, p: nat, d: nat, n: nat)
    requires p + n <= d && d + n <= mem.Length
    modifies mem
    ensures forall w :: d <= w < d + n ==> mem[w] == old(mem[p + (w - d)])
    ensures forall w :: 0 <= w < mem.Length && !(d <= w < d + n) ==> mem[w] == old(mem[w])
  {
    for i := 0 to n
      invariant forall w :: d <= w < d + i ==> mem[w] == old(mem[p + (w - d)])
      invariant forall w :: 0 <= w < mem.Length && !(d <= w < d + i) ==> mem[w] == old(mem[w])
    {
      mem[d + i] := mem[p + i];
    }
  }

  /** How a step of the copying ends: it went on, stopped for want of memory, or a null address was used. */
  datatype Outcome = Went | NoMemory | NullUse

  /** What comes of there being no room for an object. */
  function Failure(header: Word): Outcome
    requires header.Length?
  {
    if header.isMutable && header.isByte then NullUse else NoMemory
  }

  /** The area is for objects of this kind and has room for one. */
  predicate Suits(space: ExportSpace, header: Word)
    requires header.Length?
  {
    ForKind(space, header) && space.top - space.topPointer > header.length
  }

  predicate NoneSuits(spaces: seq<ExportSpace>, header: Word)
    requires header.Length?
  {
    forall i :: 0 <= i < |spaces| ==> !Suits(spaces[i], header)
  }

  /** The size asked for when there is no room for an object in the areas there are. */
  function SizeAsked(header: Word, immSize: nat, mutSize: nat, noOverSize: nat): nat
    requires header.Length?
  {
    var spaceWords := if !header.isMutable then immSize else if header.isNoOverwrite then noOverSize else mutSize;
    if spaceWords <= header.length then header.length + 1 else spaceWords
  }

  class CopyScan {
    const mem: array<Word>
    const graves: array<Word>
    const areas: seq<Area>
    const limit: nat
    const hierarchy: nat
    const defaultImmSize: nat
    const defaultMutSize: nat
    const defaultNoOverSize: nat
    var eSpaces: seq<ExportSpace>
    var brk: nat
    const supply: seq<nat>    // what each request for an area in turn would be given; nothing after the last
    var requests: nat         // how many there have been
    ghost const orig: seq<Word>
    ghost const g: Shape
    ghost const live: set<nat>
    ghost var copies: map<nat, nat>
    ghost var todo: set<nat>

    ghost function Fixed(): Setting {
      Setting(orig, g, areas, limit, hierarchy, live)
    }

    ghost function Now(): Export
      reads this, mem, graves
    {
      Export(mem[..], graves[..], eSpaces, brk, copies, todo)
    }

    ghost predicate Valid()
      reads this, mem, graves
    {
      mem != graves && ExportOk(Fixed(), Now())
    }

    constructor (mem: array<Word>, graves: array<Word>, areas: seq<Area>, limit: nat, hierarchy: nat,
                 immSize: nat, mutSize: nat, noOverSize: nat, supply: seq<nat>, ghost g: Shape, ghost live: set<nat>)
      requires mem != graves && graves.Length == mem.Length && forall w :: 0 <= w < graves.Length ==> graves[w] == Zero
      requires SettingOk(Setting(mem[..], g, areas, limit, hierarchy, live))
      ensures Valid() && Fixed() == Setting(mem[..], g, areas, limit, hierarchy, live)
      ensures this.mem == mem && this.graves == graves && todo == {} && copies == map[] && eSpaces == [] && requests == 0
      ensures this.supply == supply && brk == limit
      ensures defaultImmSize == immSize && defaultMutSize == mutSize && defaultNoOverSize == noOverSize
    {
      this.mem, this.graves, this.areas, this.limit, this.hierarchy := mem, graves, areas, limit, hierarchy;
      defaultImmSize, defaultMutSize, defaultNoOverSize := immSize, mutSize, noOverSize;
      this.supply, requests := supply, 0;
      eSpaces, brk := [], limit;
      orig, this.g, this.live, copies, todo := mem[..], g, live, map[], {};
      new;
      Begins(Fixed(), Now());
    }

    /** The next request for an area is granted: memory is given of at least the size asked for. */
    predicate Grants(size: nat)
      reads this, mem
    {
      requests < |supply| && size <= supply[requests] <= mem.Length - brk
    }

    /** A new area of at least the size asked for, if there is memory for it. */
    method NewExportSpace(size: nat, isMutable: bool, noOverwrite: bool) returns (ok: bool)
      requires brk <= mem.Length
      modifies `eSpaces, `brk, `requests
      ensures ok == old(Grants(size)) && requests == old(requests) + 1
      ensures ok ==> old(brk) + size <= brk <= mem.Length
      ensures ok ==> eSpaces == old(eSpaces) + [ExportSpace(old(brk), brk, old(brk), isMutable, noOverwrite, false)]
      ensures !ok ==> eSpaces == old(eSpaces) && brk == old(brk)
    {
      ok := Grants(size);
      if ok {
        var rounded := supply[requests];
        eSpaces := eSpaces + [ExportSpace(brk, brk + rounded, brk, isMutable, noOverwrite, false)];
        brk := brk + rounded;
      }
      requests := requests + 1;
    }

    function Asked(header: Word): nat
      requires header.Length?
    {
      SizeAsked(header, defaultImmSize, defaultMutSize, defaultNoOverSize)
    }

    /** Neither an area there is nor a new one has room for the object. */
    predicate NoRoomFor(header: Word)
      requires header.Length?
      reads this, mem
    {
      NoneSuits(eSpaces, header) && !Grants(Asked(header))
    }

    /** A field leads to an object that is still to be copied, and there is no room for it. */
    ghost predicate NoRoomAt(v: Word)
      reads this, mem
    {
      ToCopy(Fixed(), v) && v.addr !in copies && orig[v.addr - 1].Length? && NoRoomFor(orig[v.addr - 1])
    }

    /** The last request was for an object of live that is still to be copied, and was refused. */
    ghost predicate Starved(how: Outcome)
      reads this, mem
    {
      && requests > 0
      && exists a :: a in live && a !in copies && 0 < a <= |orig| && orig[a - 1].Length? && NoneSuits(eSpaces, orig[a - 1])
                     && !(requests - 1 < |supply| && Asked(orig[a - 1]) <= supply[requests - 1] <= mem.Length - brk)
                     && how == Failure(orig[a - 1])
    }

    /**
     Room for an object in the first area for its kind that has enough left, or else in a new one. The area is
     set to hold only byte objects, if this is one, before it is tested whether there is an area.
     */
    method Allocate(header: Word) returns (how: Outcome, d: nat)
      requires Valid() && header.Length?
      modifies `eSpaces, `brk, `requests
      ensures Valid() && (how.Went? ==> Room(Fixed(), Now(), header, d))
      ensures how == if old(NoRoomFor(header)) then Failure(header) else Went
      ensures !how.Went? ==> eSpaces == old(eSpaces) && brk == old(brk) && requests == old(requests) + 1
    {
      hide ExportOk, Room, ForKind;
      how, d := Went, 0;
      var isNoOverwrite, isByteObj := false, false;
      if header.isMutable { isNoOverwrite, isByteObj := header.isNoOverwrite, header.isByte; }
      ghost var x := Now();
      for i := 0 to |eSpaces|
        invariant Now() == x && requests == old(requests) && NoneSuits(eSpaces[..i], header)
      {
        var space := eSpaces[i];
        SuitsKind(space, header, isNoOverwrite, isByteObj);
        if header.isMutable == space.isMutable && isNoOverwrite == space.noOverwrite && isByteObj == space.byteOnly {
          if space.top - space.topPointer > header.length {
            assert Suits(eSpaces[i], header);
            UsesSpace(Fixed(), x, header, i);
            d := space.topPointer + 1;
            eSpaces := eSpaces[i := space.(topPointer := space.topPointer + header.length + 1)];
            return;
          }
        }
        assert eSpaces[..i + 1] == eSpaces[..i] + [space];
      }
      assert eSpaces[..|eSpaces|] == eSpaces;
      var spaceWords := if !header.isMutable then defaultImmSize else if isNoOverwrite then defaultNoOverSize else defaultMutSize;
      if spaceWords <= header.length { spaceWords := header.length + 1; }
      assert spaceWords == Asked(header);
      assert brk <= mem.Length by { BrkInMemory(Fixed(), x); }
      var ok := NewExportSpace(spaceWords, header.isMutable, isNoOverwrite);
      var last := |eSpaces| - 1;
      if isByteObj {
        if !ok { how := NullUse; return; }
        eSpaces := eSpaces[last := eSpaces[last].(byteOnly := true)];
      }
      if !ok { how := NoMemory; return; }
      d := eSpaces[last].topPointer + 1;
      eSpaces := eSpaces[last := eSpaces[last].(topPointer := eSpaces[last].topPointer + header.length + 1)];
      assert ForKind(eSpaces[last], header) by { IsForKind(eSpaces[last], header, isNoOverwrite, isByteObj); }
      assert Now() == x.(spaces := x.spaces + [eSpaces[last]], brk := brk);
      AddsSpace(Fixed(), x, header, brk - x.brk, eSpaces[last]);
    }

    /** Copy an object to d and leave its tombstone, in the graveyard if it cannot be written to. */
    method CopyObject(p: nat, d: nat, header: Word)
      requires Valid() && p in live && p !in copies && IsObject(Fixed(), p) && header == orig[p - 1]
      requires Room(Fixed(), Now(), header, d)
      modifies mem, graves, `copies, `todo
      ensures Valid() && IsCopied(Fixed(), old(Now()), Now(), p, d)
    {
      hide ExportOk, Room, ReadOnly;
      ghost var x := Now();
      ObjectIntact(Fixed(), x, p);
      HeaderNow(Fixed(), x, p);
      assert limit < d && d + header.length <= mem.Length by { RoomBounds(Fixed(), x, header, d); }
      mem[d - 1] := header;
      CopyWords(mem, p, d, header.length);
      ghost var m := mem[..];
      if ReadOnly(areas, p) {
        graves[p - 1] := Tombstone(d);
      } else {
        mem[p - 1] := Tombstone(d);
      }
      copies := copies[p := d];
      todo := todo + FieldsOf(d, header);
      assert mem[..] == if ReadOnly(areas, p) then m else m[p - 1 := Tombstone(d)];
      Copied(Fixed(), x, Now(), p, d);
    }

    /**
     The value of a field for the copy: an integer, or the address of something not exported, is kept;
     an object that has been moved or copied already is followed; any other is copied, and its header is
     returned because the copy must be scanned. Copying may fail for want of memory.
     */
    method ScanValue(v: Word) returns (how: Outcome, r: Word, scan: Option<Word>)
      requires Valid() && ExportState.FieldOk(Fixed(), v) && (ToCopy(Fixed(), v) ==> v.addr in live)
      modifies mem, graves, this
      ensures Valid() && (how.Went? ==> ScanResult(Fixed(), old(Now()), Now(), v, r, scan))
      ensures how == if old(NoRoomAt(v)) then Failure(orig[v.addr - 1]) else Went
      ensures how.Went? || Starved(how)
      ensures !how.Went? ==> copies == old(copies) && todo == old(todo) && mem[..] == old(mem[..])
    {
      hide ExportOk, Room, IsObject, ReadOnly, IsCopied;
      how, r, scan := Went, v, None;
      ghost var S, x := Fixed(), Now();
      if v.Tagged? || !v.Pointer? || InExport(eSpaces, v.addr) || !Exportable(areas, hierarchy, v.addr) {
        if v.Pointer? && Exportable(areas, hierarchy, v.addr) { NotExported(S, x, v.addr); }
        return;
      }
      var p := v.addr;
      HeaderNow(S, x, p);
      if mem[p - 1].Tombstone? {
        r := Pointer(mem[p - 1].dest);
        return;
      }
      if ReadOnly(areas, p) && graves[p - 1].Tombstone? {
        r := Pointer(graves[p - 1].dest);
        return;
      }
      assert p !in copies;
      var header := mem[p - 1];
      ObjectIntact(S, x, p);
      assert header.Length? by { SizesKnown(S, p); }
      var d;
      how, d := Allocate(header);
      if !how.Went? { return; }
      assert p <= |S.orig| && x.mem == mem[..];
      ghost var x1 := Now();
      CopyObject(p, d, header);
      CopyIsNew(S, x1, Now(), p, d, header);
      r, scan := Pointer(d), Some(header);
    }

    /** Scan the field at pt of a copy and update it. */
    method ScanAddressAt(pt: nat) returns (how: Outcome, scan: Option<Word>, ghost v: Word)
      requires Valid() && pt in todo
      modifies mem, graves, this
      ensures Valid() && (how.Went? ==> Scans(Fixed(), old(Now()), Now(), pt, scan, v))
      ensures how.Went? || Starved(how)
    {
      hide ExportOk, ToCopy;
      ghost var S, x := Fixed(), Now();
      FieldToScan(S, x, pt);
      v := mem[pt];
      var r;
      how, r, scan := ScanValue(mem[pt]);
      if !how.Went? { return; }
      ghost var x1 := Now();
      mem[pt] := r;
      todo := todo - {pt};
      ValueScanned(S, x, x1, Now(), pt, v, r, scan);
    }

    /** Scan a word of a copy, unless it clearly holds no address. */
    method ScanField(pt: nat) returns (how: Outcome, scan: Option<Word>, ghost v: Word)
      requires Valid() && pt in todo
      modifies mem, graves, this
      ensures Valid() && (how.Went? ==> Scans(Fixed(), old(Now()), Now(), pt, scan, v))
      ensures how.Went? || Starved(how)
    {
      hide ExportOk, Scans;
      ghost var x := Now();
      FieldToScan(Fixed(), x, pt);
      if mem[pt].Tagged? || mem[pt] == Zero {
        how, scan, v := Went, None, mem[pt];
        todo := todo - {pt};
        NoAddress(Fixed(), x, Now(), pt, v);
      } else {
        how, scan, v := ScanAddressAt(pt);
      }
    }

    /** Scan the words of a copy from the end, as far as the first that leads to a new copy. */
    method ScanBack(obj: nat, length: nat, ghost rest: set<nat>) returns (how: Outcome, end: nat, last: Option<Word>, ghost v: Word)
      requires Valid() && todo == rest + Range(obj, obj + length) && rest !! Range(obj, obj + length)
      modifies mem, graves, this
      ensures Valid() && (how.Went? && last.None? ==> todo == rest && copies == old(copies))
      ensures how.Went? || Starved(how)
      ensures how.Went? && last.Some? ==> obj < end <= obj + length
      ensures how.Went? && last.Some? ==> Found(Fixed(), old(copies), Now(), rest + Range(obj, end - 1), end - 1, last.value, v)
    {
      hide ExportOk, Scans, Found, Range;
      ghost var copies0 := copies;
      how, end, last, v := Went, obj + length, None, Zero;
      while end != obj
        invariant how.Went? && obj <= end <= obj + length && last.None? && Valid()
        invariant todo == rest + Range(obj, end) && rest !! Range(obj, end) && copies == copies0
      {
        ghost var x := Now();
        RangeLess(obj, end);
        how, last, v := ScanField(end - 1);
        if !how.Went? { return; }
        if last.Some? {
          FoundNew(Fixed(), x, Now(), rest + Range(obj, end - 1), end - 1, last.value, v);
          return;
        }
        ScansNone(Fixed(), x, Now(), end - 1, v);
        end := end - 1;
      }
      assert Range(obj, obj) == {} by { NoRange(obj); }
    }

    /** Scan the field at base and, if that makes a new copy, the new copy. */
    method ScanForwardField(base: nat) returns (how: Outcome)
      requires Valid() && base in todo
      modifies mem, graves, this
      ensures Valid() && (how.Went? ==> todo == old(todo) - {base} && Grows(old(copies), copies))
      ensures how.Went? || Starved(how)
      decreases Left(live, copies), 0
    {
      hide ExportOk, Scans, FieldsOf, IsCopy, Grows, ScansNew;
      ghost var x := Now();
      var header;
      ghost var v;
      how, header, v := ScanField(base);
      if !how.Went? { return; }
      if header.None? {
        ScansNone(Fixed(), x, Now(), base, v);
        GrowsStart(copies);
      } else {
        ghost var y := Now();
        ScansSome(Fixed(), x, y, base, header.value, v);
        var obj := mem[base].addr;
        how := ScanAddressesInObject(obj, header.value, v.addr);
        if how.Went? { GrowsTwice(x.copies, y.copies, copies); }
      }
    }

    /** Scan the words from first to end - 1, and the copies that are made for them. */
    method ScanForward(first: nat, end: nat, ghost keep: set<nat>) returns (how: Outcome)
      requires Valid() && first <= end && Waiting(todo, keep, first, end)
      modifies mem, graves, this
      ensures Valid() && (how.Went? ==> todo == keep && Grows(old(copies), copies))
      ensures how.Went? || Starved(how)
      decreases Left(live, copies), 1
    {
      hide ExportOk, Waiting, Grows, Left;
      ghost var copies0 := copies;
      GrowsStart(copies0);
      how := Went;
      var base := first;
      while base < end
        invariant how.Went? && first <= base <= end && Valid() && Grows(copies0, copies)
        invariant Waiting(todo, keep, base, end)
        invariant Left(live, copies) <= Left(live, copies0)
      {
        ghost var copies1, todo1 := copies, todo;
        FirstWaits(todo1, keep, base, end);
        how := ScanForwardField(base);
        if !how.Went? { return; }
        NoMoreLeft(live, copies1, copies);
        GrowsTwice(copies0, copies1, copies);
        WaitsAfter(todo1, todo, keep, base, end);
        base := base + 1;
      }
      NoneWaits(todo, keep, base);
    }

    /**
     Scan the copy of the object at a, and the copies that are made for its fields, until no field of any
     of them waits. The last field that leads to a new copy is dealt with by going round the loop again,
     the others by recursion.
     */
    method ScanAddressesInObject(first: nat, header: Word, ghost a: nat) returns (how: Outcome)
      requires Valid() && IsCopy(Fixed(), copies, a, first, header) && header.Length? && FieldsOf(first, header) <= todo
      modifies mem, graves, this
      ensures Valid() && (how.Went? ==> todo == old(todo) - FieldsOf(first, header) && Grows(old(copies), copies))
      ensures how.Went? || Starved(how)
      decreases Left(live, copies), 2
    {
      hide ExportOk, Found, Grows, Range, Left, IsCopy, Waiting;
      ghost var S, copies0 := Fixed(), copies;
      ghost var rest := todo - FieldsOf(first, header);
      var obj: nat, lengthWord := first, header;
      ghost var o := a;
      GrowsStart(copies);
      HeaderOfCopy(S, copies, a, first, header);
      while true
        invariant Valid() && IsCopy(S, copies, o, obj, lengthWord) && Grows(copies0, copies)
        invariant lengthWord.Length? && rest !! FieldsOf(obj, lengthWord) && todo == rest + FieldsOf(obj, lengthWord)
        invariant Left(live, copies) <= Left(live, copies0)
        decreases Left(live, copies)
      {
        HeaderOfCopy(S, copies, o, obj, lengthWord);
        if lengthWord.isByte { return Went; }
        ghost var x := Now();
        var end, last;
        ghost var v;
        how, end, last, v := ScanBack(obj, lengthWord.length, rest);
        if !how.Went? || last.None? { return; }
        ghost var y := Now();
        FoundCopy(S, x.copies, y, rest + Range(obj, end - 1), end - 1, last.value, v);
        ghost var next := y.copies[v.addr];
        OneLessLeft(live, x.copies, y.copies, v.addr);
        SideWaits(y.todo, rest, obj, end - 1, obj + lengthWord.length, FieldsOf(next, last.value));
        how := ScanForward(obj, end - 1, rest + FieldsOf(next, last.value));
        if !how.Went? { return; }
        DoneStays(S, x.copies, y, Now(), o, obj, end - 1);
        NoMoreLeft(live, y.copies, copies);
        GrowsTwice(x.copies, y.copies, copies);
        GrowsTwice(copies0, x.copies, copies);
        CopyStays(S, y.copies, copies, v.addr, next, last.value);
        o := v.addr;
        obj, lengthWord := mem[end - 1].addr, last.value;
      }
    }

    /** Copy an object and everything it leads to; the answer is where the copy is. */
    method ScanObjectAddress(root: nat) returns (how: Outcome, r: nat)
      requires Valid() && todo == {} && root in live && ExportState.FieldOk(Fixed(), Pointer(root))
      modifies mem, graves, this
      ensures Valid() && (how.Went? ==> todo == {} && Grows(old(copies), copies))
      ensures how.Went? ==> Translated(Fixed(), copies, Pointer(root), Pointer(r))
      ensures old(NoRoomAt(Pointer(root))) ==> how == Failure(orig[root - 1])
      ensures how.Went? || Starved(how)
    {
      hide ExportOk, Translated, Grows;
      ghost var x := Now();
      var v, scan;
      how, v, scan := ScanValue(Pointer(root));
      if !how.Went? { r := 0; return; }
      assert v.Pointer? by { ToPointer(Fixed(), copies, root, v); }
      r := v.addr;
      if scan.Some? {
        ghost var y := Now();
        assert IsCopy(Fixed(), copies, root, r, scan.value);
        how := ScanAddressesInObject(r, scan.value, root);
        if how.Went? {
          TranslationStays(Fixed(), y.copies, copies, Pointer(root), v);
          GrowsTwice(x.copies, y.copies, copies);
        }
      }
    }
  }

  /** The copy at d of the object at a, with that header. */
  ghost predicate IsCopy(S: Setting, copies: map<nat, nat>, a: nat, d: nat, header: Word) {
    a in copies && copies[a] == d && 0 < a <= |S.orig| && S.orig[a - 1] == header && header.Length?
  }

  /** What scanning the field v at pt of a copy does. */
  ghost predicate Scans(S: Setting, x: Export, x': Export, pt: nat, scan: Option<Word>, v: Word) {
    && Grows(x.copies, x'.copies) && pt < |x'.mem|
    && (scan.None? ==> x'.copies == x.copies && x'.todo == x.todo - {pt})
    && (scan.Some? ==> ScansNew(S, x, x', pt, scan.value, v))
  }

  ghost predicate ScansNew(S: Setting, x: Export, x': Export, pt: nat, header: Word, v: Word) {
    && v.Pointer? && v.addr !in x.copies && v.addr in S.live && v.addr in x'.copies
    && pt < |x'.mem| && x'.mem[pt] == Pointer(x'.copies[v.addr])
    && IsCopy(S, x'.copies, v.addr, x'.copies[v.addr], header)
    && x.todo !! FieldsOf(x'.copies[v.addr], header)
    && x'.todo == (x.todo - {pt}) + FieldsOf(x'.copies[v.addr], header)
  }

  lemma ValueScanned(S: Setting, x: Export, x1: Export, x2: Export, pt: nat, v: Word, r: Word, scan: Option<Word>)
    requires ExportOk(S, x1) && ScanResult(S, x, x1, v, r, scan) && pt in x.todo && pt < |x.mem| == |x1.mem| && v == x.mem[pt]
    requires x2 == x1.(mem := x1.mem[pt := r], todo := x1.todo - {pt})
    ensures ExportOk(S, x2) && Scans(S, x, x2, pt, scan, v)
  {
    hide ExportOk, Translated;
    Scanned(S, x1, x2, pt);
  }

  lemma NoAddress(S: Setting, x: Export, x': Export, pt: nat, v: Word)
    requires ExportOk(S, x) && pt in x.todo && pt < |x.mem| && v == x.mem[pt] && !v.Pointer?
    requires x' == x.(todo := x.todo - {pt})
    ensures ExportOk(S, x') && Scans(S, x, x', pt, None, v)
  {
    hide ExportOk;
    Scanned(S, x, x', pt);
  }

  lemma GrowsStart(copies: map<nat, nat>)
    ensures Grows(copies, copies)
  {
  }

  lemma RangeLess(p: nat, q: nat)
    requires p < q
    ensures Range(p, q) == Range(p, q - 1) + {q - 1} && q - 1 !in Range(p, q - 1)
    ensures Range(p, q) == Range(p + 1, q) + {p} && p !in Range(p + 1, q)
  {
    assert forall w :: Within(p, w, q) <==> Within(p, w, q - 1) || w == q - 1;
    assert forall w :: Within(p, w, q) <==> Within(p + 1, w, q) || w == p;
  }

  lemma ScansNone(S: Setting, x: Export, x': Export, pt: nat, v: Word)
    requires Scans(S, x, x', pt, None, v)
    ensures x'.copies == x.copies && x'.todo == x.todo - {pt}
  {
  }

  lemma SuitsKind(space: ExportSpace, header: Word, isNoOverwrite: bool, isByteObj: bool)
    requires header.Length?
    requires isNoOverwrite == (header.isMutable && header.isNoOverwrite) && isByteObj == (header.isMutable && header.isByte)
    ensures Suits(space, header) <==>
      && header.isMutable == space.isMutable && isNoOverwrite == space.noOverwrite && isByteObj == space.byteOnly
      && space.top - space.topPointer > header.length
  {
  }

  lemma IsForKind(space: ExportSpace, header: Word, isNoOverwrite: bool, isByteObj: bool)
    requires header.Length? && header.isMutable == space.isMutable && isNoOverwrite == space.noOverwrite && isByteObj == space.byteOnly
    requires isNoOverwrite == (header.isMutable && header.isNoOverwrite) && isByteObj == (header.isMutable && header.isByte)
    ensures ForKind(space, header)
  {
  }

  lemma NotExported(S: Setting, x: Export, p: nat)
    requires ExportOk(S, x) && p < S.limit
    ensures !InExport(x.spaces, p)
  {
    hide SettingOk, HeapKept, GravesOk, CopiesOk, WordsOk;
    assert forall i :: 0 <= i < |x.spaces| ==> SpaceOk(S.limit, x.brk, x.spaces[i]);
  }

  lemma BrkInMemory(S: Setting, x: Export)
    requires ExportOk(S, x)
    ensures x.brk <= |x.mem| == |x.graves| == |S.orig|
  {
  }

  lemma RoomBounds(S: Setting, x: Export, header: Word, d: nat)
    requires header.Length? && Room(S, x, header, d)
    ensures S.limit < d && d + header.length <= |x.mem|
  {
  }

  /** The fields of a new copy were not waiting, and those that were are as they were. */
  lemma CopyIsNew(S: Setting, x: Export, x': Export, p: nat, d: nat, header: Word)
    requires ExportOk(S, x) && IsObject(S, p) && p !in x.copies && header == S.orig[p - 1] && header.Length?
    requires Room(S, x, header, d) && IsCopied(S, x, x', p, d)
    ensures x.todo !! FieldsOf(d, header)
    ensures x'.copies == x.copies[p := d] && x'.todo == x.todo + FieldsOf(d, header) && |x'.mem| == |x.mem|
    ensures forall w :: w in x.todo && w < |x.mem| ==> x'.mem[w] == x.mem[w]
  {
    hide SettingOk, HeapKept, GravesOk, ExportSpacesOk, Housed, NotSpare, ReadOnly;
    forall w | w in x.todo
      ensures S.limit <= w && !(d - 1 <= w < d + header.length)
    {
      var a: nat :| a in x.copies && FieldOfCopy(S, x, a, w);
      assert CopyAt(S, x, a, x.copies[a]);
    }
  }

  lemma ScansSome(S: Setting, x: Export, x': Export, pt: nat, header: Word, v: Word)
    requires Scans(S, x, x', pt, Some(header), v)
    ensures Grows(x.copies, x'.copies) && v.Pointer? && v.addr in x'.copies && pt < |x'.mem|
    ensures x'.mem[pt] == Pointer(x'.copies[v.addr]) && IsCopy(S, x'.copies, v.addr, x'.copies[v.addr], header) && header.Length?
    ensures x.todo !! FieldsOf(x'.copies[v.addr], header)
    ensures x'.todo == (x.todo - {pt}) + FieldsOf(x'.copies[v.addr], header)
    ensures Left(S.live, x'.copies) < Left(S.live, x.copies)
  {
    hide FieldsOf;
    OneLessLeft(S.live, x.copies, x'.copies, v.addr);
  }

  /** What scanning from the end has found: a field at pt that leads to a new copy; s waits besides. */
  ghost predicate Found(S: Setting, copies: map<nat, nat>, x: Export, s: set<nat>, pt: nat, header: Word, v: Word) {
    && Grows(copies, x.copies) && v.Pointer? && v.addr !in copies && v.addr in S.live && v.addr in x.copies
    && pt < |x.mem| && x.mem[pt] == Pointer(x.copies[v.addr]) && IsCopy(S, x.copies, v.addr, x.copies[v.addr], header)
    && x.todo == s + FieldsOf(x.copies[v.addr], header) && s !! FieldsOf(x.copies[v.addr], header)
    && pt !in FieldsOf(x.copies[v.addr], header)
  }

  lemma FoundNew(S: Setting, x: Export, x': Export, s: set<nat>, pt: nat, header: Word, v: Word)
    requires Scans(S, x, x', pt, Some(header), v) && x.todo == s + {pt} && pt !in s
    ensures Found(S, x.copies, x', s, pt, header, v)
  {
    hide FieldsOf, IsCopy;
    assert header.Length? by { ScansSome(S, x, x', pt, header, v); }
  }

  lemma FoundCopy(S: Setting, copies: map<nat, nat>, x: Export, s: set<nat>, pt: nat, header: Word, v: Word)
    requires Found(S, copies, x, s, pt, header, v)
    ensures Grows(copies, x.copies) && v.Pointer? && v.addr !in copies && v.addr in S.live && v.addr in x.copies
    ensures pt < |x.mem| && x.mem[pt] == Pointer(x.copies[v.addr])
    ensures IsCopy(S, x.copies, v.addr, x.copies[v.addr], header) && header.Length?
    ensures x.todo == s + FieldsOf(x.copies[v.addr], header) && s !! FieldsOf(x.copies[v.addr], header)
    ensures pt !in FieldsOf(x.copies[v.addr], header)
  {
  }

  lemma GrowsTwice(c0: map<nat, nat>, c1: map<nat, nat>, c2: map<nat, nat>)
    requires Grows(c0, c1) && Grows(c1, c2)
    ensures Grows(c0, c2)
  {
  }

  /** With more copied there is less left to copy. */
  lemma FewerLeft(live: set<nat>, copies: map<nat, nat>, copies': map<nat, nat>, s: set<nat>)
    requires Grows(copies, copies') && s <= live && s !! copies.Keys && s <= copies'.Keys
    ensures Left(live, copies') + |s| <= Left(live, copies)
  {
    var left := (live - copies'.Keys) + s;
    assert left <= live - copies.Keys && |left| == |live - copies'.Keys| + |s|;
    SubsetSize(left, live - copies.Keys);
  }

  lemma NoMoreLeft(live: set<nat>, copies: map<nat, nat>, copies': map<nat, nat>)
    requires Grows(copies, copies')
    ensures Left(live, copies') <= Left(live, copies)
  {
    FewerLeft(live, copies, copies', {});
  }

  lemma OneLessLeft(live: set<nat>, copies: map<nat, nat>, copies': map<nat, nat>, p: nat)
    requires Grows(copies, copies') && p in live && p !in copies && p in copies'
    ensures Left(live, copies') < Left(live, copies)
  {
    FewerLeft(live, copies, copies', {p});
  }

  lemma {:induction false} SubsetSize(s: set<nat>, t: set<nat>)
    requires s <= t
    ensures |s| <= |t|
  {
    if s != {} {
      var x :| x in s;
      SubsetSize(s - {x}, t - {x});
    }
  }

  lemma FirstWaits(todo: set<nat>, s: set<nat>, p: nat, q: nat)
    requires Waiting(todo, s, p, q) && p < q
    ensures p in todo
  {
    assert Within(p, p, q);
  }

  lemma WaitsAfter(todo: set<nat>, todo': set<nat>, s: set<nat>, p: nat, q: nat)
    requires Waiting(todo, s, p, q) && p < q && todo' == todo - {p}
    ensures Waiting(todo', s, p + 1, q)
  {
    RangeLess(p, q);
    hide Range;
  }

  lemma NoneWaits(todo: set<nat>, s: set<nat>, p: nat)
    requires Waiting(todo, s, p, p)
    ensures todo == s
  {
    NoRange(p);
  }

  /** The fields before the one that was found wait besides those of the new copy; that one does not. */
  lemma SideWaits(todo: set<nat>, rest: set<nat>, p: nat, q: nat, q': nat, fields: set<nat>)
    requires q < q' && p <= q && rest !! Range(p, q') && todo == rest + Range(p, q) + fields && rest + Range(p, q) !! fields
    ensures Waiting(todo, rest + fields, p, q) && q !in rest
    ensures q !in fields ==> q !in todo
  {
    assert forall w :: Within(p, w, q) ==> Within(p, w, q');
    assert Within(p, q, q');
  }

  lemma CopyStays(S: Setting, copies: map<nat, nat>, copies': map<nat, nat>, a: nat, d: nat, header: Word)
    requires IsCopy(S, copies, a, d, header) && Grows(copies, copies')
    ensures IsCopy(S, copies', a, d, header)
  {
  }

  lemma HeaderOfCopy(S: Setting, copies: map<nat, nat>, a: nat, d: nat, header: Word)
    requires IsCopy(S, copies, a, d, header)
    ensures header.Length? && a in copies && copies[a] == d && 0 < a <= |S.orig| && S.orig[a - 1] == header
  {
  }

  lemma NoRange(p: nat)
    ensures Range(p, p) == {}
  {
  }

  lemma ToPointer(S: Setting, copies: map<nat, nat>, p: nat, r: Word)
    requires Translated(S, copies, Pointer(p), r)
    ensures r.Pointer?
  {
  }

  lemma TranslationStays(S: Setting, copies: map<nat, nat>, copies': map<nat, nat>, v: Word, r: Word)
    requires Translated(S, copies, v, r) && Grows(copies, copies')
    ensures Translated(S, copies', v, r)
  {
  }

  lemma TranslationIsOne(S: Setting, copies: map<nat, nat>, copies': map<nat, nat>, v: Word, r: Word, r': Word)
    requires Translated(S, copies, v, r) && Translated(S, copies', v, r') && Grows(copies, copies')
    ensures r == r'
  {
  }

  /** A field that has been scanned does not change again. */
  lemma DoneStays(S: Setting, copies: map<nat, nat>, x: Export, x': Export, a: nat, d: nat, w: nat)
    requires ExportOk(S, x) && ExportOk(S, x') && Grows(copies, x.copies) && Grows(x.copies, x'.copies)
    requires a in copies && copies[a] == d
    requires 0 < a <= |S.orig| && S.orig[a - 1].Length? && !S.orig[a - 1].isByte
    requires d <= w < d + S.orig[a - 1].length && w !in x.todo && w !in x'.todo
    ensures w < |x.mem| && w < |x'.mem| && x'.mem[w] == x.mem[w]
  {
    hide SettingOk, HeapKept, GravesOk, ExportSpacesOk, Translated, IsObject, Housed, NotSpare;
    assert CopyAt(S, x, a, d) && CopyAt(S, x', a, d);
    SizesKnown(S, a);
    var i: nat := w - d;
    assert WordOk(S, x, a, i) && WordOk(S, x', a, i);
    TranslationIsOne(S, x.copies, x'.copies, S.orig[a + i], x.mem[w], x'.mem[w]);
  }
}
