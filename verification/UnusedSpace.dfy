/** Filling unused memory so that a scan of an area always finds objects. */
module UnusedSpace {
  import opened Heap

  /** Immutable byte objects, none longer than the maximum, fill the words from lo to hi - 1 end to end. */
  ghost predicate Filled(mem: seq<Word>, lo: nat, hi: nat, max: nat)
    decreases hi - lo
  {
    lo == hi
    || (lo < hi <= |mem| && mem[lo].Length? && !mem[lo].isMutable && mem[lo].isByte && mem[lo].length <= max
        && lo + 1 + mem[lo].length <= hi && Filled(mem, lo + 1 + mem[lo].length, hi, max))
  }

  /** A further object at the end. */
  lemma {:induction false} OneMoreObject(mem: seq<Word>, mem': seq<Word>, lo: nat, mid: nat, hi: nat, max: nat)
    requires Filled(mem, lo, mid, max) && lo <= mid < hi <= |mem| == |mem'|
    requires forall w :: lo <= w < mid ==> mem'[w] == mem[w]
    requires mem'[mid] == Length(hi - mid - 1, false, true, false) && hi - mid - 1 <= max
    ensures Filled(mem', lo, hi, max)
    decreases mid - lo
  {
    if lo < mid { OneMoreObject(mem, mem', lo + 1 + mem[lo].length, mid, hi, max); }
  }

  /** Immutable byte objects of the greatest length fill these words; apart from their headers they are as they were. */
  ghost predicate Full(was: seq<Word>, mem: seq<Word>, lo: nat, hi: nat, max: nat)
    decreases hi - lo
  {
    lo == hi
    || (lo + 1 + max <= hi <= |mem| == |was| && mem[lo] == Length(max, false, true, false)
        && mem[lo + 1..lo + 1 + max] == was[lo + 1..lo + 1 + max] && Full(was, mem, lo + 1 + max, hi, max))
  }

  /** The words hold objects of the greatest length but for the last, which may be shorter. */
  ghost predicate FullToLast(was: seq<Word>, mem: seq<Word>, lo: nat, hi: nat, max: nat) {
    Full(was, mem, lo, hi, max) ||
    exists mid :: lo <= mid < hi <= |mem| == |was| && Full(was, mem, lo, mid, max)
                  && hi - mid - 1 < max && mem[mid] == Length(hi - mid - 1, false, true, false)
                  && mem[mid + 1..hi] == was[mid + 1..hi]
  }

  /** Objects stay when words from mid on are written; a further one may follow. */
  lemma {:induction false} OneMoreFull(was: seq<Word>, mem: seq<Word>, mem': seq<Word>, lo: nat, mid: nat, max: nat)
    requires Full(was, mem, lo, mid, max) && lo <= mid < |mem| == |mem'| == |was|
    requires forall w :: 0 <= w < |mem| && w != mid ==> mem'[w] == mem[w]
    ensures Full(was, mem', lo, mid, max)
    ensures mid + 1 + max <= |mem'| && mem'[mid] == Length(max, false, true, false)
            && mem'[mid + 1..mid + 1 + max] == was[mid + 1..mid + 1 + max] ==>
      Full(was, mem', lo, mid + 1 + max, max)
    decreases mid - lo
  {
    if lo < mid {
      OneMoreFull(was, mem, mem', lo + 1 + max, mid, max);
      assert mem'[lo + 1..lo + 1 + max] == mem[lo + 1..lo + 1 + max];
    }
  }

  /** What one object more, of the greatest length or up to the end, makes of the words before end. */
  lemma NextObject(start: seq<Word>, was: seq<Word>, mem: seq<Word>, base: nat, mid: nat, end: nat, max: nat, length: nat)
    requires |start| == |was| == |mem| && base <= mid < end <= |mem| && Filled(was, base, mid, max) && Full(start, was, base, mid, max)
    requires forall w :: 0 <= w < |mem| && w != mid ==> mem[w] == was[w]
    requires forall w :: mid < w < |mem| ==> mem[w] == start[w]
    requires mem[mid] == Length(length, false, true, false) && length == if end - mid > max then max else end - mid - 1
    ensures mid + 1 + length <= end && Filled(mem, base, mid + 1 + length, max)
    ensures mid + 1 + length < end ==> Full(start, mem, base, mid + 1 + length, max)
    ensures mid + 1 + length == end ==> FullToLast(start, mem, base, end, max)
  {
    OneMoreObject(was, mem, base, mid, mid + 1 + length, max);
    OneMoreFull(start, was, mem, base, mid, max);
    SameWords(start, mem, mid + 1, mid + 1 + length);
  }

  /** Unused words are made into one or more byte objects, which are always skipped; only their headers are written. */
  method FillUnusedSpace(mem: array<Word>, base: nat, words: nat, max: nat)
    requires base + words <= mem.Length
    modifies mem
    ensures Filled(mem[..], base, base + words, max)
    ensures FullToLast(old(mem[..]), mem[..], base, base + words, max)
    ensures forall w :: 0 <= w < mem.Length && !(base <= w < base + words) ==> mem[w] == old(mem[w])
  {
    ghost var start := mem[..];
    assert Filled(start, base, base, max) && Full(start, start, base, base, max) && FullToLast(start, start, base, base, max);
    hide Filled, Full, FullToLast;
    var pDummy, left := base + 1, words;
    while left > 0
      invariant 0 <= left <= words && pDummy == base + 1 + (words - left)
      invariant Filled(mem[..], base, pDummy - 1, max)
      invariant left > 0 ==> Full(start, mem[..], base, pDummy - 1, max)
      invariant left == 0 ==> FullToLast(start, mem[..], base, base + words, max)
      invariant forall w :: 0 <= w < mem.Length && !(base <= w < pDummy - 1) ==> mem[w] == start[w]
    {
      var oSize := if left > max then max else left - 1;
      ghost var was := mem[..];
      mem[pDummy - 1] := Length(oSize, false, true, false);
      NextObject(start, was, mem[..], base, pDummy - 1, base + words, max, oSize);
      left := left - (oSize + 1);
      pDummy := pDummy + (oSize + 1);
    }
  }

  lemma SameWords(was: seq<Word>, mem: seq<Word>, lo: nat, hi: nat)
    requires lo <= hi <= |mem| == |was| && forall w :: lo <= w < hi ==> mem[w] == was[w]
    ensures mem[lo..hi] == was[lo..hi]
  {
  }
}
