/** Allocation in a heap space during compaction, through a cache of search starting points. */
module LocalSpaces {
  import opened Bitmaps

  const NSTARTS: nat := 10

  class LocalMemSpace {
    const bottom: nat
    const top: nat
    const bitmap: Bitmap
    const start: array<nat>
    var start_index: nat
    var upperAllocPtr: nat
    /** The largest limit any search has used since the cache was reset. */
    ghost var searchedFrom: nat

    /** A fresh space; addresses are word addresses and zero is not one. */
    constructor (bottom: nat, top: nat)
      requires 0 < bottom <= top
      ensures Valid() && fresh(Repr()) && this.bottom == bottom && this.top == top
      ensures forall k: nat :: k < Words() ==> !bitmap.TestBit(k)
    {
      this.bottom, this.top, this.upperAllocPtr := bottom, top, top;
      this.bitmap := new Bitmap.Create(top - bottom);
      this.start := new nat[NSTARTS](_ => top - bottom);
      start_index := NSTARTS - 1;
      searchedFrom := 0;
    }

    function Words(): nat
      requires bottom <= top
    {
      top - bottom
    }

    ghost function Repr(): set<object>
      reads bitmap
    {
      {this, bitmap, bitmap.m_bits, start}
    }

    /** No free run of k words beginning strictly above limit ends beyond e. */
    ghost predicate Bounds(limit: nat, k: nat, e: nat)
      requires bottom <= top
      reads bitmap, bitmap.m_bits
    {
      forall c: nat :: limit < c && c + k <= Words() && bitmap.FreeRun(c, k) ==> c + k <= e
    }

    ghost predicate Valid()
      reads this, bitmap, bitmap.m_bits, start
    {
      && 0 < bottom <= upperAllocPtr <= top
      && Words() <= bitmap.Size()
      && start.Length == NSTARTS && 0 < start_index < NSTARTS
      && bitmap.m_bits as object != start as object
      && forall k :: 0 < k < NSTARTS ==> start[k] <= Words() && Bounds(searchedFrom, k, start[k])
    }

    /** A run of more words contains a run of fewer that ends at the same place. */
    lemma ShorterRun(limit: nat, k: nat, m: nat, e: nat)
      requires bottom <= top && 0 < k <= m && Bounds(limit, k, e)
      ensures Bounds(limit, m, e)
    {
      forall c: nat | limit < c && c + m <= Words() && bitmap.FreeRun(c, m)
        ensures c + m <= e
      {
        assert bitmap.FreeRun(c + (m - k), k);
      }
    }

    /** What the cache says still holds for a larger limit. */
    lemma LaterSearch(limit: nat, limit': nat, k: nat, e: nat)
      requires bottom <= top && limit <= limit' && Bounds(limit, k, e)
      ensures Bounds(limit', k, e)
    {
    }

    /** Start of the copy phase: nothing is known about the space and nothing is retained in it yet. */
    method ResetForCopy()
      requires 0 < bottom <= top && Words() <= bitmap.Size() && start.Length == NSTARTS
      requires bitmap.m_bits as object != start as object
      modifies this, start
      ensures Valid() && upperAllocPtr == top && searchedFrom == 0
      ensures start_index == NSTARTS - 1 && forall k :: 0 <= k < NSTARTS ==> start[k] == Words()
      ensures bitmap.m_bits == old(bitmap.m_bits) && bitmap.m_bits[..] == old(bitmap.m_bits[..])
    {
      var highest := Words();
      var i := 0;
      while i < NSTARTS
        invariant 0 <= i <= NSTARTS
        invariant forall k :: 0 <= k < i ==> start[k] == highest
        invariant bitmap.m_bits[..] == old(bitmap.m_bits[..])
      {
        start[i] := highest;
        i := i + 1;
      }
      start_index := NSTARTS - 1;
      upperAllocPtr := top;
      searchedFrom := 0;
    }

    /** Looking for more than last time: carry what is known about smaller sizes upwards. */
    method PropagateStarts(truncated: nat)
      requires Valid() && 0 < truncated < NSTARTS
      modifies start, `start_index
      ensures Valid() && start_index == truncated
      ensures forall k :: old(start_index) <= k < truncated ==>
        start[k + 1] == if start[k] < old(start[k + 1]) then start[k] else old(start[k + 1])
      ensures forall k :: 0 <= k < NSTARTS && !(old(start_index) < k <= truncated) ==> start[k] == old(start[k])
    {
      hide Bounds;
      var i := start_index;
      while i < truncated
        invariant start_index <= i && (i <= truncated || i == start_index)
        invariant Valid() && start_index == old(start_index)
        invariant forall k :: start_index <= k < i ==>
          start[k + 1] == if start[k] < old(start[k + 1]) then start[k] else old(start[k + 1])
        invariant forall k :: 0 <= k < NSTARTS && !(start_index < k <= i) ==> start[k] == old(start[k])
      {
        if start[i] < start[i + 1] {
          ShorterRun(searchedFrom, i, i + 1, start[i]);
          start[i + 1] := start[i];
        }
        i := i + 1;
      }
      start_index := truncated;
    }

    /** No free run of n words begins strictly above c. */
    ghost predicate NoneAbove(c: int, n: nat)
      requires bottom <= top
      reads bitmap, bitmap.m_bits
    {
      forall d: nat :: c < d && d + n <= Words() ==> !bitmap.FreeRun(d, n)
    }

    /**
     Allocate the highest free run of n words that begins at or above limit, or answer 0. The
     cache never hides usable space: failure means no run begins strictly above limit. Limits
     never go down between resets.
     */
    method FindFreeAndAllocate(limit: nat, n: nat) returns (newp: nat)
      requires Valid() && 0 < n && searchedFrom <= limit
      modifies this, bitmap.m_bits, start
      ensures Valid() && searchedFrom == limit
      ensures newp == 0 ==> upperAllocPtr == old(upperAllocPtr)
      ensures newp == 0 ==> bitmap.m_bits[..] == old(bitmap.m_bits[..])
      ensures newp == 0 ==> old(NoneAbove(limit, n))
      ensures newp != 0 ==> bottom + limit <= newp && newp + n <= top && old(bitmap.FreeRun(newp - bottom, n))
      ensures newp != 0 ==> old(NoneAbove(newp - bottom, n))
      ensures newp != 0 ==> forall i: nat :: i < bitmap.Size() ==>
        (bitmap.TestBit(i) <==> old(bitmap.TestBit(i)) || newp - bottom <= i < newp - bottom + n)
      ensures newp != 0 ==> upperAllocPtr == if newp < old(upperAllocPtr) then newp else old(upperAllocPtr)
      ensures start_index == if n < NSTARTS then n else NSTARTS - 1
      ensures n < NSTARTS ==> if newp != 0 then start[n] == newp - bottom else start[n] <= limit
    {
      hide Bitmap.FreeRun, Bitmap.TestBit, Bounds, NoneAbove;
      var truncated := if n < NSTARTS then n else NSTARTS - 1;
      PropagateStarts(truncated);
      RaiseLimit(limit);
      var from := start[truncated];
      ShorterRun(limit, truncated, n, from);
      if from <= limit {
        NoneFits(limit, n, from);
        return 0;
      }
      var free := bitmap.FindFree(limit, from, n);
      FoundHighest(limit, n, from, free);
      if n < NSTARTS {
        start[n] := if free == from then 0 else free;
      }
      if free == from {
        return 0;
      }
      newp := TakeRun(free, n);
    }

    /** No run fits if none can end beyond the limit. */
    lemma NoneFits(limit: nat, n: nat, e: nat)
      requires bottom <= top && 0 < n && Bounds(limit, n, e) && e <= limit
      ensures NoneAbove(limit, n)
    {
    }

    /** What the search through the bitmap has found. */
    lemma FoundHighest(limit: nat, n: nat, from: nat, free: nat)
      requires bottom <= top && Bounds(limit, n, from)
      requires free != from ==> limit <= free && forall d: nat :: free < d && d + n <= from ==> !bitmap.FreeRun(d, n)
      requires free == from ==> forall d: nat :: limit < d && d + n <= from ==> !bitmap.FreeRun(d, n)
      ensures NoneAbove(if free == from then limit else free, n)
      ensures free == from ==> Bounds(limit, n, 0)
    {
      hide Bitmap.FreeRun;
    }

    /** Mark a free run as allocated; every run found from now on was free before. */
    method TakeRun(free: nat, n: nat) returns (newp: nat)
      requires 0 < bottom <= upperAllocPtr <= top && Words() <= bitmap.Size() && start.Length == NSTARTS
      requires 0 < start_index < NSTARTS && bitmap.m_bits as object != start as object
      requires 0 < n && free + n <= Words() && bitmap.FreeRun(free, n) && NoneAbove(free, n)
      requires n < NSTARTS ==> start[n] == free
      requires forall k :: 0 < k < NSTARTS && k != n ==> start[k] <= Words() && Bounds(searchedFrom, k, start[k])
      modifies bitmap.m_bits, `upperAllocPtr
      ensures Valid() && newp == bottom + free
      ensures forall i: nat :: i < bitmap.Size() ==>
        (bitmap.TestBit(i) <==> old(bitmap.TestBit(i)) || free <= i < free + n)
      ensures upperAllocPtr == if newp < old(upperAllocPtr) then newp else old(upperAllocPtr)
    {
      bitmap.SetBits(free, n);
      assert forall c: nat, k: nat :: c + k <= bitmap.Size() && bitmap.FreeRun(c, k) ==> old(bitmap.FreeRun(c, k));
      assert bitmap.TestBit(free);
      assert n < NSTARTS ==> Bounds(searchedFrom, n, free);
      newp := bottom + free;
      if newp < upperAllocPtr {
        upperAllocPtr := newp;
      }
    }

    ghost method RaiseLimit(limit: nat)
      requires Valid() && searchedFrom <= limit
      modifies `searchedFrom
      ensures Valid() && searchedFrom == limit
    {
      forall k | 0 < k < NSTARTS
        ensures Bounds(limit, k, start[k])
      {
        LaterSearch(searchedFrom, limit, k, start[k]);
      }
      searchedFrom := limit;
    }
  }
}
