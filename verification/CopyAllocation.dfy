/** The allocation that the steps of the copy phase take, made by the search through the bitmap and its cache. */
module CopyAllocation {
  import opened Heap
  import opened LocalSpaces
  import Moves
  import CopySteps
  import UpdatePhase

  /** Free words by the bitmap of an area are free words. */
  lemma SameRuns(area: LocalMemSpace, spaces: seq<Space>, bits: set<nat>, k: nat, r: nat, n: nat)
    requires UpdatePhase.AreaOk(area, spaces, bits, area.upperAllocPtr, k) && area.bottom <= r && r + n <= area.top
    ensures CopySteps.FreeRun(bits, r, n) <==> area.bitmap.FreeRun(r - area.bottom, n)
  {
    if CopySteps.FreeRun(bits, r, n) {
      forall i: nat | r - area.bottom <= i < r - area.bottom + n
        ensures !area.bitmap.TestBit(i)
      {
        assert Moves.Within(area.bottom + i, r, n);
      }
    } else {
      var w: nat :| w in bits && Moves.Within(w, r, n);
      assert area.bitmap.TestBit(w - area.bottom);
    }
  }

  /**
   Allocate n words in the area of space k. The result is one that a step of the copy phase takes, and the
   bits, the bound of the retained words and the limit are afterwards those of the state after that step.
   */
  method Allocate(area: LocalMemSpace, limit: nat, n: nat, ghost spaces: seq<Space>, ghost bits: set<nat>, ghost k: nat)
    returns (p: Option<nat>)
    requires area.Valid() && 0 < n && area.bottom + area.searchedFrom <= limit
    requires UpdatePhase.AreaOk(area, spaces, bits, area.upperAllocPtr, k)
    modifies area, area.bitmap.m_bits, area.start
    ensures area.Valid() && area.bottom + area.searchedFrom == limit
    ensures CopySteps.Allocates(spaces[k], bits, limit, n, p)
    ensures match p
            case Some(q) =>
              UpdatePhase.AreaOk(area, spaces, bits + Moves.Interval(q, n), CopySteps.Min(old(area.upperAllocPtr), q), k)
            case None => UpdatePhase.AreaOk(area, spaces, bits, old(area.upperAllocPtr), k)
  {
    forall r: nat | area.bottom <= r && r + n <= area.top
      ensures CopySteps.FreeRun(bits, r, n) <==> area.bitmap.FreeRun(r - area.bottom, n)
    {
      SameRuns(area, spaces, bits, k, r, n);
    }
    hide CopySteps.FreeRun;
    var newp := area.FindFreeAndAllocate(limit - area.bottom, n);
    p := if newp == 0 then None else Some(newp);
    forall w: nat | p.Some? && area.bottom <= w < area.top
      ensures area.bitmap.TestBit(w - area.bottom) <==> w in bits + Moves.Interval(newp, n)
    {
      assert Moves.Within(w, newp, n) <==> newp <= w < newp + n;
    }
  }
}
