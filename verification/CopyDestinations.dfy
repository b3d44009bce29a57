/** Where the copy phase puts cells: which spaces become destinations, and in what order. */
module CopyDestinations {
  import opened Heap
  import opened Moves
  import opened CopySteps
  import opened CopyResults

  /** Space k is meant for cells of one kind, and new cells are not allocated in it. */
  predicate Holds(c: Config, k: nat, isMutable: bool)
    requires k < |c.spaces|
  {
    c.spaces[k].isMutable == isMutable && !c.spaces[k].isAllocation
  }

  /**
   A destination is the task's own source or a space for cells of its kind, and every space for cells of that
   kind up to it has an owner.
   */
  predicate Fits(c: Config, s: State, source: Option<nat>, dest: Option<nat>, isMutable: bool)
    requires SizesOk(c, s)
  {
    dest.Some? ==>
      && dest.value < |c.spaces|
      && (dest == source || Holds(c, dest.value, isMutable))
      && forall k :: 0 <= k <= dest.value && Holds(c, k, isMutable) ==> s.owner[k] != None
  }

  predicate TaskFits(c: Config, s: State, w: Worker)
    requires SizesOk(c, s)
  {
    match w
    case Idle => true
    case Choosing(i, d) => Fits(c, s, None, d.mutableDest, true) && Fits(c, s, None, d.immutableDest, false)
    case Scanning(src, at, d) =>
      && src < |c.spaces| && s.owner[src] != None
      && Fits(c, s, Some(src), d.mutableDest, true) && Fits(c, s, Some(src), d.immutableDest, false)
  }

  predicate TasksFit(c: Config, s: State) {
    SizesOk(c, s) && forall t :: 0 <= t < |s.workers| ==> TaskFits(c, s, s.workers[t])
  }

  /** Ownership is never given up. */
  lemma OwnersStay(c: Config, s: State, s': State, step: Step)
    requires SizesOk(c, s) && IsStep(c, s, s', step)
    ensures SizesOk(c, s') && |s'.workers| == |s.workers|
    ensures forall k :: 0 <= k < |c.spaces| && s.owner[k] != None ==> s'.owner[k] != None
    ensures step.t < |s.workers| && forall u :: 0 <= u < |s.workers| && u != step.t ==> s'.workers[u] == s.workers[u]
  {
    hide Allocates, FirstSet, Interval;
  }

  lemma StillFits(c: Config, s: State, s': State, w: Worker)
    requires SizesOk(c, s) && SizesOk(c, s') && TaskFits(c, s, w)
    requires forall k :: 0 <= k < |c.spaces| && s.owner[k] != None ==> s'.owner[k] != None
    ensures TaskFits(c, s', w)
  {
  }

  /** The space a task turns to is the first without an owner of those meant for the cell, or its own source. */
  lemma NextFits(c: Config, s: State, s': State, t: nat, w: nat, m: nat)
    requires SizesOk(c, s) && SizesOk(c, s') && NextSpace(c, s, s', t, w, m) && TaskFits(c, s, s.workers[t])
    requires forall k :: 0 <= k < |c.spaces| && s.owner[k] != None ==> s'.owner[k] != None
    ensures TaskFits(c, s', s'.workers[t])
  {
    hide Allocates, FirstSet;
    assert IsScanning(c, s, t) && |s'.workers| == |s.workers|;
    var src, d, isMutable := s.workers[t].src, s.workers[t].d, s.mem[w].isMutable;
    StillFits(c, s, s', s.workers[t]);
    forall k | 0 <= k <= m && Holds(c, k, isMutable)
      ensures s'.owner[k] != None
    {
      if After(CurrentDest(d, isMutable)) <= k < m {
        assert !Open(c, s, isMutable, k);
      }
    }
  }

  lemma StepFits(c: Config, s: State, s': State, step: Step)
    requires TasksFit(c, s) && IsStep(c, s, s', step)
    ensures TasksFit(c, s')
  {
    hide Allocates, FirstSet, Moved, Interval, Searched, Suits, Fits;
    OwnersStay(c, s, s', step);
    forall u | 0 <= u < |s.workers|
      ensures TaskFits(c, s', s'.workers[u])
    {
      StillFits(c, s, s', s.workers[u]);
      if u == step.t {
        match step
        case Next(t, w, m) => NextFits(c, s, s', t, w, m);
        case Top(t) => LeavesFitting(c, s', s.workers[t].src, s.workers[t].at, s.workers[t].d);
        case Stay(t, w) => LeavesFitting(c, s', s.workers[t].src, s.workers[t].at, s.workers[t].d);
        case Start(t) => NoneFits(c, s', |c.spaces|);
        case Take(t, src) => SourceFits(c, s', src, s.lower[src], s.workers[t].d);
        case _ =>
      }
    }
  }

  lemma NoneFits(c: Config, s: State, i: nat)
    requires SizesOk(c, s)
    ensures TaskFits(c, s, Choosing(i, Dests(None, None)))
  {
  }

  lemma SourceFits(c: Config, s: State, src: nat, at: nat, d: Dests)
    requires SizesOk(c, s) && src < |c.spaces| && s.owner[src] != None && TaskFits(c, s, Choosing(src + 1, d))
    ensures TaskFits(c, s, Scanning(src, at, d))
  {
  }

  lemma LeavesFitting(c: Config, s: State, src: nat, at: nat, d: Dests)
    requires SizesOk(c, s) && TaskFits(c, s, Scanning(src, at, d))
    ensures TaskFits(c, s, Leave(src, d))
  {
  }

  lemma {:induction false} RunFits(c: Config, run: seq<State>, steps: seq<Step>, i: nat)
    requires IsRun(c, run, steps) && i <= |steps|
    requires SizesOk(c, run[0]) && forall t :: 0 <= t < |run[0].workers| ==> run[0].workers[t] == Idle
    ensures TasksFit(c, run[i])
  {
    hide IsStep;
    if i > 0 {
      RunFits(c, run, steps, i - 1);
      StepFits(c, run[i - 1], run[i], steps[i - 1]);
    }
  }

  /**
   In every run a cell is copied within its source, or to a space of its own kind that is no allocation space; only
   an immutable cell whose task has no place for immutable cells yet may go to a mutable space. All spaces of the
   kind chosen that come before the destination have owners. The cell goes to the highest words free for it there,
   its header at q.
   */
  lemma CopyDestination(c: Config, run: seq<State>, steps: seq<Step>, i: nat, t: nat, w: nat, m: nat, q: nat)
    requires IsRun(c, run, steps) && i < |steps| && steps[i] == Copy(t, w, m, q)
    requires SizesOk(c, run[0]) && forall t :: 0 <= t < |run[0].workers| ==> run[0].workers[t] == Idle
    ensures SizesOk(c, run[i]) && t < |run[i].workers| && run[i].workers[t].Scanning?
    ensures w < |run[i].mem| && run[i].mem[w].Length? && m < |c.spaces|
    ensures
      var cell, d := run[i].mem[w], run[i].workers[t].d;
      || m == run[i].workers[t].src
      || (!c.spaces[m].isAllocation &&
          (c.spaces[m].isMutable == cell.isMutable || (!cell.isMutable && d.immutableDest == None)))
    ensures
      var cell, d := run[i].mem[w], run[i].workers[t].d;
      var kind := cell.isMutable || d.immutableDest == None;
      forall k :: 0 <= k < m && c.spaces[k].isMutable == kind && !c.spaces[k].isAllocation ==> run[i].owner[k] != None
    ensures
      var n, top := run[i].mem[w].length + 1, c.spaces[m].top;
      && FreeRun(run[i].bits, q, n) && q + n <= top
      && forall r: nat :: q < r && r + n <= top ==> !FreeRun(run[i].bits, r, n)
  {
    RunFits(c, run, steps, i);
    var s := run[i];
    assert IsStep(c, s, run[i + 1], steps[i]);
    hide IsStep, FirstSet;
    assert TaskFits(c, s, s.workers[t]);
    var isMutable := s.mem[w].isMutable || s.workers[t].d.immutableDest == None;
    forall k | 0 <= k < m && !c.spaces[k].isAllocation && c.spaces[k].isMutable == isMutable
      ensures s.owner[k] != None
    {
      assert Holds(c, k, isMutable);
    }
  }

  /**
   A task turns to a further space only when the place it has for the cell is full, and then takes the first
   space for cells of that kind that has no owner and comes before its source.
   */
  lemma NextDestination(c: Config, run: seq<State>, steps: seq<Step>, i: nat, t: nat, w: nat, m: nat)
    requires IsRun(c, run, steps) && i < |steps| && steps[i] == Next(t, w, m)
    requires SizesOk(c, run[0]) && forall t :: 0 <= t < |run[0].workers| ==> run[0].workers[t] == Idle
    ensures SizesOk(c, run[i]) && t < |run[i].workers| && run[i].workers[t].Scanning?
    ensures w < |run[i].mem| && run[i].mem[w].Length? && m <= run[i].workers[t].src < |c.spaces|
    ensures
      var isMutable := run[i].mem[w].isMutable;
      && (m == run[i].workers[t].src ||
          (c.spaces[m].isMutable == isMutable && !c.spaces[m].isAllocation && run[i].owner[m] == None))
      && forall k :: 0 <= k < m && c.spaces[k].isMutable == isMutable && !c.spaces[k].isAllocation ==>
           run[i].owner[k] != None
    ensures
      var s, cell, n, d := run[i], run[i].mem[w], run[i].mem[w].length + 1, run[i].workers[t].d;
      var place := if cell.isMutable || d.immutableDest == None then d.mutableDest else d.immutableDest;
      place.Some? ==>
        && place.value != s.workers[t].src && place.value < |c.spaces|
        && forall r: nat :: c.spaces[place.value].bottom < r && r + n <= c.spaces[place.value].top ==>
             !FreeRun(s.bits, r, n)
  {
    RunFits(c, run, steps, i);
    var s := run[i];
    assert IsStep(c, s, run[i + 1], steps[i]);
    hide IsStep, FirstSet;
    assert TaskFits(c, s, s.workers[t]);
    var d, isMutable := s.workers[t].d, s.mem[w].isMutable;
    forall k | 0 <= k < m && c.spaces[k].isMutable == isMutable && !c.spaces[k].isAllocation
      ensures s.owner[k] != None
    {
      assert Holds(c, k, isMutable) && (k >= After(CurrentDest(d, isMutable)) ==> !Open(c, s, isMutable, k));
    }
  }
  /**
   A task leaves a source when nothing allocated is left in it from its position on, or when the cell it has come to
   has no room higher up in the source, which then holds no immutable cells that would have to leave a mutable space.
   */
  lemma LeavesSource(c: Config, s: State, s': State, step: Step)
    requires IsStep(c, s, s', step) && step.t < |s.workers| == |s'.workers|
    requires s.workers[step.t].Scanning? && s'.workers[step.t].Choosing?
    ensures SizesOk(c, s) && s.workers[step.t].src < |c.spaces|
    ensures
      var src, at := s.workers[step.t].src, s.workers[step.t].at;
      || (forall b :: b in s.bits && at <= b ==> c.spaces[src].top <= b)
      || (&& step.Stay? && step.w < |s.mem| && s.mem[step.w].Length? && at <= step.w && step.w in s.bits
          && (forall b :: b in s.bits && at <= b ==> step.w <= b)
          && (c.spaces[src].isMutable ==> c.iMarked[src] == 0)
          && var n := s.mem[step.w].length + 1;
             forall r: nat :: step.w + n < r && r + n <= c.spaces[src].top ==> !FreeRun(s.bits, r, n))
  {
    hide FreeRun;
    var src := s.workers[step.t].src;
    if step.Stay? {
      assert Limit(c, s, step.t, step.w, src) == step.w + s.mem[step.w].length + 1;
    }
  }
}
