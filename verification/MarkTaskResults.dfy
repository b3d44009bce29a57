/** Whole runs of the marking tasks: what is marked when all of them are done, and when nothing can be lost. */
module MarkTaskResults {
  import opened Heap
  import opened MarkGraph
  import opened MarkTasks
  import opened MarkTaskProofs

  /** The main thread starts with the first marker; nothing is marked and nothing is to be rescanned. */
  ghost predicate Initial(G: Graph, z: Setup, perms: set<nat>, roots: set<nat>, s: State) {
    && GraphOk(G) && z.threads > 0 && |s.markers| == z.threads + 1 && s.main == 0 && s.nInUse == 1 && s.lost == 0 && s.next == 0
    && s.markers[0] == Marker(true, seq(z.stackSize, i => 0), 0, Feeding)
    && (forall t :: 0 < t < |s.markers| ==> s.markers[t] == Marker(false, seq(z.stackSize, i => 0), 0, Resting))
    && s.marked == {} && s.visited == {} && s.again == {} && s.forgotten == {} && s.perms == perms && s.roots == roots
    && |s.starts| == |s.ends| == |G.spaces|
    && (forall k :: 0 <= k < |G.spaces| ==> s.starts[k] == G.spaces[k].top && s.ends[k] == G.spaces[k].bottom)
    && perms <= G.objs && roots <= G.objs && forall o :: o in perms ==> !Local(G, o)
  }

  lemma InitialMarker(G: Graph, z: Setup, reach: set<nat>, s: State, t: nat)
    requires t < |s.markers| && s.main == 0
    requires s.markers[t].slots == seq(z.stackSize, i => 0) && s.markers[t].msp == 0
    requires if t == 0 then s.markers[t].phase == Feeding && s.markers[t].active
             else s.markers[t].phase == Resting && !s.markers[t].active
    ensures MarkerOk(G, z, reach, s, t)
  {
  }

  lemma InitialSound(G: Graph, z: Setup, perms: set<nat>, roots: set<nat>, s: State)
    requires Initial(G, z, perms, roots, s)
    ensures Sound(G, ReachableSet(G, roots, perms), s)
  {
    hide Reachable, Local, Tiled, MarkGraph.FieldOk, Inside;
    ReachableIsClosed(G, roots, perms);
    hide Done, ObjectOk;
  }

  lemma InitialInv(G: Graph, z: Setup, perms: set<nat>, roots: set<nat>, s: State)
    requires Initial(G, z, perms, roots, s)
    ensures Inv(G, z, ReachableSet(G, roots, perms), s)
  {
    hide MarkerOk, Reachable, Local, Covered, ObjectOk;
    InitialSound(G, z, perms, roots, s);
    InitialRanges(G, s);
    hide Sound, GraphOk;
    forall t | 0 <= t < |s.markers|
      ensures MarkerOk(G, z, ReachableSet(G, roots, perms), s, t)
    {
      InitialMarker(G, z, ReachableSet(G, roots, perms), s, t);
    }
  }

  lemma InitialRanges(G: Graph, s: State)
    requires GraphOk(G) && |s.starts| == |s.ends| == |G.spaces|
    requires forall k :: 0 <= k < |G.spaces| ==> s.starts[k] == G.spaces[k].top && s.ends[k] == G.spaces[k].bottom
    ensures RangesIn(G, s)
  {
    hide ObjectOk, EndsWell, Separate;
  }

  /** Every step keeps the invariant. */
  lemma StepKeeps(G: Graph, z: Setup, reach: set<nat>, s: State, s': State, step: Step)
    requires Inv(G, z, reach, s) && IsStep(G, z, s, s', step)
    ensures Inv(G, z, reach, s')
  {
    hide Inv, FeedPermanent, FeedRoot, FeedAgain, EndRoots, BeginRescan, TestStart, TestEnd, ReadStart, ReadEnd, ResetStart;
    hide ResetEnd, ReadCount, WriteCount, BeginTask, Steal, Finish, SkipWord, NoteWord, EndWords, Fork, ToStack;
    hide WidenStart, WidenEnd, MarkFirst, Pop, Clear, Return;
    match step
    case SFeedPermanent(o) => FeedPermanentKeeps(G, z, reach, s, s', o);
    case SFeedRoot(o) => FeedRootKeeps(G, z, reach, s, s', o);
    case SFeedAgain(o) => FeedAgainKeeps(G, z, reach, s, s', o);
    case SEndRoots => LeaveKeeps(G, z, reach, s, s');
    case SBeginRescan => BeginRescanKeeps(G, z, reach, s, s');
    case SResetStart(m, start, end) => ResetStartKeeps(G, z, reach, s, s', m, start, end);
    case SResetEnd(m, start, end) => ResetEndKeeps(G, z, reach, s, s', m, start, end);
    case SWriteCount(count, overwritten) =>
      assert WriteCount(s, s', count, overwritten);
      LeaveKeeps(G, z, reach, s, s');
    case SBeginTask(t, obj) => BeginTaskKeeps(G, z, reach, s, s', t, obj);
    case SSteal(t, v, j) => StealKeeps(G, z, reach, s, s', t, v, j);
    case SFinish(t) => FinishKeeps(G, z, reach, s, s', t);
    case SSkipWord(t) => SkipWordKeeps(G, z, reach, s, s', t);
    case SNoteWord(t) => NoteWordKeeps(G, z, reach, s, s', t);
    case SEndWords(t) => EndWordsKeeps(G, z, reach, s, s', t);
    case SDecide(t) => DecideKeeps(G, z, reach, s, s', t, if Full(z, s) || s.markers[t].msp < 2 then OnStack else ByFork);
    case SForkFails(t) => DecideKeeps(G, z, reach, s, s', t, OnStack);
    case SFork(t, i) => ForkKeeps(G, z, reach, s, s', t, i);
    case SToStack(t) => ToStackKeeps(G, z, reach, s, s', t);
    case SWidenStart(t, k) => WidenStartKeeps(G, z, reach, s, s', t, k);
    case SWidenEnd(t) => WidenEndKeeps(G, z, reach, s, s', t);
    case SMarkFirst(t, cur, first) => MarkFirstKeeps(G, z, reach, s, s', t, cur, first);
    case SPop(t, cur) => PopKeeps(G, z, reach, s, s', t, cur);
    case SClear(t, obj) => ClearKeeps(G, z, reach, s, s', t, obj);
    case SReturn(t, cur) => ReturnKeeps(G, z, reach, s, s', t, cur);
    case _ => ReadingKeeps(G, z, reach, s, s', step);
  }

  /** A run: any interleaving. */
  predicate IsRun(G: Graph, z: Setup, run: seq<State>, steps: seq<Step>) {
    |run| == |steps| + 1 && forall i :: 0 <= i < |steps| ==> IsStep(G, z, run[i], run[i + 1], steps[i])
  }

  lemma {:induction false} RunKeeps(G: Graph, z: Setup, reach: set<nat>, run: seq<State>, steps: seq<Step>)
    requires IsRun(G, z, run, steps) && Inv(G, z, reach, run[0])
    ensures Inv(G, z, reach, run[|steps|])
    decreases |steps|
  {
    hide Inv, IsStep;
    if |steps| > 0 {
      var last := |steps| - 1;
      RunKeeps(G, z, reach, run[..|steps|], steps[..last]);
      StepKeeps(G, z, reach, run[last], run[|steps|], steps[last]);
    }
  }

  /** No task is running and the main thread has fed every root. */
  predicate AllIdle(s: State) {
    AllRest(s) && s.perms == {} && s.roots == {} && s.again == {}
  }

  /** An object that is lost is one that has been marked. */
  lemma StepForgets(G: Graph, z: Setup, reach: set<nat>, s: State, s': State, step: Step)
    requires Inv(G, z, reach, s) && IsStep(G, z, s, s', step) && s.forgotten <= s.marked
    ensures s'.forgotten <= s'.marked
  {
    hide ObjectOk, Local, Sound, AllCovered, MarkerOk, RangesIn, Region, NeedsScan, BytesAt, WidensBeyond;
    if step.SWidenEnd? {
      WideningMarked(G, z, reach, s, step.t);
    } else if step.SResetStart? {
      forall t: nat | t < |s.markers| && WidensBeyond(G, s, t, step.m, HasBoth(step.start, step.end))
        ensures s.markers[t].phase.Widening? && s.markers[t].phase.obj in s.marked
      {
        BeyondWidens(G, s, t, step.m, HasBoth(step.start, step.end));
        WideningMarked(G, z, reach, s, t);
      }
    }
  }

  lemma BeyondWidens(G: Graph, s: State, t: nat, m: nat, stage: Stage)
    requires WidensBeyond(G, s, t, m, stage)
    ensures t < |s.markers| && s.markers[t].phase.Widening?
  {
  }

  lemma WideningMarked(G: Graph, z: Setup, reach: set<nat>, s: State, t: nat)
    requires Inv(G, z, reach, s) && t < |s.markers| && s.markers[t].phase.Widening?
    ensures s.markers[t].phase.obj in s.marked
  {
    hide ObjectOk, Done, AllCovered, SlotOk, GraphOk, NotedOk;
    PhaseOf(G, z, reach, s, t);
    assert Local(G, s.markers[t].phase.obj);
    hide Local;
  }

  lemma {:induction false} RunForgets(G: Graph, z: Setup, reach: set<nat>, run: seq<State>, steps: seq<Step>)
    requires IsRun(G, z, run, steps) && Inv(G, z, reach, run[0]) && run[0].forgotten == {}
    ensures run[|steps|].forgotten <= run[|steps|].marked
    decreases |steps|
  {
    hide Inv, IsStep;
    if |steps| > 0 {
      var last := |steps| - 1;
      RunForgets(G, z, reach, run[..|steps|], steps[..last]);
      RunKeeps(G, z, reach, run[..|steps|], steps[..last]);
      StepForgets(G, z, reach, run[last], run[|steps|], steps[last]);
    }
  }

  /** No step of the run loses an object. */
  predicate LosesNothing(G: Graph, run: seq<State>, steps: seq<Step>) {
    |run| == |steps| + 1 && forall i :: 0 <= i < |steps| ==> !Loses(G, run[i], steps[i])
  }

  lemma StepForgetsNothing(G: Graph, z: Setup, s: State, s': State, step: Step)
    requires IsStep(G, z, s, s', step) && !Loses(G, s, step)
    ensures s'.forgotten == s.forgotten
  {
    hide ObjectOk, Local, Region, NeedsScan, BytesAt, WidensBeyond;
  }

  lemma {:induction false} NothingForgotten(G: Graph, z: Setup, run: seq<State>, steps: seq<Step>)
    requires IsRun(G, z, run, steps) && LosesNothing(G, run, steps) && run[0].forgotten == {}
    ensures run[|steps|].forgotten == {}
    decreases |steps|
  {
    hide IsStep, Loses;
    if |steps| > 0 {
      var last := |steps| - 1;
      NothingForgotten(G, z, run[..|steps|], steps[..last]);
      StepForgetsNothing(G, z, run[last], run[|steps|], steps[last]);
    }
  }

  /** Once all markers are idle only the areas to be rescanned hold unfinished work, but for what has been lost. */
  lemma IdleLeavesAreas(G: Graph, z: Setup, reach: set<nat>, s: State, o: nat)
    requires Inv(G, z, reach, s) && AllIdle(s) && o in s.marked + s.visited
    ensures ObjectOk(G, o) && |s.starts| == |s.ends| == |G.spaces|
    ensures Done(G, s.marked, o) || InRange(G, s, o) || o in s.forgotten
  {
    hide Done, InRange, ObjectOk, Sound, SlotOk, Held;
    assert Covered(G, s, o);
    forall t | 0 <= t < |s.markers|
      ensures o !in Held(s.markers[t])
    {
      assert MarkerOk(G, z, reach, s, t);
      RestingHoldsNothing(G, z, reach, s, t);
    }
  }

  lemma RestingHoldsNothing(G: Graph, z: Setup, reach: set<nat>, s: State, t: nat)
    requires t < |s.markers| && MarkerOk(G, z, reach, s, t) && s.markers[t].phase == Resting
    ensures Held(s.markers[t]) == {}
  {
    hide SlotOk;
  }

  /** What the run has fed so far: all permanent objects and roots are visited or marked, or still to come. */
  ghost predicate FedOk(G: Graph, perms: set<nat>, roots: set<nat>, s: State) {
    && (forall o :: o in perms ==> o in s.perms + s.visited)
    && (forall o :: o in roots && Local(G, o) ==> o in s.roots + s.marked)
  }

  lemma StepFeeds(G: Graph, z: Setup, perms: set<nat>, roots: set<nat>, s: State, s': State, step: Step)
    requires FedOk(G, perms, roots, s) && IsStep(G, z, s, s', step)
    ensures FedOk(G, perms, roots, s')
  {
    hide Local, ObjectOk, AtWord, NeedsScan, BytesAt, Region;
  }

  lemma {:induction false} RunFeeds(G: Graph, z: Setup, perms: set<nat>, roots: set<nat>, run: seq<State>, steps: seq<Step>)
    requires IsRun(G, z, run, steps) && FedOk(G, perms, roots, run[0])
    ensures FedOk(G, perms, roots, run[|steps|])
    decreases |steps|
  {
    hide FedOk, IsStep;
    if |steps| > 0 {
      var last := |steps| - 1;
      RunFeeds(G, z, perms, roots, run[..|steps|], steps[..last]);
      StepFeeds(G, z, perms, roots, run[last], run[|steps|], steps[last]);
    }
  }

  // ---------- Rounds ----------

  /** Where the main thread is in a round: the space it takes is the next, and it leaves when there is no further one. */
  predicate InOrder(G: Graph, z: Setup, s: State) {
    && |s.markers| == z.threads + 1 && |s.starts| == |s.ends| == |G.spaces| && s.main <= z.threads && s.next <= |G.spaces|
    && (s.main < z.threads ==> !s.markers[s.main].phase.Take? && s.markers[z.threads].phase == Resting)
    && (s.markers[z.threads].phase.Take? ==> s.markers[z.threads].phase.m == s.next < |G.spaces|)
    && (s.main == z.threads ==> s.perms == {} && s.roots == {})
    && (s.main < z.threads || s.markers[z.threads].phase.Resting? || s.markers[z.threads].phase.Leaving? ==> s.again == {})
    && (s.main == z.threads && s.rescan && s.markers[z.threads].phase != Resting ==> s.next > 0)
  }

  /** As long as a round has found no area no task is running, and the spaces seen have none. */
  predicate Quiet(G: Graph, z: Setup, s: State) {
    s.main == z.threads && !s.rescan ==>
      && s.again == {} && (forall t :: 0 <= t < z.threads && t < |s.markers| ==> s.markers[t].phase == Resting)
      && (forall k :: 0 <= k < s.next && k < |s.starts| && k < |s.ends| ==> s.starts[k] >= s.ends[k])
      && z.threads < |s.markers|
      && (match s.markers[z.threads].phase
          case Feeding => true
          case Take(m, Tested(start)) => m < |s.starts| && start == s.starts[m]
          case Take(m, stage) => true
          case Leaving(count) => s.next == |G.spaces| && count == s.nInUse
          case Resting => s.next == |G.spaces| && s.lost == 0
          case _ => false)
  }

  /** Steps of the main thread between scans; they alone change where it is in the round. */
  predicate IsRoundStep(step: Step) {
    step.SFeedPermanent? || step.SFeedRoot? || step.SFeedAgain? || step.SEndRoots? || step.SBeginRescan? || step.STestStart?
    || step.STestEnd? || step.SReadStart? || step.SReadEnd? || step.SResetStart? || step.SResetEnd? || step.SReadCount? || step.SWriteCount?
  }

  /** Any other step is of a marker that is scanning, or of a forked task. */
  predicate Beside(z: Setup, s: State, s': State) {
    && |s'.markers| == |s.markers| && |s'.starts| == |s.starts| && |s'.ends| == |s.ends| && s'.main == s.main && s'.next == s.next
    && s'.rescan == s.rescan && s'.perms == s.perms && s'.roots == s.roots && s'.again == s.again
    && z.threads < |s.markers| && s.main < |s.markers|
    && (forall t :: 0 <= t < |s.markers| && s'.markers[t].phase.Take? ==> s.markers[t].phase == s'.markers[t].phase)
    && (forall t :: 0 <= t < |s.markers| && s'.markers[t].phase.Leaving? ==> s.markers[t].phase == s'.markers[t].phase)
    && (s'.markers[z.threads].phase.Resting? <==> s.markers[z.threads].phase.Resting?)
  }

  predicate IsWordStep(step: Step) {
    step.SSkipWord? || step.SNoteWord? || step.SEndWords?
  }

  lemma WordBeside(G: Graph, z: Setup, s: State, s': State, step: Step)
    requires IsStep(G, z, s, s', step) && IsWordStep(step) && RescannerOk(z, s)
    ensures Beside(z, s, s')
  {
    hide ObjectOk, Local, NeedsScan, BytesAt, Size;
  }

  lemma ScanBeside(G: Graph, z: Setup, s: State, s': State, step: Step)
    requires IsStep(G, z, s, s', step) && IsScanStep(step) && !IsWordStep(step) && RescannerOk(z, s)
    ensures Beside(z, s, s')
  {
    hide ObjectOk, Local, Full, Size, Min, Max;
  }

  lemma StepBeside(G: Graph, z: Setup, s: State, s': State, step: Step)
    requires IsStep(G, z, s, s', step) && !IsRoundStep(step) && RescannerOk(z, s)
    ensures Beside(z, s, s')
  {
    if IsWordStep(step) {
      hide IsStep, Beside, RescannerOk;
      WordBeside(G, z, s, s', step);
    } else if IsScanStep(step) {
      hide IsStep, Beside, RescannerOk;
      ScanBeside(G, z, s, s', step);
    }
  }

  lemma RoundInOrder(G: Graph, z: Setup, s: State, s': State, step: Step)
    requires InOrder(G, z, s) && IsStep(G, z, s, s', step) && IsRoundStep(step)
    ensures InOrder(G, z, s')
  {
    hide ObjectOk, Local, Region, IsByte, Size;
  }

  lemma StepInOrder(G: Graph, z: Setup, s: State, s': State, step: Step)
    requires InOrder(G, z, s) && IsStep(G, z, s, s', step) && RescannerOk(z, s)
    ensures InOrder(G, z, s')
  {
    hide IsStep;
    if IsRoundStep(step) {
      hide InOrder;
      RoundInOrder(G, z, s, s', step);
    } else {
      StepBeside(G, z, s, s', step);
    }
  }

  lemma RoundQuiet(G: Graph, z: Setup, s: State, s': State, step: Step)
    requires InOrder(G, z, s) && Quiet(G, z, s) && IsStep(G, z, s, s', step) && IsRoundStep(step)
    ensures Quiet(G, z, s')
  {
    hide ObjectOk, Local, Region, IsByte, Size;
  }

  /** No other step is possible as long as a round has found no area. */
  lemma NoneBeside(G: Graph, z: Setup, s: State, s': State, step: Step)
    requires InOrder(G, z, s) && Quiet(G, z, s) && s.main == z.threads && !s.rescan && IsStep(G, z, s, s', step)
    ensures IsRoundStep(step)
  {
    hide ObjectOk, Local, NeedsScan, BytesAt, Full, Size;
  }

  lemma StepQuiet(G: Graph, z: Setup, s: State, s': State, step: Step)
    requires InOrder(G, z, s) && Quiet(G, z, s) && IsStep(G, z, s, s', step) && RescannerOk(z, s)
    ensures Quiet(G, z, s')
  {
    hide IsStep;
    if IsRoundStep(step) {
      hide InOrder, Quiet;
      RoundQuiet(G, z, s, s', step);
    } else {
      StepBeside(G, z, s, s', step);
      if s.main == z.threads && !s.rescan { NoneBeside(G, z, s, s', step); }
    }
  }

  /** The first area found in a round is taken while no task is running, so its taking loses nothing. */
  lemma FirstAreaLosesNothing(G: Graph, z: Setup, s: State, step: Step)
    requires InOrder(G, z, s) && Quiet(G, z, s) && s.main == z.threads && !s.rescan
    ensures !Loses(G, s, step)
  {
  }

  // ---------- The number of markers in use ----------

  function Actives(markers: seq<Marker>): nat {
    if markers == [] then 0
    else Actives(markers[..|markers| - 1]) + if markers[|markers| - 1].active then 1 else 0
  }

  lemma {:induction false} ActivesUpdate(markers: seq<Marker>, i: nat, m: Marker)
    requires i < |markers|
    ensures Actives(markers[i := m]) + (if markers[i].active then 1 else 0) == Actives(markers) + if m.active then 1 else 0
  {
    var last := |markers| - 1;
    if i < last {
      ActivesUpdate(markers[..last], i, m);
      assert markers[i := m][..last] == markers[..last][i := m];
    } else {
      assert markers[i := m][..last] == markers[..last];
    }
  }

  lemma {:induction false} AllActive(markers: seq<Marker>)
    ensures Actives(markers) <= |markers|
    ensures (forall i :: 0 <= i < |markers| ==> markers[i].active) <==> Actives(markers) == |markers|
    ensures (forall i :: 0 <= i < |markers| ==> !markers[i].active) ==> Actives(markers) == 0
  {
    if markers != [] {
      var last := |markers| - 1;
      AllActive(markers[..last]);
      assert forall i :: 0 <= i < last ==> markers[..last][i] == markers[i];
    }
  }

  /** The markers of the farm's threads are active while a task is using them. */
  predicate ActiveOk(z: Setup, s: State) {
    forall t :: 0 <= t < z.threads && t < |s.markers| ==> (s.markers[t].active <==> s.markers[t].phase != Resting)
  }

  /** The rescanner's own marker is only used by the main thread, and is not among those counted as active. */
  predicate RescannerOk(z: Setup, s: State) {
    && |s.markers| == z.threads + 1 && s.main <= z.threads
    && !s.markers[z.threads].phase.Waiting? && !s.markers[z.threads].phase.Looking?
    && (s.markers[z.threads].phase != Resting ==> s.main == z.threads)
    && (forall t :: 0 <= t < z.threads ==> !s.markers[t].phase.Take? && !s.markers[t].phase.Leaving?)
    && (s.markers[z.threads].phase.Leaving? ==> s.markers[z.threads].phase.count <= z.threads)
  }

  /**
   nInUse is the number of active markers, one more while the rescanner's is in use, less the changes
   that the main thread has overwritten on leaving a round.
   */
  predicate CountOk(z: Setup, s: State) {
    && RescannerOk(z, s) && ActiveOk(z, s) && z.threads > 0
    && s.nInUse == Actives(s.markers[..z.threads]) + (if s.markers[z.threads].phase == Resting then 0 else 1) - s.lost
    && s.nInUse <= z.threads
    && (s.markers[z.threads].phase != Resting || s.main < z.threads ==> s.lost == 0)
  }

  lemma InitialCount(G: Graph, z: Setup, perms: set<nat>, roots: set<nat>, s: State)
    requires Initial(G, z, perms, roots, s)
    ensures CountOk(z, s)
  {
    hide GraphOk, Local;
    var ms := s.markers[..z.threads];
    var off := ms[0 := ms[0].(active := false)];
    AllActive(off);
    ActivesUpdate(ms, 0, ms[0].(active := false));
  }

  /** Replacing a marker by one as active leaves the count. */
  lemma SameCount(z: Setup, s: State, s': State, t: nat)
    requires CountOk(z, s) && t < |s.markers| == |s'.markers| && s'.markers == s.markers[t := s'.markers[t]]
    requires s'.markers[t].active == s.markers[t].active && s'.main == s.main && s'.nInUse == s.nInUse && s'.lost == s.lost
    requires s.markers[t].phase != Resting && s'.markers[t].phase != Resting && !s'.markers[t].phase.Waiting?
    requires s'.markers[t].phase.Looking? ==> t != z.threads
    requires s'.markers[t].phase.Take? || s'.markers[t].phase.Leaving? ==> t == z.threads
    requires s'.markers[t].phase.Leaving? ==> s'.markers[t].phase.count <= z.threads
    ensures CountOk(z, s')
  {
    if t < z.threads {
      ActivesUpdate(s.markers[..z.threads], t, s'.markers[t]);
      assert s'.markers[..z.threads] == s.markers[..z.threads][t := s'.markers[t]];
    } else {
      assert s'.markers[..z.threads] == s.markers[..z.threads];
    }
  }

  lemma OneLess(z: Setup, s: State, s': State, t: nat)
    requires CountOk(z, s) && (Finish(s, s', t) || (EndRoots(z, s, s') && t == s.main))
    ensures CountOk(z, s')
  {
    ActivesUpdate(s.markers[..z.threads], t, s'.markers[t]);
    assert s'.markers[..z.threads] == s.markers[..z.threads][t := s'.markers[t]];
  }

  /** Changes of nInUse since it was read are overwritten. */
  lemma LeavingCount(z: Setup, s: State, s': State, count: int, overwritten: bool)
    requires CountOk(z, s) && WriteCount(s, s', count, overwritten)
    ensures CountOk(z, s')
  {
    assert s'.markers[..z.threads] == s.markers[..z.threads];
  }

  lemma RescanCount(z: Setup, s: State, s': State)
    requires CountOk(z, s) && BeginRescan(z, s, s')
    ensures CountOk(z, s')
  {
    assert s'.markers[..z.threads] == s.markers[..z.threads];
    AllActive(s.markers[..z.threads]);
  }

  lemma ForkCount(z: Setup, s: State, s': State, t: nat, i: nat)
    requires CountOk(z, s) && Fork(z, s, s', t, i)
    ensures CountOk(z, s')
  {
    var p := AfterPush(s.markers[t].phase);
    var s1 := s.(markers := Goto(s, t, p));
    SameCount(z, s, s1, t);
    ActivesUpdate(s1.markers[..z.threads], i, s'.markers[i]);
    assert s'.markers[..z.threads] == s1.markers[..z.threads][i := s'.markers[i]];
  }

  predicate IsMainStep(step: Step) {
    step.SFeedPermanent? || step.SFeedRoot? || step.SFeedAgain? || step.STestStart? || step.STestEnd? || step.SReadStart?
    || step.SReadEnd? || step.SResetStart? || step.SResetEnd? || step.SReadCount?
  }

  predicate IsScanStep(step: Step) {
    step.SSkipWord? || step.SNoteWord? || step.SEndWords? || step.SDecide? || step.SForkFails? || step.SToStack?
    || step.SWidenStart? || step.SWidenEnd?
  }

  lemma MainCounts(G: Graph, z: Setup, s: State, s': State, step: Step)
    requires CountOk(z, s) && RescannerOk(z, s) && s.nInUse <= z.threads && IsStep(G, z, s, s', step) && IsMainStep(step)
    ensures CountOk(z, s')
  {
    hide CountOk, ObjectOk, Region, Local, IsByte;
    SameCount(z, s, s', s.main);
  }

  lemma ScanCounts(G: Graph, z: Setup, s: State, s': State, step: Step)
    requires CountOk(z, s) && RescannerOk(z, s) && IsStep(G, z, s, s', step) && IsScanStep(step)
    ensures CountOk(z, s')
  {
    hide CountOk, ObjectOk, NeedsScan, BytesAt, Full;
    SameCount(z, s, s', step.t);
  }

  lemma TaskCounts(G: Graph, z: Setup, s: State, s': State, step: Step)
    requires CountOk(z, s) && RescannerOk(z, s) && IsStep(G, z, s, s', step)
    requires step.SBeginTask? || step.SSteal? || step.SMarkFirst? || step.SPop? || step.SClear? || step.SReturn?
    ensures CountOk(z, s')
  {
    hide CountOk;
    SameCount(z, s, s', step.t);
  }

  /** Every step keeps the count. */
  lemma StepCounts(G: Graph, z: Setup, s: State, s': State, step: Step)
    requires CountOk(z, s) && IsStep(G, z, s, s', step)
    ensures CountOk(z, s')
  {
    assert RescannerOk(z, s) && s.nInUse <= z.threads;
    hide CountOk, RescannerOk;
    if IsMainStep(step) {
      hide IsStep;
      MainCounts(G, z, s, s', step);
    } else if IsScanStep(step) {
      hide IsStep;
      ScanCounts(G, z, s, s', step);
    } else {
      match step
      case SEndRoots => OneLess(z, s, s', s.main);
      case SFinish(t) => OneLess(z, s, s', t);
      case SWriteCount(count, overwritten) => LeavingCount(z, s, s', count, overwritten);
      case SBeginRescan => RescanCount(z, s, s');
      case SFork(t, i) => ForkCount(z, s, s', t, i);
      case _ => TaskCounts(G, z, s, s', step);
    }
  }

  /** What holds in every run, whether or not an object has been lost. */
  predicate Orderly(G: Graph, z: Setup, s: State) {
    CountOk(z, s) && InOrder(G, z, s) && Quiet(G, z, s)
  }

  lemma InitialOrderly(G: Graph, z: Setup, perms: set<nat>, roots: set<nat>, s: State)
    requires Initial(G, z, perms, roots, s)
    ensures Orderly(G, z, s)
  {
    InitialCount(G, z, perms, roots, s);
    hide CountOk, GraphOk;
  }

  /** The count is kept, and rounds are in order, in every interleaving. */
  lemma {:induction false} RunIsOrderly(G: Graph, z: Setup, perms: set<nat>, roots: set<nat>, run: seq<State>, steps: seq<Step>)
    requires IsRun(G, z, run, steps) && Initial(G, z, perms, roots, run[0])
    ensures Orderly(G, z, run[|steps|])
    decreases |steps|
  {
    hide Initial, IsStep, InOrder, Quiet, RescannerOk;
    if |steps| == 0 {
      InitialOrderly(G, z, perms, roots, run[0]);
    } else {
      var last := |steps| - 1;
      RunIsOrderly(G, z, perms, roots, run[..|steps|], steps[..last]);
      var s, s' := run[last], run[|steps|];
      assert ActiveOk(z, s) && RescannerOk(z, s);
      hide CountOk, ActiveOk;
      StepCounts(G, z, s, s', steps[last]);
      StepInOrder(G, z, s, s', steps[last]);
      StepQuiet(G, z, s, s', steps[last]);
    }
  }

  /**
   A fork finds an inactive marker, as the code asserts, exactly when the changes of nInUse that have been
   overwritten, added to it, leave it below the number of threads.
   */
  lemma ForkFindsMarker(z: Setup, s: State)
    requires CountOk(z, s)
    ensures (exists i :: 0 <= i < z.threads && !s.markers[i].active) <==>
      s.nInUse - (if s.markers[z.threads].phase == Resting then 0 else 1) + s.lost < z.threads
  {
    AllActive(s.markers[..z.threads]);
    assert forall i :: 0 <= i < z.threads ==> s.markers[..z.threads][i] == s.markers[i];
  }

  /** Lowered without the lock, nInUse is right exactly if it was still what had been read, and was not being changed. */
  lemma CountIsExact(z: Setup, s: State, s': State, count: int, overwritten: bool)
    requires CountOk(z, s) && WriteCount(s, s', count, overwritten)
    ensures s'.nInUse == Actives(s'.markers[..z.threads]) <==> !overwritten && s.nInUse == count
  {
    LeavingCount(z, s, s', count, overwritten);
    hide Actives;
  }

  /** As long as nothing has been overwritten a fork that is allowed finds a marker. */
  lemma ForkFindsMarkerUnlessOverwritten(z: Setup, s: State)
    requires CountOk(z, s) && s.lost <= 0 && s.nInUse != z.threads
    ensures exists i :: 0 <= i < z.threads && !s.markers[i].active
  {
    ForkFindsMarker(z, s);
  }

  // ---------- Results ----------

  /** The last round has found no area. */
  predicate Ended(z: Setup, s: State) {
    AllRest(s) && s.main == z.threads && !s.rescan
  }

  /**
   When the rescanning has ended, whatever was forked, stolen, scanned twice or dropped from a full stack on
   the way, only reachable objects are marked; and all of them are, if and only if each object that was
   lost is complete after all.
   */
  lemma TasksMarkReachable(G: Graph, z: Setup, perms: set<nat>, roots: set<nat>, run: seq<State>, steps: seq<Step>)
    requires IsRun(G, z, run, steps) && Initial(G, z, perms, roots, run[0]) && Ended(z, run[|steps|])
    ensures var s := run[|steps|];
      && GraphOk(G) && perms <= G.objs && s.forgotten <= s.marked <= G.objs
      && (forall o :: o in s.marked ==> Reachable(G, roots, perms, o))
      && ((forall o :: o in G.objs ==> (o in s.marked <==> Reachable(G, roots, perms, o)))
          <==> forall o :: o in s.forgotten ==> ObjectOk(G, o) && Done(G, s.marked, o))
  {
    hide IsStep, GraphOk, Reachable, Local, Done, ObjectOk, MarkerOk, Covered, CountOk;
    var s, reach := run[|steps|], ReachableSet(G, roots, perms);
    InitialInv(G, z, perms, roots, run[0]);
    RunKeeps(G, z, reach, run, steps);
    RunForgets(G, z, reach, run, steps);
    RunFeeds(G, z, perms, roots, run, steps);
    RunIsOrderly(G, z, perms, roots, run, steps);
    if forall o :: o in s.forgotten ==> ObjectOk(G, o) && Done(G, s.marked, o) {
      forall o | o in s.marked + perms
        ensures ObjectOk(G, o) && Done(G, s.marked, o)
      {
        IdleLeavesAreas(G, z, reach, s, o);
        NotInEmptyArea(G, s, o);
      }
      LeastClosedIsReachable(G, roots, perms, s.marked);
    }
    if forall o :: o in G.objs ==> (o in s.marked <==> Reachable(G, roots, perms, o)) {
      assert s.marked == reach;
      forall o | o in s.forgotten
        ensures ObjectOk(G, o) && Done(G, s.marked, o)
      {
        ReachableDone(G, roots, perms, o);
      }
    }
  }

  /** If no step has lost an object, exactly the reachable objects are marked. */
  lemma WithoutLossMarksReachable(G: Graph, z: Setup, perms: set<nat>, roots: set<nat>, run: seq<State>, steps: seq<Step>)
    requires IsRun(G, z, run, steps) && Initial(G, z, perms, roots, run[0]) && Ended(z, run[|steps|])
    requires LosesNothing(G, run, steps)
    ensures GraphOk(G) && perms <= G.objs && run[|steps|].marked <= G.objs
    ensures forall o :: o in G.objs ==> (o in run[|steps|].marked <==> Reachable(G, roots, perms, o))
  {
    TasksMarkReachable(G, z, perms, roots, run, steps);
    hide IsStep, Loses, GraphOk, Reachable, Local, Done, ObjectOk;
    NothingForgotten(G, z, run, steps);
  }

  /** However the count has gone wrong in between, it is zero when the marking has ended, as the next marking asserts. */
  lemma CountAtEnd(G: Graph, z: Setup, perms: set<nat>, roots: set<nat>, run: seq<State>, steps: seq<Step>)
    requires IsRun(G, z, run, steps) && Initial(G, z, perms, roots, run[0]) && Ended(z, run[|steps|])
    ensures run[|steps|].nInUse == 0
  {
    hide IsStep, Initial, Actives;
    RunIsOrderly(G, z, perms, roots, run, steps);
    AllActive(run[|steps|].markers[..z.threads]);
  }

  lemma NotInEmptyArea(G: Graph, s: State, o: nat)
    requires ObjectOk(G, o) && |s.starts| == |s.ends| == |G.spaces|
    requires forall k :: 0 <= k < |G.spaces| ==> s.starts[k] >= s.ends[k]
    ensures !InRange(G, s, o)
  {
  }

  /** With one thread no marker is in use beside the rescanner's. */
  lemma SingleIdle(z: Setup, s: State)
    requires CountOk(z, s) && z.threads == 1 && s.markers[1].phase != Resting
    ensures s.markers[0].phase == Resting
  {
    assert s.markers[..1] == [s.markers[0]];
    assert Actives([s.markers[0]]) == Actives([]) + if s.markers[0].active then 1 else 0;
  }

  /** An area is taken while tasks are running only if there are other threads, other spaces, and this is not the first of its round. */
  lemma LossNeeds(G: Graph, z: Setup, s: State, step: Step)
    requires Orderly(G, z, s) && Loses(G, s, step)
    ensures z.threads > 1 && |G.spaces| > 1 && s.main == z.threads && s.rescan && s.next > 0
  {
    if z.threads == 1 { SingleIdle(z, s); }
    assert s.main == z.threads;
    if !s.rescan { FirstAreaLosesNothing(G, z, s, step); }
  }

  lemma NoLoss(G: Graph, z: Setup, perms: set<nat>, roots: set<nat>, run: seq<State>, steps: seq<Step>)
    requires IsRun(G, z, run, steps) && Initial(G, z, perms, roots, run[0])
    requires z.threads == 1 || |G.spaces| <= 1
    ensures LosesNothing(G, run, steps)
  {
    hide Initial, IsStep, Orderly, Loses;
    forall i | 0 <= i < |steps|
      ensures !Loses(G, run[i], steps[i])
    {
      RunIsOrderly(G, z, perms, roots, run[..i + 1], steps[..i]);
      if Loses(G, run[i], steps[i]) { LossNeeds(G, z, run[i], steps[i]); }
    }
  }

  /** With one thread, or one space, nothing is ever lost: every run that ends has marked exactly the reachable objects. */
  lemma OneThreadOrSpaceMarksReachable(G: Graph, z: Setup, perms: set<nat>, roots: set<nat>, run: seq<State>, steps: seq<Step>)
    requires IsRun(G, z, run, steps) && Initial(G, z, perms, roots, run[0])
    requires (z.threads == 1 || |G.spaces| <= 1) && Ended(z, run[|steps|])
    ensures GraphOk(G) && perms <= G.objs && run[|steps|].marked <= G.objs
    ensures forall o :: o in G.objs ==> (o in run[|steps|].marked <==> Reachable(G, roots, perms, o))
  {
    hide Initial, IsStep, Loses, Reachable, Ended;
    NoLoss(G, z, perms, roots, run, steps);
    WithoutLossMarksReachable(G, z, perms, roots, run, steps);
  }

  // ---------- What a losing step loses ----------

  /** The limits that the main thread will have when it has taken the area, going on at once. */
  function LimitsOf(s: State, m: nat, stage: Stage): (nat, nat)
    requires m < |s.starts| == |s.ends|
  {
    match stage
    case HasStart(start) => (start, s.ends[m])
    case HasBoth(start, end) => (start, end)
    case HalfReset(start, end) => (start, end)
    case _ => (s.starts[m], s.ends[m])
  }

  /** The state when it has. */
  function TakenAtOnce(G: Graph, s: State, m: nat, stage: Stage): State
    requires m < |G.spaces| == |s.starts| == |s.ends| && s.main < |s.markers|
  {
    s.(starts := if stage.HalfReset? then s.starts else s.starts[m := G.spaces[m].top],
       ends := s.ends[m := G.spaces[m].bottom], next := m + 1, rescan := true,
       again := Region(G, LimitsOf(s, m, stage).0, LimitsOf(s, m, stage).1), markers := Goto(s, s.main, Feeding),
       forgotten := if stage.HalfReset? then s.forgotten
                    else s.forgotten + Beyond(G, s, m, LimitsOf(s, m, stage).0, LimitsOf(s, m, stage).1))
  }

  lemma SameBeyond(G: Graph, s: State, s': State, m: nat, start: nat, end: nat)
    requires s.main < |s.markers| == |s'.markers| && s.markers[s.main].phase.Take? && s'.markers[s.main].phase.Take?
    requires forall t :: 0 <= t < |s.markers| && t != s.main ==> s'.markers[t] == s.markers[t]
    ensures Beyond(G, s', m, start, end) == Beyond(G, s, m, start, end)
  {
    hide ObjectOk, Within;
    forall t: nat
      ensures WidensBeyond(G, s', t, m, HasBoth(start, end)) <==> WidensBeyond(G, s, t, m, HasBoth(start, end))
    {
    }
  }

  /** It comes to that by steps of the main thread alone. */
  lemma TakesAtOnce(G: Graph, z: Setup, s: State, m: nat, stage: Stage) returns (run: seq<State>, steps: seq<Step>)
    requires IsAt(s, s.main, Take(m, stage)) && m < |G.spaces| == |s.starts| == |s.ends|
    requires stage.HasStart? || stage.HasBoth? || stage.HalfReset?
    ensures IsRun(G, z, run, steps) && run[0] == s && run[|steps|] == TakenAtOnce(G, s, m, stage)
  {
    hide Region;
    var (start, end) := LimitsOf(s, m, stage);
    var done := TakenAtOnce(G, s, m, stage);
    var s1 := s.(markers := Goto(s, s.main, Take(m, HasBoth(start, end))));
    var s2 := s.(starts := s.starts[m := G.spaces[m].top], forgotten := s.forgotten + Beyond(G, s, m, start, end),
                 markers := Goto(s, s.main, Take(m, HalfReset(start, end))));
    SameBeyond(G, s, s1, m, start, end);
    hide Beyond;
    assert s1.markers[s.main := s1.markers[s.main].(phase := Feeding)] == Goto(s, s.main, Feeding);
    assert s2.markers == s1.markers[s.main := s1.markers[s.main].(phase := Take(m, HalfReset(start, end)))];
    assert s2.markers[s.main := s2.markers[s.main].(phase := Feeding)] == Goto(s, s.main, Feeding);
    match stage
    case HasStart(_) =>
      run, steps := [s, s1, s2, done], [SReadEnd(m, start), SResetStart(m, start, end), SResetEnd(m, start, end)];
    case HasBoth(_, _) =>
      assert s1 == s;
      run, steps := [s, s2, done], [SResetStart(m, start, end), SResetEnd(m, start, end)];
    case HalfReset(_, _) =>
      run, steps := [s, done], [SResetEnd(m, start, end)];
  }

  /** The object is to be gone through, or the area of space k has it. */
  predicate Recorded(G: Graph, s: State, k: nat, o: nat)
    requires ObjectOk(G, o) && k < |s.starts| == |s.ends|
  {
    o in s.again || (s.starts[k] < o && o + Size(G, o) <= s.ends[k])
  }

  /** An object of space k that has words. */
  predicate InSpace(G: Graph, k: nat, o: nat) {
    o in G.objs && ObjectOk(G, o) && Size(G, o) > 0 && k < |G.spaces| && G.spaces[k].bottom <= o < G.spaces[k].top
  }

  /**
   An object entered while the area is being taken is recorded, when the area has been taken, exactly if
   the step does not lose it; that is if it lies between those limits that have been read.
   */
  lemma EntryLostExactly(G: Graph, z: Setup, reach: set<nat>, s: State, s': State, t: nat, m: nat, stage: Stage)
    requires Inv(G, z, reach, s) && WidenEnd(G, s, s', t) && IsAt(s, s.main, Take(m, stage)) && s.markers[t].phase.k == m
    requires |s.starts| == |s.ends| == |G.spaces| && InSpace(G, m, s.markers[t].phase.obj)
    requires stage.HasStart? || stage.HasBoth? || stage.HalfReset?
    ensures Recorded(G, TakenAtOnce(G, s', m, stage), m, s.markers[t].phase.obj) <==> !Loses(G, s, SWidenEnd(t))
  {
    hide Inv, GraphOk, Boundary, ObjectOk;
    var o, end := s.markers[t].phase.obj, LimitsOf(s', m, stage).1;
    EndOfLimits(G, z, reach, s, s', t, m, stage);
    EndsBefore(G, m, o, end);
    assert Local(G, o);
  }

  lemma EndOfLimits(G: Graph, z: Setup, reach: set<nat>, s: State, s': State, t: nat, m: nat, stage: Stage)
    requires Inv(G, z, reach, s) && WidenEnd(G, s, s', t) && IsAt(s, s.main, Take(m, stage)) && s.markers[t].phase.k == m
    requires |s.starts| == |s.ends| == |G.spaces| && m < |G.spaces|
    requires stage.HasStart? || stage.HasBoth? || stage.HalfReset?
    ensures GraphOk(G) && Boundary(G, m, LimitsOf(s', m, stage).1)
  {
    hide Sound, AllCovered, SlotOk, PhaseOk, ObjectOk, GraphOk, Boundary;
    assert StageOk(G, Take(m, stage)) by { assert MarkerOk(G, z, reach, s, s.main); }
    PhaseOf(G, z, reach, s, t);
    hide Inv;
    WideningFits(G, reach, s, s.markers[t].phase, s.markers[t].msp);
  }

  /** An object that begins before a boundary ends there or before. */
  lemma EndsBefore(G: Graph, k: nat, o: nat, end: nat)
    requires GraphOk(G) && InSpace(G, k, o) && Boundary(G, k, end)
    ensures o <= end <==> o + Size(G, o) <= end
    ensures G.spaces[k].bottom < o + Size(G, o)
  {
    assert Inside(G.spaces[k], o, Size(G, o));
    assert end + 1 in G.objs ==> Separate(G, o, end + 1);
  }

  /** An object half entered as the start limit is reset is recorded, whenever its entry is completed, exactly if it is not lost. */
  lemma HalfEntryLostExactly(G: Graph, z: Setup, reach: set<nat>, s: State, t: nat, m: nat, start: nat, end: nat,
                             s1: State, s2: State, s3: State)
    requires Inv(G, z, reach, s) && IsAt(s, s.main, Take(m, HasBoth(start, end))) && t < |s.markers|
    requires s.markers[t].phase.Widening? && s.markers[t].phase.k == m && InSpace(G, m, s.markers[t].phase.obj)
    requires ResetStart(G, s, s1, m, start, end)
    requires (WidenEnd(G, s1, s2, t) && ResetEnd(G, s2, s3, m, start, end))
             || (ResetEnd(G, s1, s2, m, start, end) && WidenEnd(G, s2, s3, t))
    ensures |s3.starts| == |s3.ends| == |G.spaces|
    ensures Recorded(G, s3, m, s.markers[t].phase.obj) <==> !WidensBeyond(G, s, t, m, HasBoth(start, end))
  {
    hide ObjectOk, Boundary, GraphOk, PhaseOk, Sound, WidenEnd, ResetEnd, ResetStart, WidensBeyond, Region, Inv;
    assert |s.starts| == |s.ends| == |G.spaces| by { AreasOfInv(G, z, reach, s); }
    HalfEntryTaken(G, s, t, m, start, end, s1, s2, s3);
    var o := s.markers[t].phase.obj;
    assert GraphOk(G) && Boundary(G, m, end) by { EndIsBoundary(G, z, reach, s, m, start, end); }
    EndsBefore(G, m, o, end);
    NotBeyond(G, s, t, m, start, end);
  }

  lemma AreasOfInv(G: Graph, z: Setup, reach: set<nat>, s: State)
    requires Inv(G, z, reach, s)
    ensures |s.starts| == |s.ends| == |G.spaces|
  {
    hide MarkerOk, Sound, AllCovered;
  }

  lemma EndIsBoundary(G: Graph, z: Setup, reach: set<nat>, s: State, m: nat, start: nat, end: nat)
    requires Inv(G, z, reach, s) && IsAt(s, s.main, Take(m, HasBoth(start, end)))
    ensures GraphOk(G) && m < |G.spaces| && Boundary(G, m, end)
  {
    hide AllCovered, SlotOk, ObjectOk, GraphOk, Boundary, Done, Local;
    assert StageOk(G, Take(m, HasBoth(start, end))) by { assert MarkerOk(G, z, reach, s, s.main); }
  }

  /** Whichever of the two comes first, afterwards the start limit is the top and the objects to be gone through are those between the limits read. */
  lemma HalfEntryTaken(G: Graph, s: State, t: nat, m: nat, start: nat, end: nat, s1: State, s2: State, s3: State)
    requires t < |s.markers| && s.markers[t].phase.Widening? && s.markers[t].phase.k == m && t != s.main
    requires IsAt(s, s.main, Take(m, HasBoth(start, end))) && |s.starts| == |s.ends| == |G.spaces|
    requires ResetStart(G, s, s1, m, start, end)
    requires (WidenEnd(G, s1, s2, t) && ResetEnd(G, s2, s3, m, start, end))
             || (ResetEnd(G, s1, s2, m, start, end) && WidenEnd(G, s2, s3, t))
    ensures |s3.starts| == |s3.ends| == |G.spaces| && m < |G.spaces|
    ensures s3.starts[m] == G.spaces[m].top && s3.again == Region(G, start, end)
  {
    hide ObjectOk, Region, Size, Max;
  }

  lemma NotBeyond(G: Graph, s: State, t: nat, m: nat, start: nat, end: nat)
    requires t < |s.markers| && s.markers[t].phase.Widening? && s.markers[t].phase.k == m && InSpace(G, m, s.markers[t].phase.obj)
    requires var o := s.markers[t].phase.obj; o <= end <==> o + Size(G, o) <= end
    ensures WidensBeyond(G, s, t, m, HasBoth(start, end)) <==> s.markers[t].phase.obj !in Region(G, start, end)
  {
    hide ObjectOk;
    assert Local(G, s.markers[t].phase.obj);
  }
}
