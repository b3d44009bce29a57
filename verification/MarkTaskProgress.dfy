/** No marking task is ever stuck: short of the end each marker in use has a step, or waits for one that has. */
module MarkTaskProgress {
  import opened Heap
  import opened MarkGraph
  import opened MarkTasks
  import opened MarkTaskProofs
  import opened MarkTaskResults

  // ---------- What else holds in every state ----------

  /** A marker that has popped an object has room for it. */
  predicate RoomForPopped(s: State) {
    forall t :: 0 <= t < |s.markers| && s.markers[t].phase.Popped? ==> s.markers[t].msp < |s.markers[t].slots|
  }

  /** While the main thread feeds roots its marker is in use, and is not a forked task's. */
  predicate MainWorks(z: Setup, s: State) {
    s.main < z.threads && s.main < |s.markers| ==>
      && !s.markers[s.main].phase.Resting? && !s.markers[s.main].phase.Waiting? && !s.markers[s.main].phase.Looking?
  }

  /** A marker about to fork a task has two objects on its stack. */
  predicate ForkersHaveWork(s: State) {
    forall t :: 0 <= t < |s.markers| && s.markers[t].phase.Push? && s.markers[t].phase.how == ByFork ==> s.markers[t].msp >= 2
  }

  /** What holds of each marker, and of the main thread's. */
  predicate Works(z: Setup, s: State) {
    RoomForPopped(s) && ForkersHaveWork(s) && MainWorks(z, s)
  }

  lemma OneMarkerWorks(z: Setup, s: State, s': State, t: nat)
    requires Works(z, s) && t < |s.markers| == |s'.markers| && s'.main == s.main && s'.markers == s.markers[t := s'.markers[t]]
    requires s'.markers[t].phase.Popped? ==> s'.markers[t].msp < |s'.markers[t].slots|
    requires !s'.markers[t].phase.Push? && !s'.markers[t].phase.Waiting?
    requires s'.markers[t].phase.Resting? || s'.markers[t].phase.Looking? ==>
      t != s.main || s.markers[t].phase.Looking? || s.main >= z.threads
    ensures Works(z, s')
  {
  }

  lemma RoundWorks(G: Graph, z: Setup, s: State, s': State, step: Step)
    requires Works(z, s) && RescannerOk(z, s) && IsStep(G, z, s, s', step) && IsRoundStep(step)
    ensures Works(z, s')
  {
    hide ObjectOk, Local, Region, Beyond, OtherCounts, Size, IsByte;
    if !step.SEndRoots? {
      hide Works;
      OneMarkerWorks(z, s, s', s.main);
    }
  }

  lemma WordWorks(G: Graph, z: Setup, s: State, s': State, step: Step)
    requires Works(z, s) && IsStep(G, z, s, s', step) && IsWordStep(step)
    ensures Works(z, s')
  {
    hide ObjectOk, Local, NeedsScan, BytesAt, Size;
  }

  lemma PushWorks(G: Graph, z: Setup, s: State, s': State, step: Step)
    requires Works(z, s) && IsStep(G, z, s, s', step) && IsScanStep(step) && !IsWordStep(step)
    ensures Works(z, s')
  {
    hide ObjectOk, Local, Full, Size, Slips, Min, Max;
  }

  lemma ForkWorks(z: Setup, s: State, s': State, t: nat, i: nat)
    requires Works(z, s) && ActiveOk(z, s) && Fork(z, s, s', t, i)
    ensures Works(z, s')
  {
    if s.main < z.threads && s.main < |s.markers| {
      assert s.markers[s.main].active && i != s.main;
    }
  }

  /** The steps in which a marker turns to another object or is done. */
  lemma TaskWorks(G: Graph, z: Setup, s: State, s': State, step: Step)
    requires Works(z, s) && IsStep(G, z, s, s', step)
    requires step.SBeginTask? || step.SSteal? || step.SFinish? || step.SMarkFirst? || step.SPop? || step.SClear? || step.SReturn?
    ensures Works(z, s')
  {
    hide Works;
    OneMarkerWorks(z, s, s', step.t);
  }

  lemma StepWorks(G: Graph, z: Setup, s: State, s': State, step: Step)
    requires Works(z, s) && ActiveOk(z, s) && RescannerOk(z, s) && IsStep(G, z, s, s', step)
    ensures Works(z, s')
  {
    hide Works, ActiveOk, RescannerOk;
    if step.SFork? {
      hide Fork;
      ForkWorks(z, s, s', step.t, step.i);
    } else {
      hide IsStep;
      if IsRoundStep(step) {
        RoundWorks(G, z, s, s', step);
      } else if IsWordStep(step) {
        WordWorks(G, z, s, s', step);
      } else if IsScanStep(step) {
        PushWorks(G, z, s, s', step);
      } else {
        TaskWorks(G, z, s, s', step);
      }
    }
  }

  lemma {:induction false} RunWorks(G: Graph, z: Setup, perms: set<nat>, roots: set<nat>, run: seq<State>, steps: seq<Step>)
    requires IsRun(G, z, run, steps) && Initial(G, z, perms, roots, run[0])
    ensures Works(z, run[|steps|])
    decreases |steps|
  {
    if |steps| > 0 {
      hide Initial, IsStep;
      var last := |steps| - 1;
      RunWorks(G, z, perms, roots, run[..|steps|], steps[..last]);
      RunIsOrderly(G, z, perms, roots, run[..|steps|], steps[..last]);
      hide Works, InOrder, Quiet;
      StepWorks(G, z, run[last], run[|steps|], steps[last]);
    }
  }

  /**
   In every run a task is forked for an object only by a marker that keeps two others on its own stack, and it gets
   the first marker of the farm that is not in use.
   */
  lemma ForksKeepWork(G: Graph, z: Setup, perms: set<nat>, roots: set<nat>, run: seq<State>, steps: seq<Step>, j: nat, t: nat, i: nat)
    requires IsRun(G, z, run, steps) && Initial(G, z, perms, roots, run[0]) && j < |steps| && steps[j] == SFork(t, i)
    ensures t < |run[j].markers| == |run[j + 1].markers| && i < z.threads && i < |run[j].markers|
    ensures run[j + 1].markers[t].msp == run[j].markers[t].msp >= 2 && run[j + 1].markers[t].slots == run[j].markers[t].slots
    ensures !run[j].markers[i].active && run[j + 1].markers[i].active && forall k :: 0 <= k < i ==> run[j].markers[k].active
  {
    hide Initial;
    RunWorks(G, z, perms, roots, run[..j + 1], steps[..j]);
    assert IsStep(G, z, run[j], run[j + 1], steps[j]);
  }

  /**
   In every run a thief takes from the stack of one of the farm's markers an object that is marked, or a permanent one
   that has been visited, and scans it from its first word; it stays on that stack.
   */
  lemma StealsMarked(G: Graph, z: Setup, perms: set<nat>, roots: set<nat>, run: seq<State>, steps: seq<Step>,
                     i: nat, t: nat, v: nat, j: nat)
    requires IsRun(G, z, run, steps) && Initial(G, z, perms, roots, run[0]) && i < |steps| && steps[i] == SSteal(t, v, j)
    ensures v < z.threads && v < |run[i].markers| == |run[i + 1].markers| && t < |run[i].markers| && j < |run[i].markers[v].slots|
    ensures var o := run[i].markers[v].slots[j];
      && o in G.objs && o in run[i].marked + run[i].visited
      && run[i + 1].markers[t].phase == Scan(o, o, 0, 0) && run[i + 1].marked == run[i].marked
      && run[i + 1].markers[v].slots == run[i].markers[v].slots && run[i + 1].markers[v].msp == run[i].markers[v].msp
  {
    hide Sound, AllCovered, RangesIn, MarkerOk, ObjectOk, Reachable, GraphOk, Local;
    var reach := ReachableSet(G, roots, perms);
    InitialInv(G, z, perms, roots, run[0]);
    hide Initial;
    RunKeeps(G, z, reach, run[..i + 1], steps[..i]);
    assert IsStep(G, z, run[i], run[i + 1], steps[i]);
    SlotKnown(G, z, reach, run[i], v, j);
  }

  // ---------- The next step of one marker ----------

  /** The marker whose step it is. */
  function Actor(s: State, step: Step): nat {
    if IsRoundStep(step) then s.main else step.t
  }

  /** Marker t is to fork a task but all markers are in use, which the code asserts is not so. */
  predicate NoMarkerLeft(z: Setup, s: State, t: nat) {
    && t < |s.markers| && s.markers[t].phase.Push? && s.markers[t].phase.how == ByFork && s.nInUse != z.threads
    && forall i :: 0 <= i < z.threads && i < |s.markers| ==> s.markers[i].active
  }

  /** Marker t is to include an object in the area of a space whose lock marker u has. */
  predicate WaitsFor(G: Graph, s: State, t: nat, u: nat) {
    && t < |s.markers| && u < |s.markers| && s.markers[t].phase.Push? && s.markers[u].phase.Widening?
    && s.markers[u].phase.k < |G.spaces|
    && G.spaces[s.markers[u].phase.k].bottom <= s.markers[t].phase.obj < G.spaces[s.markers[u].phase.k].top
  }

  lemma FeedingGoesOn(G: Graph, z: Setup, reach: set<nat>, s: State) returns (step: Step, s': State)
    requires Sound(G, reach, s) && InOrder(G, z, s) && IsAt(s, s.main, Feeding)
    ensures IsStep(G, z, s, s', step) && Actor(s, step) == s.main
  {
    hide GraphOk, Done, Local, ObjectOk;
    var t := s.main;
    if o: nat :| o in s.perms {
      step := SFeedPermanent(o);
      s' := s.(perms := s.perms - {o}, visited := s.visited + {o}, markers := Goto(s, t, if IsByte(G, o) then Feeding else Begin(o)));
    } else if o: nat :| o in s.roots {
      step := SFeedRoot(o);
      s' := if !Local(G, o) || o in s.marked then s.(roots := s.roots - {o})
            else s.(roots := s.roots - {o}, marked := s.marked + {o},
                    markers := Goto(s, t, if IsByte(G, o) then Feeding else Begin(o)));
    } else if o: nat :| o in s.again {
      assert ObjectOk(G, o) by { assert o in G.objs; ObjectsKnown(G, reach, s, o); }
      step := SFeedAgain(o);
      s' := s.(again := s.again - {o}, markers := Goto(s, t, if o !in s.marked || IsByte(G, o) then Feeding else Begin(o)));
    } else if t < z.threads {
      step := SEndRoots;
      s' := s.(nInUse := s.nInUse - 1, main := z.threads, rescan := true,
               markers := s.markers[t := s.markers[t].(active := false, phase := Resting)]);
    } else if s.next < |G.spaces| {
      step, s' := STestStart, s.(markers := Goto(s, t, Take(s.next, Tested(s.starts[s.next]))));
    } else {
      step, s' := SReadCount, s.(markers := Goto(s, t, Leaving(s.nInUse)));
    }
  }

  lemma ObjectsKnown(G: Graph, reach: set<nat>, s: State, o: nat)
    requires Sound(G, reach, s) && o in G.objs
    ensures ObjectOk(G, o)
  {
    hide Done, Local, Tiled;
  }

  lemma TakingGoesOn(G: Graph, z: Setup, s: State) returns (step: Step, s': State)
    requires InOrder(G, z, s) && s.main < |s.markers| && s.markers[s.main].phase.Take? && StageOk(G, s.markers[s.main].phase)
    ensures IsStep(G, z, s, s', step) && Actor(s, step) == s.main
  {
    hide Region, Beyond, Boundary;
    var t, m := s.main, s.markers[s.main].phase.m;
    match s.markers[t].phase.stage
    case Tested(start) =>
      step := STestEnd(m, start);
      s' := if start < s.ends[m] then s.(markers := Goto(s, t, Take(m, Found)))
            else s.(next := m + 1, markers := Goto(s, t, Feeding));
    case Found =>
      step, s' := SReadStart(m), s.(markers := Goto(s, t, Take(m, HasStart(s.starts[m]))));
    case HasStart(start) =>
      step, s' := SReadEnd(m, start), s.(markers := Goto(s, t, Take(m, HasBoth(start, s.ends[m]))));
    case HasBoth(start, end) =>
      step := SResetStart(m, start, end);
      s' := s.(starts := s.starts[m := G.spaces[m].top], forgotten := s.forgotten + Beyond(G, s, m, start, end),
               markers := Goto(s, t, Take(m, HalfReset(start, end))));
    case HalfReset(start, end) =>
      step := SResetEnd(m, start, end);
      s' := s.(ends := s.ends[m := G.spaces[m].bottom], again := Region(G, start, end), next := m + 1, rescan := true,
               markers := Goto(s, t, Feeding));
  }

  lemma ScanningGoesOn(G: Graph, z: Setup, reach: set<nat>, s: State, t: nat) returns (step: Step, s': State)
    requires t < |s.markers| && s.markers[t].phase.Scan? && PhaseOk(G, reach, s, s.markers[t].phase, s.markers[t].msp)
    ensures IsStep(G, z, s, s', step) && Actor(s, step) == t
  {
    hide ObjectOk, Local, Done, DoneTo, NeedsScan, BytesAt, NotedOk, IsByte;
    var p := s.markers[t].phase;
    ObjectSized(G, p.cur);
    if p.pos < p.cur + Size(G, p.cur) {
      if NeedsScan(G, s, G.mem[p.pos]) {
        assert G.mem[p.pos].Pointer? by { ScanNeedsPointer(G, s, G.mem[p.pos]); }
        step, s' := SNoteWord(t), s.(markers := Goto(s, t, Noted(p, G.mem[p.pos].addr)));
      } else {
        step := SSkipWord(t);
        s' := s.(marked := s.marked + BytesAt(G, G.mem[p.pos]), markers := Goto(s, t, p.(pos := p.pos + 1)));
      }
    } else {
      step := SEndWords(t);
      s' := if p.second == 0 then s.(markers := Goto(s, t, Next(p.cur, p.first)))
            else s.(marked := s.marked + {p.second}, markers := Goto(s, t, Push(p.cur, p.second, p.first, Unsettled)));
    }
  }

  lemma ScanNeedsPointer(G: Graph, s: State, v: Word)
    requires NeedsScan(G, s, v)
    ensures v.Pointer?
  {
  }

  lemma ObjectSized(G: Graph, o: nat)
    requires ObjectOk(G, o)
    ensures 0 < o <= |G.mem| && G.mem[o - 1].Length? && o + Size(G, o) <= |G.mem|
  {
  }

  /** The first marker of the farm that is not in use. */
  lemma {:induction false} FirstInactive(s: State, i: nat) returns (j: nat)
    requires i < |s.markers| && !s.markers[i].active
    ensures j <= i && !s.markers[j].active && forall k :: 0 <= k < j ==> s.markers[k].active
    decreases i
  {
    j := i;
    if k :| 0 <= k < i && !s.markers[k].active {
      j := FirstInactive(s, k);
    }
  }

  lemma ForkingGoesOn(G: Graph, z: Setup, s: State, t: nat) returns (step: Step, s': State)
    requires CountOk(z, s) && t < |s.markers| && s.markers[t].phase.Push? && s.markers[t].phase.how == ByFork
    requires !NoMarkerLeft(z, s, t)
    ensures IsStep(G, z, s, s', step) && Actor(s, step) == t
  {
    hide Actives;
    var p := s.markers[t].phase;
    if s.nInUse == z.threads {
      step, s' := SForkFails(t), s.(markers := Goto(s, t, p.(how := OnStack)));
    } else {
      var k :| 0 <= k < z.threads && !s.markers[k].active;
      var i := FirstInactive(s, k);
      step := SFork(t, i);
      s' := s.(nInUse := s.nInUse + 1,
               markers := Goto(s, t, AfterPush(p))[i := s.markers[i].(active := true, phase := Waiting(p.obj))]);
    }
  }

  lemma StackingGoesOn(G: Graph, z: Setup, reach: set<nat>, s: State, t: nat) returns (step: Step, s': State)
    requires Sound(G, reach, s) && RangesIn(G, s) && t < |s.markers| && MarkerOk(G, z, reach, s, t) && z.stackSize > 0
    requires s.markers[t].phase.Push? && s.markers[t].phase.how == OnStack && forall u :: !WaitsFor(G, s, t, u)
    ensures IsStep(G, z, s, s', step) && Actor(s, step) == t
  {
    hide ObjectOk, Done, DoneTo, NotedOk, IsByte, SlotOk, GraphOk, Boundary, WaitsFor;
    var p := s.markers[t].phase;
    if s.markers[t].msp < z.stackSize {
      step := SToStack(t);
      s' := s.(markers := s.markers[t := s.markers[t].(slots := s.markers[t].slots[s.markers[t].msp := p.obj],
                                                       msp := s.markers[t].msp + 1, phase := AfterPush(p))]);
    } else {
      assert Local(G, p.obj);
      hide Sound, MarkerOk;
      step, s' := OverflowGoesOn(G, z, s, t);
    }
  }

  lemma OverflowGoesOn(G: Graph, z: Setup, s: State, t: nat) returns (step: Step, s': State)
    requires RangesIn(G, s) && t < |s.markers| && s.markers[t].phase.Push? && s.markers[t].phase.how == OnStack
    requires s.markers[t].msp == z.stackSize && ObjectOk(G, s.markers[t].phase.obj) && Local(G, s.markers[t].phase.obj)
    requires forall u :: !WaitsFor(G, s, t, u)
    ensures IsStep(G, z, s, s', step) && Actor(s, step) == t
  {
    var p := s.markers[t].phase;
    ObjectSized(G, p.obj);
    hide ObjectOk, Boundary;
    var k: nat :| k < |G.spaces| && G.spaces[k].bottom <= p.obj < G.spaces[k].top;
    forall u | 0 <= u < |s.markers| && s.markers[u].phase.Widening?
      ensures s.markers[u].phase.k != k
    {
      assert !WaitsFor(G, s, t, u);
    }
    step := SWidenStart(t, k);
    s' := s.(starts := s.starts[k := Min(s.starts[k], p.obj - 1)], markers := Goto(s, t, Widening(p.cur, p.obj, p.first, k)));
  }

  lemma WideningGoesOn(G: Graph, z: Setup, reach: set<nat>, s: State, t: nat) returns (step: Step, s': State)
    requires RangesIn(G, s) && t < |s.markers| && MarkerOk(G, z, reach, s, t) && s.markers[t].phase.Widening?
    ensures IsStep(G, z, s, s', step) && Actor(s, step) == t
  {
    hide ObjectOk, Done, DoneTo, NotedOk, IsByte, SlotOk, Boundary, Slips;
    var p := s.markers[t].phase;
    ObjectSized(G, p.obj);
    step := SWidenEnd(t);
    s' := s.(ends := s.ends[p.k := Max(s.ends[p.k], p.obj + Size(G, p.obj))],
             forgotten := if Slips(G, s, t) then s.forgotten + {p.obj} else s.forgotten,
             markers := Goto(s, t, AfterPush(p)));
  }

  lemma PoppingGoesOn(G: Graph, z: Setup, reach: set<nat>, s: State, t: nat) returns (step: Step, s': State)
    requires t < |s.markers| && MarkerOk(G, z, reach, s, t) && RoomForPopped(s)
    requires s.markers[t].phase.Next? || s.markers[t].phase.Popped?
    ensures IsStep(G, z, s, s', step) && Actor(s, step) == t
  {
    hide ObjectOk, Done, DoneTo, NotedOk, IsByte, SlotOk, Pushable;
    var m := s.markers[t];
    if m.phase.Popped? {
      step := SClear(t, m.phase.obj);
      s' := s.(markers := s.markers[t := m.(slots := m.slots[m.msp := 0], phase := Begin(m.phase.obj))]);
    } else if m.phase.first != 0 {
      step := SMarkFirst(t, m.phase.cur, m.phase.first);
      s' := s.(marked := s.marked + {m.phase.first}, markers := Goto(s, t, Begin(m.phase.first)));
    } else if m.msp > 0 {
      step := SPop(t, m.phase.cur);
      s' := s.(markers := s.markers[t := m.(msp := m.msp - 1, phase := Popped(m.slots[m.msp - 1]))]);
    } else {
      step, s' := SReturn(t, m.phase.cur), s.(markers := Goto(s, t, Home(s, t)));
    }
  }

  /**
   A marker that is in use has a next step, whatever the others do, unless it must wait for the lock of a space or
   there is no marker for the task it is to fork.
   */
  lemma MarkerGoesOn(G: Graph, z: Setup, reach: set<nat>, s: State, t: nat) returns (step: Step, s': State)
    requires Inv(G, z, reach, s) && Orderly(G, z, s) && RoomForPopped(s) && z.stackSize > 0
    requires t < |s.markers| && s.markers[t].phase != Resting
    requires !NoMarkerLeft(z, s, t) && forall u :: !WaitsFor(G, s, t, u)
    ensures IsStep(G, z, s, s', step) && Actor(s, step) == t
  {
    hide IsStep, Sound, AllCovered, RangesIn, SlotOk, RoomForPopped, NoMarkerLeft, WaitsFor, Quiet, CountOk, InOrder;
    assert MarkerOk(G, z, reach, s, t);
    match s.markers[t].phase
    case Feeding => step, s' := FeedingGoesOn(G, z, reach, s);
    case Take(_, _) => step, s' := TakingGoesOn(G, z, s);
    case Scan(_, _, _, _) => step, s' := ScanningGoesOn(G, z, reach, s, t);
    case Push(_, _, _, ByFork) => step, s' := ForkingGoesOn(G, z, s, t);
    case Push(_, _, _, OnStack) => step, s' := StackingGoesOn(G, z, reach, s, t);
    case Widening(_, _, _, _) => step, s' := WideningGoesOn(G, z, reach, s, t);
    case Next(_, _) => step, s' := PoppingGoesOn(G, z, reach, s, t);
    case Popped(_) => step, s' := PoppingGoesOn(G, z, reach, s, t);
    case _ => step, s' := SimplyGoesOn(G, z, s, t);
  }

  lemma SimplyGoesOn(G: Graph, z: Setup, s: State, t: nat) returns (step: Step, s': State)
    requires t < |s.markers| && match s.markers[t].phase
                                case Waiting(_) => true
                                case Looking => true
                                case Leaving(_) => t == s.main
                                case Push(_, _, _, how) => how == Unsettled
                                case _ => false
    ensures IsStep(G, z, s, s', step) && Actor(s, step) == t
  {
    match s.markers[t].phase
    case Waiting(obj) => step, s' := SBeginTask(t, obj), s.(markers := Goto(s, t, Begin(obj)));
    case Looking =>
      step := SFinish(t);
      s' := s.(nInUse := s.nInUse - 1, markers := s.markers[t := s.markers[t].(active := false, phase := Resting)]);
    case Leaving(count) =>
      step := SWriteCount(count, false);
      s' := s.(nInUse := count - 1, lost := s.nInUse - 1 - (count - 1),
               markers := s.markers[s.main := s.markers[s.main].(active := false, phase := Resting)]);
    case Push(cur, obj, first, how) =>
      step := SDecide(t);
      s' := s.(markers := Goto(s, t, s.markers[t].phase.(how := if Full(z, s) || s.markers[t].msp < 2 then OnStack else ByFork)));
  }

  // ---------- The whole ----------

  /**
   In every run, as long as marking has not ended and no fork lacks a marker, there is a next step: if all markers
   rest the main thread begins a further round, and a marker that waits for a lock waits for one that can go on.
   */
  lemma MarkingGoesOn(G: Graph, z: Setup, perms: set<nat>, roots: set<nat>, run: seq<State>, steps: seq<Step>)
    returns (step: Step, s': State)
    requires IsRun(G, z, run, steps) && Initial(G, z, perms, roots, run[0]) && z.stackSize > 0
    requires !Ended(z, run[|steps|]) && forall t :: !NoMarkerLeft(z, run[|steps|], t)
    ensures IsStep(G, z, run[|steps|], s', step)
  {
    var s, reach := run[|steps|], ReachableSet(G, roots, perms);
    InitialInv(G, z, perms, roots, run[0]);
    RunKeeps(G, z, reach, run, steps);
    RunIsOrderly(G, z, perms, roots, run, steps);
    RunWorks(G, z, perms, roots, run, steps);
    hide Initial, Sound, AllCovered, RangesIn, MarkerOk, RoomForPopped, NoMarkerLeft, WaitsFor, Quiet, Reachable;
    if AllRest(s) {
      hide CountOk;
      step := SBeginRescan;
      s' := s.(nInUse := 1, lost := 0, next := 0, rescan := false, markers := Goto(s, z.threads, Feeding));
    } else {
      var t: nat :| t < |s.markers| && s.markers[t].phase != Resting;
      hide CountOk, InOrder, IsStep;
      if u :| WaitsFor(G, s, t, u) {
        WaitingIsShort(G, s, t, u);
        step, s' := MarkerGoesOn(G, z, reach, s, u);
      } else {
        step, s' := MarkerGoesOn(G, z, reach, s, t);
      }
    }
  }

  /** A marker that has the lock of a space waits for none. */
  lemma WaitingIsShort(G: Graph, s: State, t: nat, u: nat)
    requires WaitsFor(G, s, t, u)
    ensures u < |s.markers| && s.markers[u].phase.Widening? && forall v :: !WaitsFor(G, s, u, v)
  {
  }
}
