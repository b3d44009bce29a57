/** Whole runs of the copy phase: what holds in every state, and when all tasks have finished. */
module CopyResults {
  import opened Heap
  import opened Moves
  import opened CopySteps
  import opened CopyPhase

  /** The phase starts with the marked objects alone, nothing retained and no space owned. */
  ghost predicate Initial(c: Config, marked: set<nat>, s: State, g: Shape) {
    && SizesOk(c, s)
    && g.Keys == marked && (forall a :: a in g ==> g[a].final == a)
    && ShapeOk(c.spaces, g) && BitsOk(s.bits, g) && HeadersOk(s.mem, g) && MutablesOk(c.spaces, s.mem, g)
    && (forall k :: 0 <= k < |c.spaces| ==> Untouched(c, s, g, k))
    && (forall a :: a in g ==> s.lower[g[a].space] <= a - 1)
    && (forall t :: 0 <= t < |s.workers| ==> s.workers[t] == Idle)
    && !s.ran
  }

  predicate Untouched(c: Config, s: State, g: Shape, k: nat)
    requires SizesOk(c, s) && k < |c.spaces|
  {
    && s.upper[k] == c.spaces[k].top && s.owner[k] == None && s.searched[k] == c.spaces[k].bottom
    && c.spaces[k].bottom <= s.lower[k] <= c.spaces[k].top && Boundary(c, g, k, s.lower[k])
  }

  lemma InitialHeap(c: Config, marked: set<nat>, s: State, g: Shape)
    requires Initial(c, marked, s, g)
    ensures HeapOk(c, s.mem, marked, s.mem, s.bits, g)
  {
    forall o | o in marked
      ensures o in g && SameObject(s.mem, o, s.mem, g[o].final, g[o].size)
    {
      InMemory(c.spaces, |s.mem|, g, o);
    }
  }

  lemma InitialInv(c: Config, marked: set<nat>, s: State, g: Shape)
    requires Initial(c, marked, s, g)
    ensures Inv(c, s.mem, marked, s, g)
  {
    hide HeapOk, FinalOk, HeaderOk, Overlaps, MutablesOk;
    InitialHeap(c, marked, s, g);
    forall k | 0 <= k < |c.spaces|
      ensures SpaceAt(c, s, g, k) && OwnerOk(c, s, k) && s.owner[k] == None
    {
      assert Untouched(c, s, g, k);
    }
    forall a | a in g
      ensures g[a].space < |c.spaces| && ObjectAt(g, a, Position(s, g[a].space), s.upper[g[a].space])
    {
      assert InSpace(c.spaces, a, g[a]);
      assert Untouched(c, s, g, g[a].space);
    }
  }

  /** Every step of every task keeps the invariant. */
  lemma StepKeeps(c: Config, mem0: seq<Word>, marked: set<nat>, s: State, s': State, g: Shape, step: Step) returns (g': Shape)
    requires Inv(c, mem0, marked, s, g) && IsStep(c, s, s', step)
    ensures Inv(c, mem0, marked, s', g')
  {
    hide Inv, StartRun, EndRun, TakeSource, SkipSource, ReachTop, CopyCell, NextSpace, StayPut;
    g' := g;
    match step
    case Start(t) => StartKeeps(c, mem0, marked, s, s', g, t);
    case End(t) => EndKeeps(c, mem0, marked, s, s', g, t);
    case Take(t, src) => TakeKeeps(c, mem0, marked, s, s', g, t, src);
    case Skip(t, src) => SkipKeeps(c, mem0, marked, s, s', g, t, src);
    case Top(t) => TopKeeps(c, mem0, marked, s, s', g, t);
    case Copy(t, w, m, q) => g' := CopyKeeps(c, mem0, marked, s, s', g, t, w, m, q);
    case Next(t, w, m) => NextKeeps(c, mem0, marked, s, s', g, t, w, m);
    case Stay(t, w) => StayKeeps(c, mem0, marked, s, s', g, t, w);
  }

  /** A run: any interleaving of the tasks' steps. */
  predicate IsRun(c: Config, run: seq<State>, steps: seq<Step>) {
    |run| == |steps| + 1 && forall i :: 0 <= i < |steps| ==> IsStep(c, run[i], run[i + 1], steps[i])
  }

  lemma {:induction false} RunKeeps(c: Config, mem0: seq<Word>, marked: set<nat>, run: seq<State>, steps: seq<Step>, g: Shape)
    returns (g': Shape)
    requires IsRun(c, run, steps) && Inv(c, mem0, marked, run[0], g)
    ensures Inv(c, mem0, marked, run[|steps|], g')
    decreases |steps|
  {
    hide Inv, IsStep;
    if |steps| == 0 {
      g' := g;
    } else {
      var last := |steps| - 1;
      g' := RunKeeps(c, mem0, marked, run[..|steps|], steps[..last], g);
      g' := StepKeeps(c, mem0, marked, run[last], run[|steps|], g', steps[last]);
    }
  }

  /** All tasks have come to the end of a run. */
  predicate Finished(s: State) {
    s.ran && forall t :: 0 <= t < |s.workers| ==> s.workers[t] == Idle
  }

  /** What is kept of a space lies at or above its retention limit, which is where an object begins. */
  ghost predicate Retained(c: Config, s: State, g: Shape)
    requires SizesOk(c, s)
  {
    && (forall a :: a in g ==> g[a].space < |c.spaces| && (g[a].final == a ==> s.upper[g[a].space] < a))
    && (forall k :: 0 <= k < |c.spaces| ==> Boundary(c, g, k, s.upper[k]))
  }

  /** When the tasks are done every space has been scanned, so no object left below the limit is still in place. */
  lemma FinishedRetains(c: Config, mem0: seq<Word>, marked: set<nat>, s: State, g: Shape)
    requires Inv(c, mem0, marked, s, g) && Finished(s)
    ensures Retained(c, s, g)
  {
    hide HeapOk, Overlaps, HeaderOk;
    forall k | 0 <= k < |c.spaces|
      ensures Position(s, k) == c.spaces[k].top && Boundary(c, g, k, s.upper[k])
    {
      assert OwnerOk(c, s, k) && SpaceAt(c, s, g, k);
      assert WorkerOk(c, s, s.owner[k].value);
    }
    forall a | a in g
      ensures g[a].space < |c.spaces| && (g[a].final == a ==> s.upper[g[a].space] < a)
    {
      assert ObjectAt(g, a, Position(s, g[a].space), s.upper[g[a].space]);
      assert InSpace(c.spaces, a, g[a]) by {
        HeapFacts(c, mem0, marked, s.mem, s.bits, g);
      }
    }
  }

  /** The result of the phase, however the tasks interleaved. */
  lemma CopyPhaseResult(c: Config, marked: set<nat>, run: seq<State>, steps: seq<Step>, g0: Shape) returns (g: Shape)
    requires IsRun(c, run, steps) && Initial(c, marked, run[0], g0) && Finished(run[|steps|])
    ensures Inv(c, run[0].mem, marked, run[|steps|], g) && Retained(c, run[|steps|], g)
  {
    hide Inv, Initial, Retained, IsStep;
    InitialInv(c, marked, run[0], g0);
    g := RunKeeps(c, run[0].mem, marked, run, steps, g0);
    FinishedRetains(c, run[0].mem, marked, run[|steps|], g);
  }

  // ---------- No task is ever stuck ----------

  /** The highest free run of n words from limit up, found by trying each place downwards. */
  lemma {:induction false} BestRun(space: Space, bits: set<nat>, limit: nat, n: nat, from: int) returns (p: Option<nat>)
    requires limit - 1 <= from
    requires forall r: nat :: from < r && r + n <= space.top ==> !FreeRun(bits, r, n)
    ensures Allocates(space, bits, limit, n, p)
    decreases from - limit + 1
  {
    hide FreeRun;
    if from < limit {
      p := None;
    } else if from + n <= space.top && FreeRun(bits, from, n) {
      p := Some(from);
    } else {
      p := BestRun(space, bits, limit, n, from - 1);
    }
  }

  lemma {:induction false} FindSet(bits: set<nat>, at: nat, top: nat) returns (w: nat)
    requires at <= top
    ensures FirstSet(bits, at, top, w)
    decreases top - at
  {
    if at == top || at in bits {
      w := at;
    } else {
      w := FindSet(bits, at + 1, top);
    }
  }

  lemma TryCell(c: Config, s: State, t: nat, w: nat) returns (p: Option<nat>)
    requires SizesOk(c, s) && CellAt(c, s, t, w) && WorkerOk(c, s, t)
    ensures Tries(c, s, t, w, p)
  {
    match CellDestination(c, s, t, w)
    case None => p := None;
    case Some(m) =>
      var limit := Limit(c, s, t, w, m);
      p := BestRun(c.spaces[m], s.bits, limit, s.mem[w].length + 1, limit + c.spaces[m].top);
  }

  /**
   Whatever a task finds in its source it can go on: the header it reads is a length word, and if
   there is no room there is always a further space to try, at the last the source itself.
   */
  lemma ScanGoesOn(c: Config, mem0: seq<Word>, marked: set<nat>, s: State, g: Shape, t: nat) returns (s': State, step: Step)
    requires Inv(c, mem0, marked, s, g) && t < |s.workers| && s.workers[t].Scanning?
    ensures IsStep(c, s, s', step) && step.t == t
  {
    hide HeapOk;
    var src, at := s.workers[t].src, s.workers[t].at;
    assert WorkerOk(c, s, t);
    ScanPosition(c, s, g, t);
    assert SpaceAt(c, s, g, src);
    hide PositionsOk;
    var w := FindSet(s.bits, at, c.spaces[src].top);
    if w == c.spaces[src].top {
      step, s' := Top(t), s.(workers := s.workers[t := Leave(src, s.workers[t].d)]);
    } else {
      HeapFacts(c, mem0, marked, s.mem, s.bits, g);
      FirstSetIsHeader(c, s, g, t, w);
      step, s' := CellStep(c, s, t, w);
    }
  }

  /** A task that is between sources, or not running, can go on: it takes a space nobody else owns and passes over others. */
  lemma ChoosingGoesOn(c: Config, s: State, t: nat) returns (s': State, step: Step)
    requires SizesOk(c, s) && t < |s.workers| && WorkerOk(c, s, t) && !s.workers[t].Scanning?
    ensures IsStep(c, s, s', step) && step.t == t
    ensures s.workers[t].Choosing? && s.workers[t].i > 0 ==>
      var src: nat := s.workers[t].i - 1;
      src < |c.spaces| && step == if s.owner[src] == None || s.owner[src] == Some(t) then Take(t, src) else Skip(t, src)
  {
    match s.workers[t]
    case Idle => step, s' := Start(t), s.(workers := s.workers[t := Choosing(|c.spaces|, Dests(None, None))]);
    case Choosing(i, d) =>
      if i == 0 {
        step, s' := End(t), s.(workers := s.workers[t := Idle], ran := true);
      } else if s.owner[i - 1] == None || s.owner[i - 1] == Some(t) {
        step := Take(t, i - 1);
        s' := s.(owner := s.owner[i - 1 := Some(t)], lower := s.lower[i - 1 := c.spaces[i - 1].top],
                 workers := s.workers[t := Scanning(i - 1, s.lower[i - 1], d)]);
      } else {
        step, s' := Skip(t, i - 1), s.(workers := s.workers[t := Choosing(i - 1, d)]);
      }
  }

  /** The first open space from place m on, or the source. */
  lemma {:induction false} FindNextSpace(c: Config, s: State, src: nat, m: nat, isMutable: bool) returns (n: nat)
    requires SizesOk(c, s) && m <= src < |c.spaces|
    ensures m <= n <= src && (n == src || Open(c, s, isMutable, n))
    ensures forall k :: m <= k < n ==> !Open(c, s, isMutable, k)
    decreases src - m
  {
    if m == src || Open(c, s, isMutable, m) {
      n := m;
    } else {
      n := FindNextSpace(c, s, src, m + 1, isMutable);
    }
  }

  lemma CellStep(c: Config, s: State, t: nat, w: nat) returns (step: Step, s': State)
    requires SizesOk(c, s) && CellAt(c, s, t, w) && WorkerOk(c, s, t)
    requires w + 1 + s.mem[w].length <= c.spaces[s.workers[t].src].top
    ensures IsStep(c, s, s', step) && step.t == t
  {
    hide Allocates;
    var src, size, d := s.workers[t].src, s.mem[w].length, s.workers[t].d;
    var p := TryCell(c, s, t, w);
    var searched := Searched(c, s, t, w);
    if p.Some? {
      step, s' := CopyStep(c, s, t, w, p.value);
    } else if CellDestination(c, s, t, w) != Some(src) {
      var m := FindNextSpace(c, s, src, After(CurrentDest(d, s.mem[w].isMutable)), s.mem[w].isMutable);
      step := Next(t, w, m);
      s' := s.(owner := s.owner[m := Some(t)], searched := searched,
               workers := s.workers[t := Scanning(src, w, NewDest(d, s.mem[w].isMutable, m))]);
    } else {
      step := Stay(t, w);
      s' := s.(upper := s.upper[src := Min(s.upper[src], w)], searched := searched,
               workers := s.workers[t := if !c.spaces[src].isMutable || c.iMarked[src] == 0 then Leave(src, d)
                                         else Scanning(src, w + size + 1, d)]);
    }
  }

  lemma CopyStep(c: Config, s: State, t: nat, w: nat, q: nat) returns (step: Step, s': State)
    requires SizesOk(c, s) && CellAt(c, s, t, w) && WorkerOk(c, s, t) && Tries(c, s, t, w, Some(q))
    requires w + 1 + s.mem[w].length <= c.spaces[s.workers[t].src].top
    ensures IsStep(c, s, s', step) && step.t == t
  {
    var src, size := s.workers[t].src, s.mem[w].length;
    var m := CellDestination(c, s, t, w).value;
    step := Copy(t, w, m, q);
    s' := s.(mem := Moved(s.mem, w + 1, size, q), bits := s.bits + Interval(q, size + 1),
             upper := s.upper[m := Min(s.upper[m], q)], searched := Searched(c, s, t, w),
             workers := s.workers[t := Scanning(src, w + size + 1, s.workers[t].d)]);
  }

  // ---------- Every run of a task ends ----------

  function Ahead(dest: Option<nat>, src: nat): nat {
    if dest.Some? && dest.value <= src then src - dest.value else src + 1
  }

  /** How far a task is from the end of its run: spaces, then words, then further destinations. */
  function Remaining(c: Config, w: Worker): (nat, nat, nat) {
    match w
    case Idle => (0, 0, 0)
    case Choosing(i, d) => (2 * i, 0, 0)
    case Scanning(src, at, d) =>
      (2 * src + 1,
       if src < |c.spaces| && at <= c.spaces[src].top then c.spaces[src].top - at else 0,
       Ahead(d.mutableDest, src) + Ahead(d.immutableDest, src))
  }

  predicate Less(x: (nat, nat, nat), y: (nat, nat, nat)) {
    x.0 < y.0 || (x.0 == y.0 && (x.1 < y.1 || (x.1 == y.1 && x.2 < y.2)))
  }

  /** Each step within a run brings that task nearer its end, and no other task further from theirs. */
  lemma StepApproaches(c: Config, mem0: seq<Word>, marked: set<nat>, s: State, s': State, g: Shape, step: Step)
    requires Inv(c, mem0, marked, s, g) && IsStep(c, s, s', step) && !step.Start? && !step.End?
    ensures |s'.workers| == |s.workers| && step.t < |s.workers|
    ensures Less(Remaining(c, s'.workers[step.t]), Remaining(c, s.workers[step.t]))
    ensures forall u :: 0 <= u < |s.workers| && u != step.t ==> s'.workers[u] == s.workers[u]
  {
    hide Inv, Allocates, FirstSet, Moved, Interval, Searched, Less, Remaining;
    match step
    case Take(t, src) => ChosenIsLess(c, src, s.lower[src], s.workers[t].d, s.workers[t].d);
    case Skip(t, src) => ChosenIsLess(c, src, 0, s.workers[t].d, s.workers[t].d);
    case Top(t) => LeftIsLess(c, s.workers[t].src, s.workers[t].at, s.workers[t].d);
    case Copy(t, w, m, q) =>
      CellFits(c, mem0, marked, s, g, t, w);
      PassedIsLess(c, s.workers[t].src, s.workers[t].at, w + s.mem[w].length + 1, s.workers[t].d);
    case Next(t, w, m) =>
      CellFits(c, mem0, marked, s, g, t, w);
      NextIsLess(c, s.workers[t].src, s.workers[t].at, w, s.workers[t].d, s.mem[w].isMutable, m);
    case Stay(t, w) =>
      CellFits(c, mem0, marked, s, g, t, w);
      PassedIsLess(c, s.workers[t].src, s.workers[t].at, w + s.mem[w].length + 1, s.workers[t].d);
      LeftIsLess(c, s.workers[t].src, s.workers[t].at, s.workers[t].d);
  }

  lemma ChosenIsLess(c: Config, src: nat, at: nat, d: Dests, d': Dests)
    ensures Less(Remaining(c, Scanning(src, at, d)), Remaining(c, Choosing(src + 1, d')))
    ensures Less(Remaining(c, Choosing(src, d)), Remaining(c, Choosing(src + 1, d')))
  {
  }

  lemma LeftIsLess(c: Config, src: nat, at: nat, d: Dests)
    ensures Less(Remaining(c, Leave(src, d)), Remaining(c, Scanning(src, at, d)))
  {
  }

  lemma PassedIsLess(c: Config, src: nat, at: nat, at': nat, d: Dests)
    requires src < |c.spaces| && at < at' <= c.spaces[src].top
    ensures Less(Remaining(c, Scanning(src, at', d)), Remaining(c, Scanning(src, at, d)))
  {
  }

  lemma NextIsLess(c: Config, src: nat, at: nat, w: nat, d: Dests, isMutable: bool, m: nat)
    requires src < |c.spaces| && at <= w < c.spaces[src].top
    requires (if CurrentDest(d, isMutable) == None then 0 else CurrentDest(d, isMutable).value + 1) <= m <= src
    ensures Less(Remaining(c, Scanning(src, w, NewDest(d, isMutable, m))), Remaining(c, Scanning(src, at, d)))
  {
  }

  lemma CellFits(c: Config, mem0: seq<Word>, marked: set<nat>, s: State, g: Shape, t: nat, w: nat)
    requires Inv(c, mem0, marked, s, g) && CellAt(c, s, t, w)
    ensures w + 1 + s.mem[w].length <= c.spaces[s.workers[t].src].top && s.workers[t].at <= w
  {
    hide HeapOk, PositionsOk;
    assert WorkerOk(c, s, t);
    HeapFacts(c, mem0, marked, s.mem, s.bits, g);
    FirstSetIsHeader(c, s, g, t, w);
  }
}
