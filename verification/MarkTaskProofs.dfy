/** What every step of every marking task keeps, and what is left when all the tasks are done. */
module MarkTaskProofs {
  import opened Heap
  import opened MarkGraph
  import opened MarkTasks

  /** A local object with fields, as noted for a scan; zero for none. */
  predicate NotedOk(G: Graph, reach: set<nat>, o: nat) {
    o != 0 ==> o in G.objs && ObjectOk(G, o) && Local(G, o) && !IsByte(G, o) && o in reach
  }

  /** An object with fields that has been marked or, if permanent, visited. */
  predicate Known(G: Graph, s: State, o: nat) {
    o in G.objs && ObjectOk(G, o) && !IsByte(G, o) && o in s.marked + s.visited
  }

  /** An object a marker may push: marked, or else permanent and pushed on an empty stack. */
  predicate Pushable(G: Graph, s: State, o: nat, msp: nat) {
    Known(G, s, o) && (o in s.marked || msp == 0)
  }

  /** Each field before pos leads to an object that is marked or noted. */
  predicate ScanOk(G: Graph, reach: set<nat>, s: State, cur: nat, pos: nat, first: nat, second: nat, msp: nat) {
    && Pushable(G, s, cur, msp) && cur <= pos <= cur + Size(G, cur)
    && NotedOk(G, reach, first) && NotedOk(G, reach, second) && (second != 0 ==> first != 0)
    && first != cur && second != cur
    && DoneTo(G, s.marked + {first, second}, cur, pos)
  }

  predicate PushOk(G: Graph, reach: set<nat>, s: State, cur: nat, obj: nat, first: nat, msp: nat) {
    && Known(G, s, cur) && Pushable(G, s, obj, msp) && NotedOk(G, reach, first)
    && (obj != cur ==> Done(G, s.marked + {first}, cur))
  }

  predicate PhaseOk(G: Graph, reach: set<nat>, s: State, p: Phase, msp: nat) {
    match p
    case Resting => msp == 0
    case Waiting(obj) => msp == 0 && Known(G, s, obj)
    case Feeding => msp == 0
    case Take(m, stage) => msp == 0
    case Leaving(count) => msp == 0
    case Looking => msp == 0
    case Scan(cur, pos, first, second) => ScanOk(G, reach, s, cur, pos, first, second, msp)
    case Push(cur, obj, first, how) => PushOk(G, reach, s, cur, obj, first, msp)
    case Widening(cur, obj, first, k) =>
      PushOk(G, reach, s, cur, obj, first, msp) && k < |G.spaces| && G.spaces[k].bottom <= obj < G.spaces[k].top
    case Next(cur, first) =>
      NotedOk(G, reach, first) && (cur != 0 ==> Known(G, s, cur) && Done(G, s.marked + {first}, cur))
    case Popped(obj) => Pushable(G, s, obj, msp)
  }

  /** What slot j of a stack holds: an object below msp, and nothing above but one just popped. */
  predicate SlotOk(G: Graph, s: State, m: Marker, j: nat)
    requires j < |m.slots|
  {
    if j < m.msp then Pushable(G, s, m.slots[j], j)
    else m.slots[j] == 0 || (m.phase == Popped(m.slots[j]) && j == m.msp)
  }

  ghost predicate MarkerOk(G: Graph, z: Setup, reach: set<nat>, s: State, t: nat)
    requires t < |s.markers|
  {
    && |s.markers[t].slots| == z.stackSize && s.markers[t].msp <= z.stackSize
    && (t < z.threads ==> (s.markers[t].active <==> s.markers[t].phase != Resting))
    && (forall j :: 0 <= j < |s.markers[t].slots| ==> SlotOk(G, s, s.markers[t], j))
    && PhaseOk(G, reach, s, s.markers[t].phase, s.markers[t].msp)
    && (IsMain(s.markers[t].phase) ==> t == s.main) && StageOk(G, s.markers[t].phase)
    && (s.markers[t].phase.Take? ==> s.again == {})
  }

  /** What only the main thread does. */
  predicate IsMain(p: Phase) {
    p.Feeding? || p.Take? || p.Leaving?
  }

  /** The limits read of an area lie within its space. */
  predicate StageOk(G: Graph, p: Phase) {
    p.Take? ==>
      p.m < |G.spaces|
      && (match p.stage
          case HasStart(start) => G.spaces[p.m].bottom <= start + 1
          case HasBoth(start, end) => G.spaces[p.m].bottom <= start + 1 && Boundary(G, p.m, end)
          case HalfReset(start, end) => G.spaces[p.m].bottom <= start + 1 && Boundary(G, p.m, end)
          case _ => true)
  }

  function Currents(p: Phase): set<nat> {
    match p
    case Waiting(obj) => {obj}
    case Scan(cur, _, _, _) => {cur}
    case Push(cur, obj, _, _) => {cur, obj}
    case Widening(cur, obj, _, _) => if obj == cur then {} else {cur}
    case Next(cur, _) => {cur}
    case Popped(obj) => {obj}
    case _ => {}
  }

  /** The objects a marker still has to deal with. */
  function Held(m: Marker): set<nat> {
    (set o | o in m.slots[..Min(m.msp, |m.slots|)]) + Currents(m.phase)
  }

  ghost predicate HeldBy(s: State, o: nat) {
    exists t :: 0 <= t < |s.markers| && o in Held(s.markers[t])
  }

  datatype Taking = NotTaking | Taking(m: nat, stage: Stage)

  /** The space whose area the main thread is taking, and how far it is. */
  function TakingOf(s: State): Taking {
    if s.main < |s.markers| && s.markers[s.main].phase.Take?
    then Taking(s.markers[s.main].phase.m, s.markers[s.main].phase.stage) else NotTaking
  }

  /**
   The area of space k records the object, and will be there to be taken with it: what does not lie between
   limits already read is about to be reset, and once the start is reset the area records nothing.
   */
  predicate AreaHas(G: Graph, s: State, k: nat, o: nat)
    requires ObjectOk(G, o) && k < |s.starts| == |s.ends|
  {
    && s.starts[k] < o && o + Size(G, o) <= s.ends[k]
    && (TakingOf(s).Taking? && TakingOf(s).m == k ==> !TakingOf(s).stage.HalfReset? && Within(G, TakingOf(s).stage, o))
  }

  predicate InRange(G: Graph, s: State, o: nat)
    requires ObjectOk(G, o) && |s.starts| == |s.ends| == |G.spaces|
  {
    exists k :: 0 <= k < |G.spaces| && AreaHas(G, s, k, o)
  }

  /** The start limit has been reset, and the object lies between the limits read. */
  predicate Taken(G: Graph, s: State, o: nat)
    requires ObjectOk(G, o)
  {
    TakingOf(s).Taking? && TakingOf(s).stage.HalfReset? && Within(G, TakingOf(s).stage, o)
  }

  /** Marker t is including the object in an area whose start limit is below it. */
  predicate Enters(s: State, t: nat, o: nat)
    requires t < |s.markers|
  {
    && s.markers[t].phase.Widening? && s.markers[t].phase.obj == o
    && s.markers[t].phase.k < |s.starts| && s.starts[s.markers[t].phase.k] < o
  }

  predicate HalfIn(s: State, o: nat) {
    exists t :: 0 <= t < |s.markers| && Enters(s, t, o)
  }

  /** The object's scan is complete, or a marker, the main thread or an area to be rescanned records it, or it has been lost. */
  ghost predicate Covered(G: Graph, s: State, o: nat)
    requires ObjectOk(G, o) && |s.starts| == |s.ends| == |G.spaces|
  {
    Done(G, s.marked, o) || HeldBy(s, o) || o in s.again || InRange(G, s, o) || Taken(G, s, o) || HalfIn(s, o)
    || o in s.forgotten
  }

  ghost predicate AllCovered(G: Graph, s: State) {
    && |s.starts| == |s.ends| == |G.spaces|
    && forall o :: o in s.marked + s.visited ==> o in G.objs && ObjectOk(G, o) && Covered(G, s, o)
  }

  /** Only reachable local objects are marked; permanent objects and roots lead only to reachable ones. */
  ghost predicate Sound(G: Graph, reach: set<nat>, s: State) {
    && GraphOk(G) && s.marked <= reach <= G.objs
    && (forall o :: o in s.marked ==> Local(G, o))
    && (forall o :: o in reach ==> ObjectOk(G, o) && Done(G, reach, o))
    && (forall o :: o in s.perms + s.visited ==> o in G.objs && ObjectOk(G, o) && Done(G, reach, o) && !Local(G, o))
    && (forall o :: o in s.roots ==> o in G.objs && ObjectOk(G, o) && (Local(G, o) ==> o in reach))
    && s.again <= G.objs && (forall o :: o in s.again ==> Local(G, o))
  }

  /** The areas to be rescanned lie within their spaces and end where an object begins, or the space ends. */
  predicate RangesIn(G: Graph, s: State) {
    && |s.starts| == |s.ends| == |G.spaces|
    && forall k :: 0 <= k < |G.spaces| ==> G.spaces[k].bottom <= s.starts[k] + 1 && Boundary(G, k, s.ends[k])
  }

  ghost predicate Inv(G: Graph, z: Setup, reach: set<nat>, s: State) {
    && |s.markers| == z.threads + 1 && s.main <= z.threads
    && Sound(G, reach, s) && AllCovered(G, s) && RangesIn(G, s)
    && forall t :: 0 <= t < |s.markers| ==> MarkerOk(G, z, reach, s, t)
  }

  // ---------- What a step leaves alone ----------

  lemma DoneGrows(G: Graph, m: set<nat>, m': set<nat>, o: nat)
    requires ObjectOk(G, o) && Done(G, m, o) && m <= m'
    ensures Done(G, m', o)
  {
    hide Local;
    if !IsByte(G, o) {
      DoneToGrows(G, m, m', o, o + Size(G, o));
    }
  }

  lemma DoneToGrows(G: Graph, m: set<nat>, m': set<nat>, o: nat, to: nat)
    requires ObjectOk(G, o) && DoneTo(G, m, o, to) && m <= m'
    ensures DoneTo(G, m', o, to)
  {
    hide Local;
    forall w | o <= w < to && w < o + Size(G, o)
      ensures FieldDone(G, m', w)
    {
      assert FieldDone(G, m, w);
    }
  }

  lemma PhaseGrows(G: Graph, reach: set<nat>, s: State, s': State, p: Phase, msp: nat)
    requires PhaseOk(G, reach, s, p, msp) && s.marked <= s'.marked && s.visited <= s'.visited
    ensures PhaseOk(G, reach, s', p, msp)
  {
    hide Done, DoneTo, ObjectOk, NotedOk, IsByte;
    match p
    case Scan(cur, pos, first, second) =>
      DoneToGrows(G, s.marked + {first, second}, s'.marked + {first, second}, cur, pos);
    case Push(cur, obj, first, how) =>
      if obj != cur { DoneGrows(G, s.marked + {first}, s'.marked + {first}, cur); }
    case Widening(cur, obj, first, k) =>
      if obj != cur { DoneGrows(G, s.marked + {first}, s'.marked + {first}, cur); }
    case Next(cur, first) =>
      if cur != 0 { DoneGrows(G, s.marked + {first}, s'.marked + {first}, cur); }
    case _ =>
  }

  lemma SlotGrows(G: Graph, s: State, s': State, m: Marker, j: nat)
    requires j < |m.slots| && SlotOk(G, s, m, j) && s.marked <= s'.marked && s.visited <= s'.visited
    ensures SlotOk(G, s', m, j)
  {
  }

  /** Another marker is unaffected. */
  lemma OtherMarker(G: Graph, z: Setup, reach: set<nat>, s: State, s': State, u: nat)
    requires u < |s.markers| == |s'.markers| && s'.markers[u] == s.markers[u] && MarkerOk(G, z, reach, s, u)
    requires s.marked <= s'.marked && s.visited <= s'.visited
    requires (IsMain(s.markers[u].phase) ==> s'.main == s.main) && (s.markers[u].phase.Take? ==> s'.again <= s.again)
    ensures MarkerOk(G, z, reach, s', u)
  {
    hide SlotOk, PhaseOk, StageOk;
    PhaseGrows(G, reach, s, s', s.markers[u].phase, s.markers[u].msp);
    forall j | 0 <= j < |s'.markers[u].slots|
      ensures SlotOk(G, s', s'.markers[u], j)
    {
      SlotGrows(G, s, s', s.markers[u], j);
    }
  }

  /** Marks are only added, areas to be rescanned only grow, and only marker t changes. */
  ghost predicate Grows(G: Graph, s: State, s': State, t: nat) {
    && t < |s.markers| == |s'.markers|
    && s.marked <= s'.marked && s.visited <= s'.visited && s.forgotten <= s'.forgotten
    && |s.starts| == |s.ends| == |s'.starts| == |s'.ends| == |G.spaces|
    && (forall k :: 0 <= k < |G.spaces| ==> s'.starts[k] <= s.starts[k] && s.ends[k] <= s'.ends[k])
    && (forall u :: 0 <= u < |s.markers| && u != t ==> s'.markers[u] == s.markers[u])
    && TakingOf(s') == TakingOf(s) && s'.again <= s.again
  }

  lemma RangeGrows(G: Graph, s: State, s': State, o: nat)
    requires |s.starts| == |s.ends| == |s'.starts| == |s'.ends| == |G.spaces| && ObjectOk(G, o) && InRange(G, s, o)
    requires forall k :: 0 <= k < |G.spaces| ==> s'.starts[k] <= s.starts[k] && s.ends[k] <= s'.ends[k]
    requires TakingOf(s') == TakingOf(s)
    ensures InRange(G, s', o)
  {
    hide Within, TakingOf, ObjectOk;
    var k :| 0 <= k < |G.spaces| && AreaHas(G, s, k, o);
    assert AreaHas(G, s', k, o);
  }

  lemma EntersStill(G: Graph, s: State, s': State, t: nat, o: nat)
    requires HalfIn(s, o) && t < |s.markers| == |s'.markers|
    requires |s.starts| == |s'.starts| == |G.spaces| && forall k :: 0 <= k < |G.spaces| ==> s'.starts[k] <= s.starts[k]
    requires forall u :: 0 <= u < |s.markers| && u != t ==> s'.markers[u] == s.markers[u]
    requires Enters(s, t, o) ==> Enters(s', t, o)
    ensures HalfIn(s', o)
  {
    var u :| 0 <= u < |s.markers| && Enters(s, u, o);
    assert Enters(s', u, o);
  }

  lemma HeldStill(s: State, s': State, t: nat, o: nat)
    requires HeldBy(s, o) && t < |s.markers| == |s'.markers|
    requires forall u :: 0 <= u < |s.markers| && u != t ==> s'.markers[u] == s.markers[u]
    requires o in Held(s.markers[t]) ==> o in Held(s'.markers[t])
    ensures HeldBy(s', o)
  {
    hide Held;
    var u :| 0 <= u < |s.markers| && o in Held(s.markers[u]);
    assert o in Held(s'.markers[u]);
  }

  /** An object stays covered unless marker t lets go of it or it is taken from those to be looked at again. */
  lemma CoveredStill(G: Graph, s: State, s': State, t: nat, o: nat)
    requires Grows(G, s, s', t) && ObjectOk(G, o) && Covered(G, s, o)
    requires o in Held(s.markers[t]) ==> o in Held(s'.markers[t]) || Covered(G, s', o)
    requires o in s.again ==> o in s'.again || Covered(G, s', o)
    requires Enters(s, t, o) ==> Enters(s', t, o) || Covered(G, s', o)
    ensures Covered(G, s', o)
  {
    hide Done, Held, InRange, HalfIn, TakingOf, Within;
    if Done(G, s.marked, o) {
      DoneGrows(G, s.marked, s'.marked, o);
    } else if HeldBy(s, o) {
      if o in Held(s.markers[t]) ==> o in Held(s'.markers[t]) {
        HeldStill(s, s', t, o);
      }
    } else if InRange(G, s, o) {
      RangeGrows(G, s, s', o);
    } else if HalfIn(s, o) {
      if Enters(s, t, o) ==> Enters(s', t, o) { EntersStill(G, s, s', t, o); }
    }
  }

  /** All that a step of marker t must see to itself. */
  ghost predicate Careful(G: Graph, z: Setup, reach: set<nat>, s: State, s': State, t: nat) {
    && Grows(G, s, s', t) && MarkerOk(G, z, reach, s', t) && Sound(G, reach, s') && s'.main == s.main && RangesIn(G, s')
    && (forall o :: o in s'.marked + s'.visited && o !in s.marked + s.visited ==>
          o in G.objs && ObjectOk(G, o) && Covered(G, s', o))
    && (forall o :: o in s.marked + s.visited && o in Held(s.markers[t]) + s.again && ObjectOk(G, o) ==>
          o in Held(s'.markers[t]) || o in s'.again || Covered(G, s', o))
    && (forall o :: o in s.marked + s.visited && ObjectOk(G, o) && Enters(s, t, o) ==> Enters(s', t, o) || Covered(G, s', o))
  }

  lemma MarkerHolds(s: State, t: nat, o: nat)
    requires t < |s.markers| && o in Held(s.markers[t])
    ensures HeldBy(s, o)
  {
  }

  lemma CarefulCovers(G: Graph, z: Setup, reach: set<nat>, s: State, s': State, t: nat)
    requires AllCovered(G, s) && Careful(G, z, reach, s, s', t)
    ensures AllCovered(G, s')
  {
    hide Held, HeldBy, MarkerOk, Sound, Done, InRange, HalfIn, Enters, TakingOf, Taken;
    forall o | o in s'.marked + s'.visited
      ensures o in G.objs && ObjectOk(G, o) && Covered(G, s', o)
    {
      if o in s.marked + s.visited {
        if o in Held(s'.markers[t]) { MarkerHolds(s', t, o); }
        CoveredStill(G, s, s', t, o);
      }
    }
  }

  lemma CarefulKeeps(G: Graph, z: Setup, reach: set<nat>, s: State, s': State, t: nat)
    requires Inv(G, z, reach, s) && Careful(G, z, reach, s, s', t)
    ensures Inv(G, z, reach, s')
  {
    hide AllCovered, Sound, Covered, MarkerOk, Held, TakingOf, Enters;
    CarefulCovers(G, z, reach, s, s', t);
    forall u | 0 <= u < |s'.markers|
      ensures MarkerOk(G, z, reach, s', u)
    {
      if u != t {
        OtherMarker(G, z, reach, s, s', u);
      }
    }
  }

  // ---------- Steps within a scan ----------

  /** A marker that is in use goes to another phase, its stack as it was. */
  lemma MarkerGoes(G: Graph, z: Setup, reach: set<nat>, s: State, s': State, t: nat, p: Phase)
    requires t < |s.markers| == |s'.markers| && MarkerOk(G, z, reach, s, t)
    requires s'.markers[t] == s.markers[t].(phase := p) && !s.markers[t].phase.Popped?
    requires s.markers[t].phase != Resting && p != Resting
    requires s.marked <= s'.marked && s.visited <= s'.visited
    requires PhaseOk(G, reach, s', p, s.markers[t].msp)
    requires (IsMain(p) ==> t == s'.main) && StageOk(G, p) && (p.Take? ==> s'.again == {})
    ensures MarkerOk(G, z, reach, s', t)
  {
    hide PhaseOk, Pushable, StageOk;
    forall j | 0 <= j < |s'.markers[t].slots|
      ensures SlotOk(G, s', s'.markers[t], j)
    {
      assert SlotOk(G, s, s.markers[t], j);
      SlotGoes(G, s, s', s.markers[t], p, j);
    }
  }

  lemma SlotGoes(G: Graph, s: State, s': State, m: Marker, p: Phase, j: nat)
    requires j < |m.slots| && SlotOk(G, s, m, j) && !m.phase.Popped? && s.marked <= s'.marked && s.visited <= s'.visited
    ensures SlotOk(G, s', m.(phase := p), j)
  {
  }

  /** Beginning to scan an object. */
  lemma BeginOk(G: Graph, reach: set<nat>, s: State, o: nat, msp: nat)
    requires Pushable(G, s, o, msp)
    ensures PhaseOk(G, reach, s, Begin(o), msp)
  {
  }

  /** What a field of a known object leads to is reachable. */
  lemma FieldReaches(G: Graph, reach: set<nat>, s: State, cur: nat, pos: nat)
    requires Sound(G, reach, s) && Known(G, s, cur) && cur <= pos < cur + Size(G, cur)
    ensures pos < |G.mem| && MarkGraph.FieldOk(G, G.mem[pos]) && FieldDone(G, reach, pos)
  {
    hide Tiled, Local;
    assert Done(G, reach, cur);
  }

  lemma SkippedWord(G: Graph, reach: set<nat>, s: State, s': State, cur: nat, pos: nat, first: nat, second: nat, msp: nat)
    requires GraphOk(G) && ScanOk(G, reach, s, cur, pos, first, second, msp) && pos < cur + Size(G, cur)
    requires !NeedsScan(G, s, G.mem[pos]) && MarkGraph.FieldOk(G, G.mem[pos])
    requires s'.marked == s.marked + BytesAt(G, G.mem[pos]) && s'.visited == s.visited
    ensures ScanOk(G, reach, s', cur, pos + 1, first, second, msp)
  {
    hide GraphOk, Local;
    DoneToGrows(G, s.marked + {first, second}, s'.marked + {first, second}, cur, pos);
    assert FieldDone(G, s'.marked + {first, second}, pos);
  }

  lemma BytesReached(G: Graph, reach: set<nat>, s: State, marked': set<nat>, pos: nat)
    requires pos < |G.mem| && FieldDone(G, reach, pos) && Sound(G, reach, s)
    ensures forall o :: o in BytesAt(G, G.mem[pos]) ==>
      o in reach && o in G.objs && ObjectOk(G, o) && Local(G, o) && Done(G, marked', o)
  {
    hide GraphOk, Local, Inside;
  }

  lemma SoundGrows(G: Graph, reach: set<nat>, s: State, s': State, added: set<nat>)
    requires Sound(G, reach, s) && s'.marked == s.marked + added && added <= reach && forall o :: o in added ==> Local(G, o)
    requires s'.perms == s.perms && s'.visited == s.visited && s'.roots == s.roots && s'.again == s.again
    ensures Sound(G, reach, s')
  {
    hide GraphOk, ObjectOk, Done, Local;
  }

  /** A phase in which nothing is done with the areas to be rescanned. */
  predicate Plain(p: Phase) {
    !p.Take? && !p.Widening?
  }

  lemma PlainTakes(s: State, s': State, t: nat)
    requires t < |s.markers| == |s'.markers| && s'.main == s.main && Plain(s.markers[t].phase) && Plain(s'.markers[t].phase)
    requires forall u :: 0 <= u < |s.markers| && u != t ==> s'.markers[u] == s.markers[u]
    ensures TakingOf(s') == TakingOf(s)
  {
  }

  /** A marker goes on, perhaps marking some objects, and drops only what is done. */
  ghost predicate Goes(G: Graph, reach: set<nat>, s: State, s': State, t: nat, p: Phase, added: set<nat>) {
    && t < |s.markers| && s' == s.(marked := s.marked + added, markers := Goto(s, t, p))
    && s.markers[t].phase != Resting && !s.markers[t].phase.Popped? && p != Resting && Plain(s.markers[t].phase) && Plain(p)
    && (IsMain(p) ==> t == s.main)
    && PhaseOk(G, reach, s', p, s.markers[t].msp)
    && added <= reach && (forall o :: o in added ==> o in G.objs && ObjectOk(G, o) && Local(G, o))
    && (forall o :: o in added + Currents(s.markers[t].phase) && o !in Currents(p) && ObjectOk(G, o) ==> Done(G, s'.marked, o))
  }

  lemma HeldGoes(G: Graph, reach: set<nat>, s: State, s': State, t: nat, p: Phase, added: set<nat>, o: nat)
    requires Goes(G, reach, s, s', t, p, added) && o in Held(s.markers[t]) + added && ObjectOk(G, o)
    ensures o in Held(s'.markers[t]) || Done(G, s'.marked, o)
  {
    hide PhaseOk, Done, Local, ObjectOk;
  }

  lemma GoesCarefully(G: Graph, z: Setup, reach: set<nat>, s: State, s': State, t: nat, p: Phase, added: set<nat>)
    requires Inv(G, z, reach, s) && Goes(G, reach, s, s', t, p, added)
    ensures Careful(G, z, reach, s, s', t)
  {
    hide Sound, PhaseOk, SlotOk, Held, Done, InRange, Currents, ObjectOk, Local, TakingOf, HalfIn, Within;
    assert MarkerOk(G, z, reach, s, t) && |s.starts| == |s.ends| == |G.spaces|;
    hide Inv, AllCovered, MarkerOk;
    PlainTakes(s, s', t);
    assert Sound(G, reach, s) by { PhaseOf(G, z, reach, s, t); }
    SoundGrows(G, reach, s, s', added);
    MarkerGoes(G, z, reach, s, s', t, p);
    forall o | o in s'.marked + s'.visited && o !in s.marked + s.visited
      ensures o in G.objs && ObjectOk(G, o) && Covered(G, s', o)
    {
      HeldGoes(G, reach, s, s', t, p, added, o);
      if o in Held(s'.markers[t]) { MarkerHolds(s', t, o); }
    }
    forall o | o in s.marked + s.visited && o in Held(s.markers[t]) + s.again && ObjectOk(G, o)
      ensures o in Held(s'.markers[t]) || o in s'.again || Covered(G, s', o)
    {
      if o in Held(s.markers[t]) { HeldGoes(G, reach, s, s', t, p, added, o); }
    }
  }

  lemma GoesKeeps(G: Graph, z: Setup, reach: set<nat>, s: State, s': State, t: nat, p: Phase, added: set<nat>)
    requires Inv(G, z, reach, s) && Goes(G, reach, s, s', t, p, added)
    ensures Inv(G, z, reach, s')
  {
    hide Inv, AllCovered, Sound, PhaseOk, Held, Done, InRange, Currents, SlotOk, Careful, Goes;
    GoesCarefully(G, z, reach, s, s', t, p, added);
    CarefulKeeps(G, z, reach, s, s', t);
  }

  /** What the invariant says of a marker's phase. */
  lemma PhaseOf(G: Graph, z: Setup, reach: set<nat>, s: State, t: nat)
    requires Inv(G, z, reach, s) && t < |s.markers|
    ensures PhaseOk(G, reach, s, s.markers[t].phase, s.markers[t].msp) && Sound(G, reach, s) && GraphOk(G)
    ensures RangesIn(G, s) && |s.markers[t].slots| == z.stackSize
  {
    assert MarkerOk(G, z, reach, s, t);
  }

  lemma SkipPhase(G: Graph, reach: set<nat>, s: State, s': State, p: Phase, msp: nat)
    requires Sound(G, reach, s) && p.Scan? && PhaseOk(G, reach, s, p, msp) && p.pos < p.cur + Size(G, p.cur)
    requires !NeedsScan(G, s, G.mem[p.pos])
    requires s'.marked == s.marked + BytesAt(G, G.mem[p.pos]) && s'.visited == s.visited
    ensures PhaseOk(G, reach, s', p.(pos := p.pos + 1), msp)
    ensures p.pos < |G.mem| && FieldDone(G, reach, p.pos)
  {
    hide GraphOk, Local, DoneTo, Done, NotedOk, FieldDone, NeedsScan, BytesAt, ObjectOk;
    assert GraphOk(G);
    hide Sound;
    FieldReaches(G, reach, s, p.cur, p.pos);
    SkippedWord(G, reach, s, s', p.cur, p.pos, p.first, p.second, msp);
  }

  /** The rest of Goes for a word passed over. */
  lemma SkipGoes(G: Graph, reach: set<nat>, s: State, s': State, t: nat, p: Phase, added: set<nat>)
    requires t < |s.markers| && p.Scan? && s.markers[t].phase == p
    requires s' == s.(marked := s.marked + added, markers := Goto(s, t, p.(pos := p.pos + 1)))
    requires PhaseOk(G, reach, s', p.(pos := p.pos + 1), s.markers[t].msp)
    requires forall o :: o in added ==> o in reach && o in G.objs && ObjectOk(G, o) && Local(G, o) && Done(G, s'.marked, o)
    ensures Goes(G, reach, s, s', t, p.(pos := p.pos + 1), added)
  {
    hide PhaseOk, Local, Done, ObjectOk;
  }

  lemma SkipWordGoes(G: Graph, reach: set<nat>, s: State, s': State, t: nat)
    requires Sound(G, reach, s) && SkipWord(G, s, s', t) && PhaseOk(G, reach, s, s.markers[t].phase, s.markers[t].msp)
    ensures Goes(G, reach, s, s', t, s'.markers[t].phase, BytesAt(G, G.mem[s.markers[t].phase.pos]))
  {
    hide Sound, PhaseOk, Goes, Local, Done, FieldDone, NeedsScan, BytesAt, ObjectOk;
    var p := s.markers[t].phase;
    SkipPhase(G, reach, s, s', p, s.markers[t].msp);
    BytesReached(G, reach, s, s'.marked, p.pos);
    SkipGoes(G, reach, s, s', t, p, BytesAt(G, G.mem[p.pos]));
  }

  lemma SkipWordKeeps(G: Graph, z: Setup, reach: set<nat>, s: State, s': State, t: nat)
    requires Inv(G, z, reach, s) && SkipWord(G, s, s', t)
    ensures Inv(G, z, reach, s')
  {
    hide Inv, Sound, PhaseOk, Goes, BytesAt;
    PhaseOf(G, z, reach, s, t);
    SkipWordGoes(G, reach, s, s', t);
    GoesKeeps(G, z, reach, s, s', t, s'.markers[t].phase, BytesAt(G, G.mem[s.markers[t].phase.pos]));
  }

  /** The object noted is reachable, and is not the one being scanned. */
  lemma NotedTarget(G: Graph, reach: set<nat>, s: State, cur: nat, pos: nat, msp: nat)
    requires Sound(G, reach, s) && Pushable(G, s, cur, msp) && cur <= pos < cur + Size(G, cur)
    requires pos < |G.mem| && NeedsScan(G, s, G.mem[pos])
    ensures NotedOk(G, reach, G.mem[pos].addr) && G.mem[pos].addr != 0 && G.mem[pos].addr != cur
  {
    FieldReaches(G, reach, s, cur, pos);
    hide GraphOk, Inside;
  }

  lemma ZeroNotLocal(G: Graph)
    requires GraphOk(G)
    ensures !Local(G, 0)
  {
  }

  /** Noting the object at pos completes the scan up to the word after it. */
  lemma NotedDone(G: Graph, m: set<nat>, f: nat, s: nat, f': nat, s': nat, cur: nat, pos: nat)
    requires ObjectOk(G, cur) && cur <= pos < cur + Size(G, cur) && DoneTo(G, m + {f, s}, cur, pos) && !Local(G, 0)
    requires (f == f' || f == 0) && (s == s' || s == 0)
    requires G.mem[pos].Pointer? && G.mem[pos].addr in {f', s'}
    ensures DoneTo(G, m + {f', s'}, cur, pos + 1)
  {
    hide Local;
    forall w | cur <= w < pos + 1 && w < cur + Size(G, cur)
      ensures FieldDone(G, m + {f', s'}, w)
    {
      assert w < pos ==> FieldDone(G, m + {f, s}, w);
    }
  }

  lemma SoundZero(G: Graph, reach: set<nat>, s: State)
    requires Sound(G, reach, s)
    ensures !Local(G, 0)
  {
    ZeroNotLocal(G);
  }

  lemma NotedPhase(G: Graph, reach: set<nat>, s: State, p: Phase, msp: nat)
    requires Sound(G, reach, s) && p.Scan? && ObjectOk(G, p.cur) && PhaseOk(G, reach, s, p, msp)
    requires p.pos < p.cur + Size(G, p.cur) && p.pos < |G.mem| && NeedsScan(G, s, G.mem[p.pos])
    ensures PhaseOk(G, reach, s, Noted(p, G.mem[p.pos].addr), msp)
  {
    hide Sound, Local, NotedOk, ObjectOk, DoneTo, IsByte;
    var o := G.mem[p.pos].addr;
    NotedTarget(G, reach, s, p.cur, p.pos, msp);
    SoundZero(G, reach, s);
    if p.first == 0 {
      NotedDone(G, s.marked, 0, p.second, o, p.second, p.cur, p.pos);
    } else if p.second == 0 {
      NotedDone(G, s.marked, p.first, 0, p.first, o, p.cur, p.pos);
    }
  }

  lemma NoteWordKeeps(G: Graph, z: Setup, reach: set<nat>, s: State, s': State, t: nat)
    requires Inv(G, z, reach, s) && NoteWord(G, s, s', t)
    ensures Inv(G, z, reach, s')
  {
    hide Inv, Sound, PhaseOk, ObjectOk, NeedsScan;
    PhaseOf(G, z, reach, s, t);
    var p := s.markers[t].phase;
    assert p.pos < |G.mem| by { ObjectEnds(G, p.cur); }
    NotedPhase(G, reach, s, p, s.markers[t].msp);
    SamePhase(G, reach, s, s', s'.markers[t].phase, s.markers[t].msp);
    GoesKeeps(G, z, reach, s, s', t, s'.markers[t].phase, {});
  }

  lemma ObjectEnds(G: Graph, o: nat)
    requires ObjectOk(G, o)
    ensures o + Size(G, o) <= |G.mem|
  {
  }

  lemma SamePhase(G: Graph, reach: set<nat>, s: State, s': State, p: Phase, msp: nat)
    requires PhaseOk(G, reach, s, p, msp) && s'.marked == s.marked && s'.visited == s.visited
    ensures PhaseOk(G, reach, s', p, msp)
  {
    PhaseGrows(G, reach, s, s', p, msp);
  }

  // ---------- The end of an object's words ----------

  lemma DoneWithoutZero(G: Graph, m: set<nat>, o: nat)
    requires ObjectOk(G, o) && !Local(G, 0) && Done(G, m + {0}, o)
    ensures Done(G, m, o)
  {
    hide Local;
    if !IsByte(G, o) {
      forall w | o <= w < o + Size(G, o)
        ensures FieldDone(G, m, w)
      {
        assert FieldDone(G, m + {0}, w);
      }
    }
  }

  lemma EndPhase(G: Graph, reach: set<nat>, s: State, s': State, p: Phase, msp: nat)
    requires GraphOk(G) && p.Scan? && PhaseOk(G, reach, s, p, msp) && p.pos == p.cur + Size(G, p.cur)
    requires s'.visited == s.visited && s'.marked == if p.second == 0 then s.marked else s.marked + {p.second}
    ensures PhaseOk(G, reach, s', if p.second == 0 then Next(p.cur, p.first) else Push(p.cur, p.second, p.first, Unsettled), msp)
  {
    ZeroNotLocal(G);
    hide GraphOk, Local, DoneTo, Inside;
    assert Done(G, s.marked + {p.first, p.second}, p.cur);
    if p.second == 0 {
      assert s.marked + {p.first, p.second} == s.marked + {p.first} + {0};
      DoneWithoutZero(G, s.marked + {p.first}, p.cur);
    } else {
      assert s.marked + {p.first, p.second} == s'.marked + {p.first};
    }
  }

  lemma EndWordsKeeps(G: Graph, z: Setup, reach: set<nat>, s: State, s': State, t: nat)
    requires Inv(G, z, reach, s) && EndWords(G, s, s', t)
    ensures Inv(G, z, reach, s')
  {
    hide Inv, Sound, PhaseOk, ObjectOk, GraphOk;
    PhaseOf(G, z, reach, s, t);
    var p := s.markers[t].phase;
    EndPhase(G, reach, s, s', p, s.markers[t].msp);
    assert NotedOk(G, reach, p.second) by { PhaseNoted(G, reach, s, p, s.markers[t].msp); }
    GoesKeeps(G, z, reach, s, s', t, s'.markers[t].phase, if p.second == 0 then {} else {p.second});
  }

  lemma PhaseNoted(G: Graph, reach: set<nat>, s: State, p: Phase, msp: nat)
    requires p.Scan? && PhaseOk(G, reach, s, p, msp)
    ensures NotedOk(G, reach, p.second)
  {
  }

  lemma MarkFirstKeeps(G: Graph, z: Setup, reach: set<nat>, s: State, s': State, t: nat, cur: nat, first: nat)
    requires Inv(G, z, reach, s) && MarkFirst(s, s', t, cur, first)
    ensures Inv(G, z, reach, s')
  {
    hide Inv, Sound, Local, Done, Inside, GraphOk;
    PhaseOf(G, z, reach, s, t);
    GoesKeeps(G, z, reach, s, s', t, Begin(first), {first});
  }

  lemma ReturnKeeps(G: Graph, z: Setup, reach: set<nat>, s: State, s': State, t: nat, cur: nat)
    requires Inv(G, z, reach, s) && Return(s, s', t, cur)
    ensures Inv(G, z, reach, s')
  {
    hide Inv, Sound, Local, Done, Inside;
    PhaseOf(G, z, reach, s, t);
    ZeroNotLocal(G);
    hide GraphOk;
    if cur != 0 { DoneWithoutZero(G, s.marked, cur); }
    assert s'.marked == s.marked + {};
    ZeroIsNoObject(G);
    GoesKeeps(G, z, reach, s, s', t, Home(s, t), {});
  }

  lemma ZeroIsNoObject(G: Graph)
    ensures !ObjectOk(G, 0)
  {
  }

  lemma BeginTaskKeeps(G: Graph, z: Setup, reach: set<nat>, s: State, s': State, t: nat, obj: nat)
    requires Inv(G, z, reach, s) && BeginTask(s, s', t, obj)
    ensures Inv(G, z, reach, s')
  {
    hide Inv, Sound, Local, Done, Inside, GraphOk;
    PhaseOf(G, z, reach, s, t);
    GoesKeeps(G, z, reach, s, s', t, Begin(obj), {});
  }

  /** Whatever a thief finds in a slot has been marked, or is a permanent object that has been visited. */
  lemma SlotKnown(G: Graph, z: Setup, reach: set<nat>, s: State, v: nat, j: nat)
    requires v < |s.markers| && MarkerOk(G, z, reach, s, v) && j < |s.markers[v].slots| && s.markers[v].slots[j] != 0
    ensures Known(G, s, s.markers[v].slots[j])
  {
    hide ObjectOk, Done;
    assert SlotOk(G, s, s.markers[v], j);
  }

  lemma StealKeeps(G: Graph, z: Setup, reach: set<nat>, s: State, s': State, t: nat, v: nat, j: nat)
    requires Inv(G, z, reach, s) && Steal(z, s, s', t, v, j)
    ensures Inv(G, z, reach, s')
  {
    assert MarkerOk(G, z, reach, s, v);
    hide Inv, Sound, Local, Done, Inside, GraphOk, SlotOk;
    PhaseOf(G, z, reach, s, t);
    SlotKnown(G, z, reach, s, v, j);
    hide MarkerOk;
    GoesKeeps(G, z, reach, s, s', t, s'.markers[t].phase, {});
  }

  // ---------- The stack ----------

  lemma AfterPushPhase(G: Graph, reach: set<nat>, s: State, p: Phase, msp: nat, msp': nat)
    requires (p.Push? || p.Widening?) && PhaseOk(G, reach, s, p, msp)
    ensures PhaseOk(G, reach, s, AfterPush(p), msp')
  {
  }

  /** Once what was to be pushed is recorded elsewhere the marker need not hold it. */
  lemma AfterPushKeeps(G: Graph, z: Setup, reach: set<nat>, s: State, s': State, t: nat)
    requires Inv(G, z, reach, s) && t < |s.markers| && (s.markers[t].phase.Push? || s.markers[t].phase.Widening?)
    requires s' == s.(nInUse := s'.nInUse, ends := s'.ends, forgotten := s'.forgotten, markers := Goto(s, t, AfterPush(s.markers[t].phase)))
    requires s.forgotten <= s'.forgotten
    requires RangesIn(G, s') && |s.starts| == |s.ends| == |G.spaces|
    requires forall k :: 0 <= k < |G.spaces| ==> s.ends[k] <= s'.ends[k]
    requires ObjectOk(G, s.markers[t].phase.obj)
    requires s.markers[t].phase.Push? || Enters(s, t, s.markers[t].phase.obj) ==> Covered(G, s', s.markers[t].phase.obj)
    ensures Inv(G, z, reach, s')
  {
    hide AllCovered, Covered, PhaseOk, SlotOk, ObjectOk, Sound, TakingOf, StageOk;
    var p := s.markers[t].phase;
    assert MarkerOk(G, z, reach, s, t);
    hide MarkerOk;
    PhaseOf(G, z, reach, s, t);
    AfterPushPhase(G, reach, s, p, s.markers[t].msp, s.markers[t].msp);
    SamePhase(G, reach, s, s', AfterPush(p), s.markers[t].msp);
    MarkerGoes(G, z, reach, s, s', t, AfterPush(p)) by { PlainStage(G, AfterPush(p)); }
    SoundSame(G, reach, s, s');
    NoLongerTakes(s, s', t);
    hide Inv;
    CarefulKeeps(G, z, reach, s, s', t);
  }

  lemma PlainStage(G: Graph, p: Phase)
    requires !p.Take?
    ensures StageOk(G, p)
  {
  }

  /** The area being taken is the same if the marker that changes is not taking one before or after. */
  lemma NoLongerTakes(s: State, s': State, t: nat)
    requires t < |s.markers| == |s'.markers| && s'.main == s.main && !s.markers[t].phase.Take? && !s'.markers[t].phase.Take?
    requires forall u :: 0 <= u < |s.markers| && u != t ==> s'.markers[u] == s.markers[u]
    ensures TakingOf(s') == TakingOf(s)
  {
  }

  lemma SoundSame(G: Graph, reach: set<nat>, s: State, s': State)
    requires Sound(G, reach, s) && s'.marked == s.marked
    requires s'.perms == s.perms && s'.visited == s.visited && s'.roots == s.roots && s'.again == s.again
    ensures Sound(G, reach, s')
  {
    hide GraphOk, ObjectOk, Local, Done;
  }

  /** The object is recorded once the start of the area is widened, as long as that limit is not reset. */
  lemma WidenStartKeeps(G: Graph, z: Setup, reach: set<nat>, s: State, s': State, t: nat, k: nat)
    requires Inv(G, z, reach, s) && WidenStart(G, z, s, s', t, k)
    ensures Inv(G, z, reach, s')
  {
    hide AllCovered, PhaseOk, SlotOk, ObjectOk, Sound, TakingOf, StageOk, Done, InRange, Taken, HeldBy;
    var p := s.markers[t].phase;
    assert MarkerOk(G, z, reach, s, t);
    hide MarkerOk;
    PhaseOf(G, z, reach, s, t);
    WideningPhase(G, reach, s, p, s.markers[t].msp, k);
    SamePhase(G, reach, s, s', s'.markers[t].phase, s.markers[t].msp);
    MarkerGoes(G, z, reach, s, s', t, s'.markers[t].phase) by { PlainStage(G, s'.markers[t].phase); }
    SoundSame(G, reach, s, s');
    NoLongerTakes(s, s', t);
    assert Enters(s', t, p.obj) && HalfIn(s', p.obj);
    hide Inv, HalfIn;
    CarefulKeeps(G, z, reach, s, s', t);
  }

  lemma WideningPhase(G: Graph, reach: set<nat>, s: State, p: Phase, msp: nat, k: nat)
    requires p.Push? && PhaseOk(G, reach, s, p, msp) && k < |G.spaces| && G.spaces[k].bottom <= p.obj < G.spaces[k].top
    ensures PhaseOk(G, reach, s, Widening(p.cur, p.obj, p.first, k), msp)
  {
  }

  /** What has been entered is in the area, or has been taken from it already, or this is a step that loses it. */
  lemma WidenEndKeeps(G: Graph, z: Setup, reach: set<nat>, s: State, s': State, t: nat)
    requires Inv(G, z, reach, s) && WidenEnd(G, s, s', t)
    ensures Inv(G, z, reach, s')
  {
    hide Sound, AllCovered, PhaseOk, SlotOk, StageOk;
    var p := s.markers[t].phase;
    PhaseOf(G, z, reach, s, t);
    WideningFits(G, reach, s, p, s.markers[t].msp);
    assert RangesIn(G, s');
    NoLongerTakes(s, s', t);
    if Enters(s, t, p.obj) {
      WidenedCovers(G, s, s', t);
    }
    assert |s.starts| == |s.ends| == |G.spaces|;
    hide Inv, InRange, Covered, Slips;
    AfterPushKeeps(G, z, reach, s, s', t);
  }

  lemma WideningFits(G: Graph, reach: set<nat>, s: State, p: Phase, msp: nat)
    requires GraphOk(G) && p.Widening? && PhaseOk(G, reach, s, p, msp)
    ensures ObjectOk(G, p.obj) && p.k < |G.spaces| && Boundary(G, p.k, p.obj + Size(G, p.obj))
  {
    hide Done, NotedOk;
    assert Inside(G.spaces[p.k], p.obj, Size(G, p.obj)) && EndsWell(G, p.k, p.obj);
  }

  lemma WidenedCovers(G: Graph, s: State, s': State, t: nat)
    requires WidenEnd(G, s, s', t) && |s.starts| == |s.ends| == |G.spaces|
    requires Enters(s, t, s.markers[t].phase.obj) && TakingOf(s') == TakingOf(s)
    ensures Covered(G, s', s.markers[t].phase.obj)
  {
    hide Done, HeldBy, HalfIn, ObjectOk;
    var p := s.markers[t].phase;
    if Slips(G, s, t) {
    } else if TakingOf(s).Taking? && TakingOf(s).m == p.k && TakingOf(s).stage.HalfReset? {
      assert Taken(G, s', p.obj);
    } else {
      assert AreaHas(G, s', p.k, p.obj);
    }
  }

  lemma DecideKeeps(G: Graph, z: Setup, reach: set<nat>, s: State, s': State, t: nat, how: How)
    requires Inv(G, z, reach, s) && t < |s.markers| && s.markers[t].phase.Push?
    requires s' == s.(markers := Goto(s, t, s.markers[t].phase.(how := how)))
    ensures Inv(G, z, reach, s')
  {
    hide Inv, Sound, PhaseOk, ObjectOk, GraphOk;
    PhaseOf(G, z, reach, s, t);
    var p := s.markers[t].phase;
    PushSame(G, reach, s, p, s.markers[t].msp, how);
    SamePhase(G, reach, s, s', p.(how := how), s.markers[t].msp);
    assert s'.marked == s.marked + {};
    GoesKeeps(G, z, reach, s, s', t, p.(how := how), {});
  }

  lemma PushSame(G: Graph, reach: set<nat>, s: State, p: Phase, msp: nat, how: How)
    requires p.Push? && PhaseOk(G, reach, s, p, msp)
    ensures PhaseOk(G, reach, s, p.(how := how), msp)
  {
  }

  /** Only local objects are ever pushed on a full stack, so the space they are in is found. */
  lemma OverflowIsLocal(G: Graph, z: Setup, reach: set<nat>, s: State, t: nat)
    requires Inv(G, z, reach, s) && z.stackSize > 0 && t < |s.markers|
    requires s.markers[t].phase.Push? && s.markers[t].msp == z.stackSize
    ensures Local(G, s.markers[t].phase.obj) && s.markers[t].phase.obj in s.marked
  {
    hide Local, GraphOk, ObjectOk;
    PhaseOf(G, z, reach, s, t);
  }

  lemma HeldPushed(m: Marker, m': Marker, o: nat)
    requires m.phase.Push? && m.msp < |m.slots| && o in Held(m)
    requires m' == m.(slots := m.slots[m.msp := m.phase.obj], msp := m.msp + 1, phase := AfterPush(m.phase))
    ensures o in Held(m')
  {
    var msp := m.msp;
    assert m'.slots[..msp + 1] == m.slots[..msp] + [m.phase.obj];
    assert m'.slots[..msp + 1][msp] == m.phase.obj;
    if o in m.slots[..msp] {
      assert o in m'.slots[..msp + 1];
    }
  }

  lemma PushedMarker(G: Graph, z: Setup, reach: set<nat>, s: State, s': State, t: nat)
    requires t < |s.markers| == |s'.markers| && MarkerOk(G, z, reach, s, t) && ToStack(z, s, s', t)
    ensures MarkerOk(G, z, reach, s', t)
  {
    hide ObjectOk, Done, NotedOk, Known, IsByte;
    var m, m' := s.markers[t], s'.markers[t];
    forall j | 0 <= j < |m'.slots|
      ensures SlotOk(G, s', m', j)
    {
      assert SlotOk(G, s, m, j);
      KnownSame(G, s, s', m'.slots[j]);
    }
    AfterPushPhase(G, reach, s, m.phase, m.msp, m'.msp);
    SamePhase(G, reach, s, s', m'.phase, m'.msp);
  }

  lemma KnownSame(G: Graph, s: State, s': State, o: nat)
    requires s'.marked == s.marked && s'.visited == s.visited
    ensures Known(G, s, o) == Known(G, s', o)
  {
  }

  lemma ToStackKeeps(G: Graph, z: Setup, reach: set<nat>, s: State, s': State, t: nat)
    requires Inv(G, z, reach, s) && ToStack(z, s, s', t)
    ensures Inv(G, z, reach, s')
  {
    hide AllCovered, Covered, PhaseOk, SlotOk, ObjectOk, Sound, Held;
    NoLongerTakes(s, s', t);
    assert MarkerOk(G, z, reach, s, t);
    hide MarkerOk;
    PhaseOf(G, z, reach, s, t);
    PushedMarker(G, z, reach, s, s', t);
    SoundSame(G, reach, s, s');
    forall o | o in Held(s.markers[t])
      ensures o in Held(s'.markers[t])
    {
      HeldPushed(s.markers[t], s'.markers[t], o);
    }
    hide Inv;
    CarefulKeeps(G, z, reach, s, s', t);
  }

  lemma ForkKeeps(G: Graph, z: Setup, reach: set<nat>, s: State, s': State, t: nat, i: nat)
    requires Inv(G, z, reach, s) && Fork(z, s, s', t, i)
    ensures Inv(G, z, reach, s')
  {
    hide AllCovered, Covered, PhaseOk, SlotOk, ObjectOk, Sound, Held;
    var obj := s.markers[t].phase.obj;
    var s1 := s.(markers := s.markers[i := s.markers[i].(active := true, phase := Waiting(obj))]);
    ForkedMarker(G, z, reach, s, s1, t, i);
    PhaseOf(G, z, reach, s, t);
    SoundSame(G, reach, s, s1);
    RestingHolds(s, s1, i, obj);
    NoLongerTakes(s, s1, i);
    assert ObjectOk(G, obj) by { PushObject(G, reach, s, s.markers[t].phase, s.markers[t].msp); }
    assert Inv(G, z, reach, s1) by {
      hide Inv, MarkerOk;
      CarefulKeeps(G, z, reach, s, s1, i);
    }
    hide Inv, MarkerOk;
    MarkerHolds(s', i, obj) by { WaitingHolds(s'.markers[i]); }
    CoveredHeld(G, s', obj);
    AfterPushKeeps(G, z, reach, s1, s', t);
  }

  lemma WaitingHolds(m: Marker)
    requires m.phase.Waiting?
    ensures m.phase.obj in Held(m)
  {
  }

  lemma CoveredHeld(G: Graph, s: State, o: nat)
    requires ObjectOk(G, o) && |s.starts| == |s.ends| == |G.spaces| && HeldBy(s, o)
    ensures Covered(G, s, o)
  {
  }

  lemma PushObject(G: Graph, reach: set<nat>, s: State, p: Phase, msp: nat)
    requires p.Push? && PhaseOk(G, reach, s, p, msp)
    ensures ObjectOk(G, p.obj) && Known(G, s, p.obj)
  {
  }

  lemma RestingHolds(s: State, s': State, i: nat, obj: nat)
    requires i < |s.markers| == |s'.markers| && s.markers[i].phase == Resting && s.markers[i].msp == 0
    ensures Held(s.markers[i]) == {}
  {
  }

  lemma ForkedMarker(G: Graph, z: Setup, reach: set<nat>, s: State, s1: State, t: nat, i: nat)
    requires Inv(G, z, reach, s) && t < |s.markers| && s.markers[t].phase.Push? && i < z.threads && i < |s.markers|
    requires i != t && !s.markers[i].active
    requires s1 == s.(markers := s.markers[i := s.markers[i].(active := true, phase := Waiting(s.markers[t].phase.obj))])
    ensures MarkerOk(G, z, reach, s1, i) && s.markers[i].phase == Resting && s.markers[i].msp == 0
  {
    hide ObjectOk, Done, NotedOk, IsByte, Sound, AllCovered;
    assert MarkerOk(G, z, reach, s, i);
    assert PhaseOk(G, reach, s, s.markers[t].phase, s.markers[t].msp) by { assert MarkerOk(G, z, reach, s, t); }
    forall j | 0 <= j < |s1.markers[i].slots|
      ensures SlotOk(G, s1, s1.markers[i], j)
    {
      assert SlotOk(G, s, s.markers[i], j);
    }
  }

  lemma PoppedMarker(G: Graph, z: Setup, reach: set<nat>, s: State, s': State, t: nat, cur: nat)
    requires t < |s.markers| == |s'.markers| && MarkerOk(G, z, reach, s, t) && Pop(s, s', t, cur)
    ensures MarkerOk(G, z, reach, s', t)
    ensures forall o :: o in Held(s.markers[t]) ==> o in Held(s'.markers[t]) || o == cur
  {
    hide ObjectOk, Done, NotedOk, Known, IsByte;
    var m, m' := s.markers[t], s'.markers[t];
    assert m.slots[..m.msp] == m'.slots[..m'.msp] + [m.slots[m.msp - 1]];
    forall j | 0 <= j < |m'.slots|
      ensures SlotOk(G, s', m', j)
    {
      assert SlotOk(G, s, m, j);
      KnownSame(G, s, s', m'.slots[j]);
    }
    assert SlotOk(G, s, m, m.msp - 1);
    KnownSame(G, s, s', m.slots[m.msp - 1]);
  }

  lemma PopKeeps(G: Graph, z: Setup, reach: set<nat>, s: State, s': State, t: nat, cur: nat)
    requires Inv(G, z, reach, s) && Pop(s, s', t, cur)
    ensures Inv(G, z, reach, s')
  {
    hide AllCovered, PhaseOk, SlotOk, Sound, Held, Local, Done, Inside, GraphOk, InRange;
    NoLongerTakes(s, s', t);
    assert MarkerOk(G, z, reach, s, t);
    hide MarkerOk;
    PhaseOf(G, z, reach, s, t);
    PoppedMarker(G, z, reach, s, s', t, cur);
    SoundSame(G, reach, s, s');
    NextDone(G, reach, s, s.markers[t].phase, s.markers[t].msp);
    hide Inv;
    CarefulKeeps(G, z, reach, s, s', t);
  }

  /** An object whose scan ended with nothing noted has all its fields done. */
  lemma NextDone(G: Graph, reach: set<nat>, s: State, p: Phase, msp: nat)
    requires Sound(G, reach, s) && PhaseOk(G, reach, s, p, msp) && p.Next? && p.first == 0
    ensures ObjectOk(G, p.cur) ==> Done(G, s.marked, p.cur)
  {
    hide Sound, Local, Done, Inside;
    SoundZero(G, reach, s);
    ZeroIsNoObject(G);
    if p.cur != 0 { DoneWithoutZero(G, s.marked, p.cur); }
  }

  lemma ClearedMarker(G: Graph, z: Setup, reach: set<nat>, s: State, s': State, t: nat, obj: nat)
    requires t < |s.markers| == |s'.markers| && MarkerOk(G, z, reach, s, t) && Clear(s, s', t, obj)
    ensures MarkerOk(G, z, reach, s', t)
    ensures Held(s'.markers[t]) == Held(s.markers[t])
  {
    hide ObjectOk, Done, NotedOk, Known, IsByte;
    var m, m' := s.markers[t], s'.markers[t];
    assert m.slots[..m.msp] == m'.slots[..m'.msp];
    forall j | 0 <= j < |m'.slots|
      ensures SlotOk(G, s', m', j)
    {
      assert SlotOk(G, s, m, j);
      KnownSame(G, s, s', m'.slots[j]);
    }
    KnownSame(G, s, s', obj);
    BeginOk(G, reach, s', obj, m.msp);
  }

  lemma ClearKeeps(G: Graph, z: Setup, reach: set<nat>, s: State, s': State, t: nat, obj: nat)
    requires Inv(G, z, reach, s) && Clear(s, s', t, obj)
    ensures Inv(G, z, reach, s')
  {
    hide AllCovered, PhaseOk, SlotOk, Sound, Held, ObjectOk, Covered;
    NoLongerTakes(s, s', t);
    assert MarkerOk(G, z, reach, s, t);
    hide MarkerOk;
    PhaseOf(G, z, reach, s, t);
    ClearedMarker(G, z, reach, s, s', t, obj);
    SoundSame(G, reach, s, s');
    hide Inv;
    CarefulKeeps(G, z, reach, s, s', t);
  }

  /** A marker out of use. */
  lemma RestedMarker(G: Graph, z: Setup, reach: set<nat>, s: State, s': State, t: nat)
    requires t < |s.markers| == |s'.markers| && MarkerOk(G, z, reach, s, t) && s.markers[t].msp == 0
    requires !s.markers[t].phase.Popped? && Currents(s.markers[t].phase) == {}
    requires s'.marked == s.marked && s'.visited == s.visited
    requires s'.markers[t] == s.markers[t].(active := false, phase := Resting)
    ensures MarkerOk(G, z, reach, s', t) && Held(s.markers[t]) == {}
  {
    hide ObjectOk, Done, NotedOk, Known, IsByte;
    forall j | 0 <= j < |s'.markers[t].slots|
      ensures SlotOk(G, s', s'.markers[t], j)
    {
      assert SlotOk(G, s, s.markers[t], j);
    }
  }

  lemma FinishKeeps(G: Graph, z: Setup, reach: set<nat>, s: State, s': State, t: nat)
    requires Inv(G, z, reach, s) && Finish(s, s', t)
    ensures Inv(G, z, reach, s')
  {
    hide AllCovered, SlotOk, Sound, Held, ObjectOk, Covered;
    NoLongerTakes(s, s', t);
    assert MarkerOk(G, z, reach, s, t);
    hide MarkerOk;
    PhaseOf(G, z, reach, s, t);
    RestedMarker(G, z, reach, s, s', t);
    SoundSame(G, reach, s, s');
    hide Inv;
    CarefulKeeps(G, z, reach, s, s', t);
  }

  // ---------- The main thread ----------

  /** The main thread leaves its marker. */
  lemma LeaveKeeps(G: Graph, z: Setup, reach: set<nat>, s: State, s': State)
    requires Inv(G, z, reach, s) && (EndRoots(z, s, s') || exists count, overwritten :: WriteCount(s, s', count, overwritten))
    ensures Inv(G, z, reach, s')
  {
    hide AllCovered, SlotOk, Sound, Held, ObjectOk, Covered, PhaseOk;
    var t := s.main;
    assert MarkerOk(G, z, reach, s, t);
    assert s.markers[t].msp == 0 by { PhaseOf(G, z, reach, s, t); FeedingEmpty(G, reach, s, s.markers[t].phase, s.markers[t].msp); }
    RestedMarker(G, z, reach, s, s', t);
    SoundSame(G, reach, s, s');
    assert AllCovered(G, s') by {
      assert MarkerOk(G, z, reach, s, z.threads);
      RestedTakes(s, s', t);
      RestedCovers(G, s, s', t);
    }
    forall u | 0 <= u < |s'.markers|
      ensures MarkerOk(G, z, reach, s', u)
    {
      assert MarkerOk(G, z, reach, s, u);
      if u != t { OtherMarker(G, z, reach, s, s', u); }
    }
  }

  lemma RestedTakes(s: State, s': State, t: nat)
    requires t == s.main < |s.markers| == |s'.markers| && !s.markers[t].phase.Take? && s'.markers[t].phase == Resting
    requires s'.main == t || (s'.main < |s.markers| ==> !s'.markers[s'.main].phase.Take?)
    ensures TakingOf(s') == TakingOf(s)
  {
  }

  lemma FeedingEmpty(G: Graph, reach: set<nat>, s: State, p: Phase, msp: nat)
    requires PhaseOk(G, reach, s, p, msp) && IsMain(p)
    ensures msp == 0
  {
  }

  lemma RestedCovers(G: Graph, s: State, s': State, t: nat)
    requires AllCovered(G, s) && t < |s.markers| == |s'.markers| && Held(s.markers[t]) == {}
    requires s'.marked == s.marked && s'.visited == s.visited && s'.again == s.again
    requires s'.starts == s.starts && s'.ends == s.ends && TakingOf(s') == TakingOf(s) && !s.markers[t].phase.Widening?
    requires s'.forgotten == s.forgotten
    requires forall u :: 0 <= u < |s.markers| && u != t ==> s'.markers[u] == s.markers[u]
    ensures AllCovered(G, s')
  {
    hide Done, Held, InRange, TakingOf, HalfIn, Within;
    forall o | o in s'.marked + s'.visited
      ensures o in G.objs && ObjectOk(G, o) && Covered(G, s', o)
    {
      CoveredStill(G, s, s', t, o);
    }
  }

  lemma BeginRescanKeeps(G: Graph, z: Setup, reach: set<nat>, s: State, s': State)
    requires Inv(G, z, reach, s) && BeginRescan(z, s, s')
    ensures Inv(G, z, reach, s')
  {
    hide AllCovered, SlotOk, Sound, Held, ObjectOk, Covered;
    var t := s.main;
    NoLongerTakes(s, s', t);
    assert MarkerOk(G, z, reach, s, t);
    RestedFeeds(G, z, reach, s, s', t);
    PhaseOf(G, z, reach, s, t);
    hide MarkerOk;
    SoundSame(G, reach, s, s');
    hide Inv;
    CarefulKeeps(G, z, reach, s, s', t);
  }

  lemma RestedFeeds(G: Graph, z: Setup, reach: set<nat>, s: State, s': State, t: nat)
    requires t < |s.markers| == |s'.markers| && MarkerOk(G, z, reach, s, t) && s.markers[t].phase == Resting
    requires t == z.threads == s'.main && s'.marked == s.marked && s'.visited == s.visited
    requires s'.markers[t] == s.markers[t].(phase := Feeding)
    ensures MarkerOk(G, z, reach, s', t) && Held(s.markers[t]) == {}
  {
    hide ObjectOk, Done, NotedOk, Known, IsByte;
    forall j | 0 <= j < |s'.markers[t].slots|
      ensures SlotOk(G, s', s'.markers[t], j)
    {
      assert SlotOk(G, s, s.markers[t], j);
    }
  }

  /** The main thread goes from one of its own phases to another, and whatever is covered stays so. */
  lemma MainKeeps(G: Graph, z: Setup, reach: set<nat>, s: State, s': State, p: Phase)
    requires Inv(G, z, reach, s) && IsMain(s.markers[s.main].phase) && IsMain(p) && StageOk(G, p)
    requires s'.markers == Goto(s, s.main, p) && s'.main == s.main && s'.marked == s.marked && s'.visited == s.visited
    requires Sound(G, reach, s') && RangesIn(G, s') && (p.Take? ==> s'.again == {})
    requires forall o :: o in s.marked + s.visited && o in G.objs && ObjectOk(G, o) && Covered(G, s, o) ==> Covered(G, s', o)
    ensures Inv(G, z, reach, s')
  {
    hide SlotOk, ObjectOk, Sound, Covered, StageOk, PhaseOk;
    var t := s.main;
    PhaseOf(G, z, reach, s, t);
    assert MarkerOk(G, z, reach, s, t);
    assert PhaseOk(G, reach, s', p, s.markers[t].msp) by {
      FeedingEmpty(G, reach, s, s.markers[t].phase, s.markers[t].msp);
      MainPhase(G, reach, s', p);
    }
    MarkerGoes(G, z, reach, s, s', t, p);
    forall u | 0 <= u < |s'.markers|
      ensures MarkerOk(G, z, reach, s', u)
    {
      assert MarkerOk(G, z, reach, s, u);
      if u != t { OtherMarker(G, z, reach, s, s', u); }
    }
  }

  lemma MainPhase(G: Graph, reach: set<nat>, s: State, p: Phase)
    requires IsMain(p)
    ensures PhaseOk(G, reach, s, p, 0)
  {
  }

  /** A marker in a phase of the main thread's own holds nothing. */
  lemma MainHolds(G: Graph, z: Setup, reach: set<nat>, s: State)
    requires Inv(G, z, reach, s) && IsMain(s.markers[s.main].phase)
    ensures Held(s.markers[s.main]) == {}
  {
    hide SlotOk, ObjectOk, Sound, AllCovered;
    assert MarkerOk(G, z, reach, s, s.main);
  }

  /** What is held or half entered when only the main thread's phase changes. */
  lemma SameHolders(s: State, s': State, p: Phase, o: nat)
    requires s.main < |s.markers| && IsMain(s.markers[s.main].phase) && IsMain(p) && s'.markers == Goto(s, s.main, p)
    requires Held(s.markers[s.main]) == {}
    ensures HeldBy(s, o) ==> HeldBy(s', o)
    ensures HalfIn(s, o) && (forall t :: 0 <= t < |s.markers| && Enters(s, t, o) ==> Enters(s', t, o)) ==> HalfIn(s', o)
  {
    if HeldBy(s, o) { HeldStill(s, s', s.main, o); }
  }

  /** What the main thread may come to by reading limits: those it has are those of the area. */
  predicate Reads(s: State, p: Phase)
    requires s.main < |s.markers|
  {
    p.Take? ==>
      p.m < |s.starts| == |s.ends|
      && (match p.stage
          case HasStart(start) => start == s.starts[p.m]
          case HasBoth(start, end) => end == s.ends[p.m] && s.markers[s.main].phase == Take(p.m, HasStart(start))
          case HalfReset(start, end) => false
          case _ => true)
  }

  lemma ReadCovers(G: Graph, s: State, s': State, p: Phase, o: nat)
    requires s.main < |s.markers| && IsMain(s.markers[s.main].phase) && IsMain(p) && Reads(s, p)
    requires s.markers[s.main].phase.Take? ==> !s.markers[s.main].phase.stage.HalfReset?
    requires s' == s.(next := s'.next, markers := Goto(s, s.main, p)) && Held(s.markers[s.main]) == {}
    requires ObjectOk(G, o) && |s.starts| == |s.ends| == |G.spaces| && Covered(G, s, o)
    ensures Covered(G, s', o)
  {
    hide Done, HeldBy, ObjectOk;
    SameHolders(s, s', p, o);
    hide HalfIn;
    if InRange(G, s, o) {
      var k :| 0 <= k < |G.spaces| && AreaHas(G, s, k, o);
      assert AreaHas(G, s', k, o);
    }
  }

  lemma ReadKeeps(G: Graph, z: Setup, reach: set<nat>, s: State, s': State, p: Phase)
    requires Inv(G, z, reach, s) && IsMain(s.markers[s.main].phase) && IsMain(p) && Reads(s, p) && StageOk(G, p)
    requires s.markers[s.main].phase.Take? ==> !s.markers[s.main].phase.stage.HalfReset?
    requires s' == s.(next := s'.next, markers := Goto(s, s.main, p)) && (p.Take? ==> s.again == {})
    ensures Inv(G, z, reach, s')
  {
    hide ObjectOk, Covered, StageOk, MarkerOk, Reads, RangesIn;
    MainHolds(G, z, reach, s);
    PhaseOf(G, z, reach, s, s.main);
    SoundSame(G, reach, s, s');
    hide Sound, Held;
    assert RangesIn(G, s') by { SameRanges(G, s, s'); }
    forall o | o in s.marked + s.visited && o in G.objs && ObjectOk(G, o) && Covered(G, s, o)
      ensures Covered(G, s', o)
    {
      ReadCovers(G, s, s', p, o);
    }
    hide Inv;
    MainKeeps(G, z, reach, s, s', p);
  }

  lemma SameRanges(G: Graph, s: State, s': State)
    requires RangesIn(G, s) && s'.starts == s.starts && s'.ends == s.ends
    ensures RangesIn(G, s')
  {
  }

  /** All the steps in which the main thread only reads. */
  lemma ReadingKeeps(G: Graph, z: Setup, reach: set<nat>, s: State, s': State, step: Step)
    requires Inv(G, z, reach, s) && IsStep(G, z, s, s', step)
    requires step.STestStart? || step.STestEnd? || step.SReadStart? || step.SReadEnd? || step.SReadCount?
    ensures Inv(G, z, reach, s')
  {
    hide ObjectOk, AllCovered, Sound;
    PhaseOf(G, z, reach, s, s.main);
    assert StageOk(G, s.markers[s.main].phase) && (s.markers[s.main].phase.Take? ==> s.again == {}) by {
      assert MarkerOk(G, z, reach, s, s.main);
    }
    hide Inv;
    ReadKeeps(G, z, reach, s, s', s'.markers[s.main].phase);
  }

  /** When the start limit is reset, what the area records lies between the limits read, or is lost. */
  lemma StartCovers(G: Graph, s: State, s': State, m: nat, start: nat, end: nat, o: nat)
    requires ResetStart(G, s, s', m, start, end) && Held(s.markers[s.main]) == {}
    requires ObjectOk(G, o) && |s.starts| == |s.ends| == |G.spaces| && Covered(G, s, o)
    ensures Covered(G, s', o)
  {
    hide Done, HeldBy, ObjectOk;
    SameHolders(s, s', Take(m, HalfReset(start, end)), o);
    if InRange(G, s, o) {
      var k :| 0 <= k < |G.spaces| && AreaHas(G, s, k, o);
      if k != m { assert AreaHas(G, s', k, o); }
    } else if HalfIn(s, o) {
      var t :| 0 <= t < |s.markers| && Enters(s, t, o);
      if s.markers[t].phase.k == m {
        if WidensBeyond(G, s, t, m, HasBoth(start, end)) {
          assert o in Beyond(G, s, m, start, end);
        } else {
          assert Taken(G, s', o);
        }
      } else {
        assert Enters(s', t, o);
      }
    }
  }

  lemma ResetStartKeeps(G: Graph, z: Setup, reach: set<nat>, s: State, s': State, m: nat, start: nat, end: nat)
    requires Inv(G, z, reach, s) && ResetStart(G, s, s', m, start, end)
    ensures Inv(G, z, reach, s')
  {
    hide ObjectOk, Covered, Beyond;
    MainHolds(G, z, reach, s);
    PhaseOf(G, z, reach, s, s.main);
    assert StageOk(G, s.markers[s.main].phase) && s.again == {} by { assert MarkerOk(G, z, reach, s, s.main); }
    SoundSame(G, reach, s, s');
    assert RangesIn(G, s') by { StartRanges(G, reach, s, s', m); }
    hide Sound, Held, MarkerOk;
    forall o | o in s.marked + s.visited && o in G.objs && ObjectOk(G, o) && Covered(G, s, o)
      ensures Covered(G, s', o)
    {
      StartCovers(G, s, s', m, start, end, o);
    }
    hide Inv;
    MainKeeps(G, z, reach, s, s', Take(m, HalfReset(start, end)));
  }

  lemma StartRanges(G: Graph, reach: set<nat>, s: State, s': State, m: nat)
    requires RangesIn(G, s) && Sound(G, reach, s) && m < |G.spaces|
    requires s'.starts == s.starts[m := G.spaces[m].top] && s'.ends == s.ends
    ensures RangesIn(G, s')
  {
    hide Tiled, ObjectOk, Local, Done;
  }

  /** When the end limit is reset, what lay between the limits read is still to be gone through. */
  lemma EndCovers(G: Graph, s: State, s': State, m: nat, start: nat, end: nat, o: nat)
    requires ResetEnd(G, s, s', m, start, end) && StageOk(G, s.markers[s.main].phase) && Held(s.markers[s.main]) == {}
    requires s.again == {} && o in G.objs && ObjectOk(G, o) && |s.starts| == |s.ends| == |G.spaces| && Covered(G, s, o)
    ensures Covered(G, s', o)
  {
    hide HeldBy;
    SameHolders(s, s', Feeding, o);
    hide HalfIn, Local, Inside;
    if Taken(G, s, o) {
      TakenArea(G, s.marked, m, start, end, o);
    } else if InRange(G, s, o) {
      var k :| 0 <= k < |G.spaces| && AreaHas(G, s, k, o);
      assert AreaHas(G, s', k, o);
    }
  }

  /** An object between the limits read is to be gone through, or has no words. */
  lemma TakenArea(G: Graph, marked: set<nat>, m: nat, start: nat, end: nat, o: nat)
    requires m < |G.spaces| && G.spaces[m].bottom <= start + 1 && end <= G.spaces[m].top && o in G.objs && ObjectOk(G, o)
    requires start < o && o + Size(G, o) <= end
    ensures o in Region(G, start, end) || Done(G, marked, o)
  {
    if Size(G, o) > 0 {
      assert G.spaces[m].bottom <= o < G.spaces[m].top;
    }
  }

  lemma ResetEndKeeps(G: Graph, z: Setup, reach: set<nat>, s: State, s': State, m: nat, start: nat, end: nat)
    requires Inv(G, z, reach, s) && ResetEnd(G, s, s', m, start, end)
    ensures Inv(G, z, reach, s')
  {
    hide ObjectOk, Covered;
    MainHolds(G, z, reach, s);
    PhaseOf(G, z, reach, s, s.main);
    assert StageOk(G, s.markers[s.main].phase) && s.again == {} by { assert MarkerOk(G, z, reach, s, s.main); }
    assert Sound(G, reach, s') by { RegionSound(G, reach, s, s', start, end); }
    assert RangesIn(G, s') by { EndRanges(G, reach, s, s', m); }
    hide Sound, Held, MarkerOk, Region;
    forall o | o in s.marked + s.visited && o in G.objs && ObjectOk(G, o) && Covered(G, s, o)
      ensures Covered(G, s', o)
    {
      EndCovers(G, s, s', m, start, end, o);
    }
    hide Inv;
    MainKeeps(G, z, reach, s, s', Feeding);
  }

  lemma RegionSound(G: Graph, reach: set<nat>, s: State, s': State, start: nat, end: nat)
    requires Sound(G, reach, s) && s'.again == Region(G, start, end)
    requires s'.marked == s.marked && s'.perms == s.perms && s'.visited == s.visited && s'.roots == s.roots
    ensures Sound(G, reach, s')
  {
    hide GraphOk, ObjectOk, Local, Done;
  }

  lemma EndRanges(G: Graph, reach: set<nat>, s: State, s': State, m: nat)
    requires RangesIn(G, s) && Sound(G, reach, s) && m < |G.spaces|
    requires s'.starts == s.starts && s'.ends == s.ends[m := G.spaces[m].bottom]
    ensures RangesIn(G, s')
  {
    hide ObjectOk, Local, Done, EndsWell, Separate;
  }

  /** The main thread's next phase when it is given an object, to scan or to pass over. */
  function Fed(G: Graph, o: nat, scan: bool): Phase
    requires ObjectOk(G, o)
  {
    if scan && !IsByte(G, o) then Begin(o) else Feeding
  }

  /** The main thread takes the object o from one of its sets; it passes over only what is not marked. */
  ghost predicate Feeds(G: Graph, s: State, s': State, o: nat, scan: bool) {
    && o in G.objs && ObjectOk(G, o) && s.main < |s.markers| && s.markers[s.main].phase == Feeding
    && s'.markers == Goto(s, s.main, Fed(G, o, scan)) && s'.main == s.main
    && s'.starts == s.starts && s'.ends == s.ends
    && s.marked <= s'.marked <= s.marked + {o} && s.visited <= s'.visited <= s.visited + {o}
    && s'.again <= s.again <= s'.again + {o} && s'.forgotten == s.forgotten
    && (scan <==> o in s'.marked + s'.visited)
  }

  lemma FedMarker(G: Graph, z: Setup, reach: set<nat>, s: State, s': State, o: nat, scan: bool)
    requires Feeds(G, s, s', o, scan) && MarkerOk(G, z, reach, s, s.main)
    ensures MarkerOk(G, z, reach, s', s.main) && Held(s.markers[s.main]) == {}
    ensures scan && !IsByte(G, o) ==> o in Held(s'.markers[s.main])
  {
    hide SlotOk, ObjectOk, IsByte, ScanOk;
    if scan && !IsByte(G, o) {
      BeginOk(G, reach, s', o, s.markers[s.main].msp);
    }
    MarkerGoes(G, z, reach, s, s', s.main, Fed(G, o, scan));
  }

  lemma FedCovered(G: Graph, s: State, s': State, o: nat, scan: bool)
    requires Feeds(G, s, s', o, scan) && scan && |s'.starts| == |s'.ends| == |G.spaces|
    requires !IsByte(G, o) ==> o in Held(s'.markers[s.main])
    ensures Covered(G, s', o)
  {
    hide ObjectOk, DoneTo, Held;
    if !IsByte(G, o) { MarkerHolds(s', s.main, o); }
  }

  lemma FeedsKeeps(G: Graph, z: Setup, reach: set<nat>, s: State, s': State, o: nat, scan: bool)
    requires Inv(G, z, reach, s) && Feeds(G, s, s', o, scan) && Sound(G, reach, s')
    ensures Inv(G, z, reach, s')
  {
    hide AllCovered, Covered, PhaseOk, SlotOk, ObjectOk, Sound, Held, IsByte;
    PhaseOf(G, z, reach, s, s.main);
    assert MarkerOk(G, z, reach, s, s.main);
    hide MarkerOk;
    FedMarker(G, z, reach, s, s', o, scan);
    if scan { FedCovered(G, s, s', o, scan); }
    hide Inv;
    CarefulKeeps(G, z, reach, s, s', s.main);
  }

  lemma FeedPermanentKeeps(G: Graph, z: Setup, reach: set<nat>, s: State, s': State, o: nat)
    requires Inv(G, z, reach, s) && FeedPermanent(G, s, s', o)
    ensures Inv(G, z, reach, s')
  {
    assert Sound(G, reach, s') by {
      hide GraphOk, ObjectOk, Local, Done;
      assert s'.perms + s'.visited == s.perms + s.visited;
    }
    assert o in G.objs;
    hide Inv, Sound, ObjectOk, IsByte;
    FeedsKeeps(G, z, reach, s, s', o, true);
  }

  lemma FeedRootKeeps(G: Graph, z: Setup, reach: set<nat>, s: State, s': State, o: nat)
    requires Inv(G, z, reach, s) && FeedRoot(G, s, s', o)
    ensures Inv(G, z, reach, s')
  {
    hide ObjectOk, Local, Done, GraphOk, IsByte, Covered, MarkerOk;
    assert Sound(G, reach, s');
    if Local(G, o) && o !in s.marked {
      assert o in G.objs;
      hide Inv, Sound;
      FeedsKeeps(G, z, reach, s, s', o, true);
    } else {
      RootsFewer(G, z, reach, s, s');
    }
  }

  lemma RootsFewer(G: Graph, z: Setup, reach: set<nat>, s: State, s': State)
    requires Inv(G, z, reach, s) && s' == s.(roots := s'.roots) && Sound(G, reach, s')
    ensures Inv(G, z, reach, s')
  {
    hide ObjectOk, Sound, PhaseOk, Done, Held, InRange, GraphOk;
    assert AllCovered(G, s') by {
      hide MarkerOk;
      forall o | o in s'.marked + s'.visited
        ensures o in G.objs && ObjectOk(G, o) && Covered(G, s', o)
      {
        assert Covered(G, s, o) && TakingOf(s') == TakingOf(s);
        if InRange(G, s, o) { RangeGrows(G, s, s', o); }
        if HeldBy(s, o) { HeldStill(s, s', s.main, o); }
        if HalfIn(s, o) { EntersStill(G, s, s', s.main, o); }
      }
    }
    hide AllCovered;
    forall t | 0 <= t < |s'.markers|
      ensures MarkerOk(G, z, reach, s', t)
    {
      assert MarkerOk(G, z, reach, s, t);
      hide MarkerOk, SlotOk;
      OtherMarker(G, z, reach, s, s', t);
    }
  }

  lemma FeedAgainKeeps(G: Graph, z: Setup, reach: set<nat>, s: State, s': State, o: nat)
    requires Inv(G, z, reach, s) && FeedAgain(G, s, s', o)
    ensures Inv(G, z, reach, s')
  {
    hide ObjectOk, Local, Done, GraphOk, IsByte, Covered, MarkerOk;
    assert Sound(G, reach, s');
    assert o in G.objs;
    LocalNotVisited(G, reach, s, o);
    hide Inv, Sound;
    FeedsKeeps(G, z, reach, s, s', o, o in s.marked);
  }

  /** A local object is not one of the permanent objects visited. */
  lemma LocalNotVisited(G: Graph, reach: set<nat>, s: State, o: nat)
    requires Sound(G, reach, s) && Local(G, o)
    ensures o !in s.visited
  {
    hide GraphOk, ObjectOk, Local, Done;
  }
}
