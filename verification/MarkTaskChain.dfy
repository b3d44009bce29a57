/** The object graph of two runs of the marking tasks, and the steps taken in it. */
module MarkTaskChain {
  import opened Heap
  import opened MarkGraph
  import opened MarkTasks
  import opened MarkTaskResults
  import opened MarkTaskRuns

  const CELLS: nat := 16
  const FIRST_OF_SECOND: nat := 13

  /** The address of cell k. Every cell has three words; those from 13 on are in the second space. */
  function At(k: nat): nat {
    4 * k + 2
  }

  /** The cell that word j of cell k leads to, or none. A chain, but for cells 4, 6 and 14. */
  function Kid(k: nat, j: nat): int {
    match k
    case 4 => if j == 0 then 13 else 5
    case 6 => if j == 0 then 10 else 7
    case 8 => 14
    case 13 => 9
    case 14 => if j == 2 then 12 else 15
    case 15 => 11
    case _ => if k < 8 then k + 1 else -1
  }

  function Field(k: nat, j: nat): Word {
    if Kid(k, j) < 0 then Tagged(0) else Pointer(At(Kid(k, j)))
  }

  function WordAt(i: nat): Word {
    if i == 0 then Zero else if i % 4 == 1 then Length(3, false, false, false) else Field((i - 2) / 4, (i - 2) % 4)
  }

  function ChainGraph(): Graph {
    Graph(seq(4 * CELLS + 1, i requires 0 <= i < 4 * CELLS + 1 => WordAt(i)),
          [Space(1, 4 * FIRST_OF_SECOND + 1, false, false), Space(4 * FIRST_OF_SECOND + 1, 4 * CELLS + 1, false, false)],
          set o | 0 < o < 4 * CELLS + 1 && o % 4 == 2)
  }

  lemma WordsAt(k: nat)
    requires k < CELLS
    ensures |ChainGraph().mem| == 4 * CELLS + 1 && ChainGraph().mem[At(k) - 1] == Length(3, false, false, false)
    ensures ChainGraph().mem[At(k)] == Field(k, 0) && ChainGraph().mem[At(k) + 1] == Field(k, 1)
    ensures ChainGraph().mem[At(k) + 2] == Field(k, 2)
  {
    hide Field;
    assert WordAt(At(k) - 1) == Length(3, false, false, false);
    assert (At(k) - 2) / 4 == k && (At(k) + 1 - 2) / 4 == k && (At(k) + 2 - 2) / 4 == k;
  }

  lemma PlaceAt(k: nat)
    requires k < CELLS
    ensures At(k) in ChainGraph().objs && Local(ChainGraph(), At(k))
    ensures forall s :: 0 <= s < |ChainGraph().spaces| ==> Inside(ChainGraph().spaces[s], At(k), 3)
  {
    var G := ChainGraph();
    hide WordAt;
    assert At(k) % 4 == 2;
    assert G.spaces[0].bottom <= At(k) < G.spaces[0].top || G.spaces[1].bottom <= At(k) < G.spaces[1].top;
  }

  lemma CellAt(k: nat)
    requires k < CELLS
    ensures At(k) in ChainGraph().objs && Cell(ChainGraph(), At(k), Field(k, 0), Field(k, 1), Field(k, 2))
  {
    WordsAt(k);
    PlaceAt(k);
    hide ChainGraph, Field, Inside, Local;
  }

  lemma ChainShape()
    ensures var G := ChainGraph();
      && |G.mem| == 65 && G.spaces == [Space(1, 53, false, false), Space(53, 65, false, false)]
      && forall o :: o in G.objs <==> 0 < o < 65 && o % 4 == 2
  {
  }

  lemma ObjectAt(o: nat)
    requires o in ChainGraph().objs
    ensures ObjectOk(ChainGraph(), o) && Size(ChainGraph(), o) == 3
  {
    ChainShape();
    hide ChainGraph;
    var k := (o - 2) / 4;
    assert o == At(k) && k < CELLS;
    CellAt(k);
  }

  lemma ChainTiled()
    ensures Tiled(ChainGraph())
  {
    ChainShape();
    hide ChainGraph, ObjectOk, Size;
    var G := ChainGraph();
    forall o, k | 0 <= k < |G.spaces| && o in G.objs && ObjectOk(G, o)
      ensures EndsWell(G, k, o)
    {
      ObjectAt(o);
    }
    forall o, o' | o in G.objs && o' in G.objs && ObjectOk(G, o)
      ensures Separate(G, o, o')
    {
      ObjectAt(o);
    }
  }

  lemma FieldIsOk(k: nat, j: nat)
    requires k < CELLS && j < 3
    ensures MarkGraph.FieldOk(ChainGraph(), Field(k, j))
  {
    assert Kid(k, j) < CELLS;
    if Kid(k, j) >= 0 { CellAt(Kid(k, j)); }
    hide ChainGraph, Local, ObjectOk, Kid;
  }

  lemma FieldsAt(o: nat, w: nat)
    requires o in ChainGraph().objs && o <= w < o + 3 && w < |ChainGraph().mem|
    ensures MarkGraph.FieldOk(ChainGraph(), ChainGraph().mem[w])
  {
    ChainShape();
    hide ChainGraph, Field, MarkGraph.FieldOk;
    var k := (o - 2) / 4;
    assert o == At(k) && k < CELLS;
    WordsAt(k);
    FieldIsOk(k, w - o);
  }

  lemma ChainGraphOk()
    ensures GraphOk(ChainGraph())
  {
    ChainShape();
    hide ChainGraph, Tiled, MarkGraph.FieldOk, Inside;
    var G := ChainGraph();
    ChainTiled();
    forall o | o in G.objs
      ensures ObjectOk(G, o) && Size(G, o) == 3
    {
      ObjectAt(o);
    }
    forall o, w: nat | o in G.objs && ObjectOk(G, o) && !IsByte(G, o) && o <= w < o + Size(G, o)
      ensures w < |G.mem| && MarkGraph.FieldOk(G, G.mem[w])
    {
      FieldsAt(o, w);
    }
  }

  // ---------- The steps of the runs ----------

  /** The cell that word j of cell k leads to has not been marked. */
  predicate New(s: State, k: nat, j: nat) {
    0 <= Kid(k, j) < CELLS && At(Kid(k, j)) !in s.marked
  }

  /** It has, or there is none. */
  predicate Old(s: State, k: nat, j: nat) {
    Kid(k, j) < 0 || (Kid(k, j) < CELLS && At(Kid(k, j)) in s.marked)
  }

  lemma LeadsNew(s: State, k: nat, j: nat)
    requires New(s, k, j)
    ensures Leads(ChainGraph(), s, Field(k, j)) && Field(k, j) == Pointer(At(Kid(k, j)))
  {
    CellAt(Kid(k, j));
    hide ChainGraph, ObjectOk, Local;
  }

  lemma LeadsOld(s: State, k: nat, j: nat)
    requires Old(s, k, j)
    ensures LeadsNowhere(ChainGraph(), s, Field(k, j))
  {
    if Kid(k, j) >= 0 { CellAt(Kid(k, j)); }
    hide ChainGraph, ObjectOk, Local;
  }

  lemma Notes(z: Setup, s0: State, s: State, t: nat, k: nat) returns (s': State)
    requires Reaches(ChainGraph(), z, s0, s) && IsAt(s, t, Begin(At(k))) && k < CELLS && New(s, k, 0) && New(s, k, 1) && New(s, k, 2)
    ensures Reaches(ChainGraph(), z, s0, s')
    ensures s' == s.(markers := Goto(s, t, Push(At(k), At(k), At(Kid(k, 0)), Unsettled)))
  {
    hide Reaches, ChainGraph, Cell, Leads, New, Kid, Field;
    CellAt(k);
    LeadsNew(s, k, 0);
    LeadsNew(s, k, 1);
    LeadsNew(s, k, 2);
    s' := NotesThree(ChainGraph(), z, s0, s, t, At(k), Field(k, 0), Field(k, 1), Field(k, 2));
  }

  lemma NotesLast(z: Setup, s0: State, s: State, t: nat, k: nat) returns (s': State)
    requires Reaches(ChainGraph(), z, s0, s) && IsAt(s, t, Begin(At(k))) && k < CELLS && Old(s, k, 0) && New(s, k, 1)
    requires Kid(k, 1) == Kid(k, 2)
    ensures Reaches(ChainGraph(), z, s0, s')
    ensures s' == s.(marked := s.marked + {At(Kid(k, 1))},
                     markers := Goto(s, t, Push(At(k), At(Kid(k, 1)), At(Kid(k, 1)), Unsettled)))
  {
    assert Field(k, 1) == Field(k, 2);
    hide Reaches, ChainGraph, Cell, Leads, LeadsNowhere, New, Old, Kid, Field;
    CellAt(k);
    LeadsOld(s, k, 0);
    LeadsNew(s, k, 1);
    s' := NotesTwo(ChainGraph(), z, s0, s, t, At(k), Field(k, 0), Field(k, 1));
  }

  lemma Skips(z: Setup, s0: State, s: State, t: nat, k: nat) returns (s': State)
    requires Reaches(ChainGraph(), z, s0, s) && IsAt(s, t, Begin(At(k))) && k < CELLS && Old(s, k, 0) && Old(s, k, 1) && Old(s, k, 2)
    ensures Reaches(ChainGraph(), z, s0, s') && s' == s.(markers := Goto(s, t, Next(At(k), 0)))
  {
    hide Reaches, ChainGraph, Cell, LeadsNowhere, Old, Kid, Field;
    CellAt(k);
    LeadsOld(s, k, 0);
    LeadsOld(s, k, 1);
    LeadsOld(s, k, 2);
    s' := SkipsThree(ChainGraph(), z, s0, s, t, At(k), Field(k, 0), Field(k, 1), Field(k, 2));
  }

  lemma Pops(z: Setup, s0: State, s: State, t: nat, cur: nat, k: nat) returns (s': State)
    requires Reaches(ChainGraph(), z, s0, s) && IsAt(s, t, Next(cur, 0)) && 0 < s.markers[t].msp <= |s.markers[t].slots|
    requires s.markers[t].slots[s.markers[t].msp - 1] == At(k) && k < CELLS && Old(s, k, 0) && Old(s, k, 1) && Old(s, k, 2)
    ensures Reaches(ChainGraph(), z, s0, s')
    ensures var m := s.markers[t];
      s' == s.(markers := s.markers[t := m.(slots := m.slots[m.msp - 1 := 0], msp := m.msp - 1, phase := Next(At(k), 0))])
  {
    hide Reaches, ChainGraph, Cell, LeadsNowhere, Old, Kid, Field;
    CellAt(k);
    LeadsOld(s, k, 0);
    LeadsOld(s, k, 1);
    LeadsOld(s, k, 2);
    s' := PopsDone(ChainGraph(), z, s0, s, t, cur, Field(k, 0), Field(k, 1), Field(k, 2));
  }

  lemma Runs(z: Setup, s0: State, s: State, t: nat, k: nat) returns (s': State)
    requires Reaches(ChainGraph(), z, s0, s) && IsAt(s, t, Waiting(At(k))) && s.markers[t].msp == 0 && t != s.main
    requires k < CELLS && Old(s, k, 0) && Old(s, k, 1) && Old(s, k, 2)
    ensures Reaches(ChainGraph(), z, s0, s')
    ensures s' == s.(nInUse := s.nInUse - 1, markers := s.markers[t := s.markers[t].(active := false, phase := Resting)])
  {
    hide Reaches, ChainGraph, Cell, LeadsNowhere, Old, Kid, Field;
    CellAt(k);
    LeadsOld(s, k, 0);
    LeadsOld(s, k, 1);
    LeadsOld(s, k, 2);
    s' := RunsDone(ChainGraph(), z, s0, s, t, At(k), Field(k, 0), Field(k, 1), Field(k, 2));
  }

  /** The main thread has read limits of the space before cell k. */
  predicate TakesBefore(p: Phase, k: nat, space: nat) {
    p.Take? && p.m == space && p.stage.HasBoth? && p.stage.end < At(k) + 3
  }

  lemma SlipsPast(s: State, t: nat, k: nat, space: nat)
    requires t < |s.markers| && s.markers[t].phase.Widening? && s.markers[t].phase.obj == At(k) && s.markers[t].phase.k == space
    requires k < CELLS && s.main < |s.markers| && (s.markers[s.main].phase.Take? ==> TakesBefore(s.markers[s.main].phase, k, space))
    ensures Slips(ChainGraph(), s, t) <==> s.markers[s.main].phase.Take?
  {
    hide ChainGraph;
    CellAt(k);
    hide Local, ObjectOk;
  }

  /** The stack is full: the cell's own space has its area widened, and the first cell it leads to is followed. */
  lemma Drops(z: Setup, s0: State, s: State, t: nat, k: nat, space: nat) returns (s': State)
    requires Reaches(ChainGraph(), z, s0, s) && k < CELLS && space < 2 && (space == 1 <==> k >= FIRST_OF_SECOND)
    requires 0 <= Kid(k, 0) && IsAt(s, t, Push(At(k), At(k), At(Kid(k, 0)), Unsettled))
    requires Full(z, s) && s.markers[t].msp == z.stackSize && |s.starts| == |s.ends| == 2
    requires forall u :: 0 <= u < |s.markers| ==> !s.markers[u].phase.Widening?
    requires s.main < |s.markers| && (s.markers[s.main].phase.Take? ==> TakesBefore(s.markers[s.main].phase, k, space))
    ensures Reaches(ChainGraph(), z, s0, s')
    ensures s' == s.(starts := s.starts[space := Min(s.starts[space], At(k) - 1)], ends := s.ends[space := Max(s.ends[space], At(k) + 3)],
                     forgotten := if s.markers[s.main].phase.Take? then s.forgotten + {At(k)} else s.forgotten,
                     marked := s.marked + {At(Kid(k, 0))}, markers := s.markers[t := Follows(s.markers[t], At(Kid(k, 0)))])
  {
    hide Reaches, ChainGraph, Full, Kid, Field, Min, Max;
    var G := ChainGraph();
    ChainShape();
    assert ObjectOk(G, At(k)) && Size(G, At(k)) == 3 by { CellAt(k); }
    hide ObjectOk, Size;
    var s1 := Overflows(G, z, s0, s, t, Push(At(k), At(k), At(Kid(k, 0)), Unsettled), space);
    SlipsPast(s1, t, k, space);
    s' := Entered(G, z, s0, s1, t, s1.markers[t].phase);
    assert s'.markers == s.markers[t := Follows(s.markers[t], At(Kid(k, 0)))];
  }
}
