/** Two runs of the marking tasks from the start: one loses an object, in the other a fork finds no marker. */
module MarkTaskFailures {
  import opened Heap
  import opened MarkGraph
  import opened MarkTasks
  import opened MarkTaskResults
  import opened MarkTaskRuns
  import opened MarkTaskChain

  function Z(): Setup {
    Setup(3, 2)
  }

  function Idle(): Marker {
    Marker(false, [0, 0], 0, Resting)
  }

  /** Three threads, stacks of two entries, and one root. */
  function Start(): State {
    State({}, [Marker(true, [0, 0], 0, Feeding), Idle(), Idle(), Idle()], 1, 0, 0, 0, true, [53, 65], [1, 53], {}, {At(0)}, {}, {}, {})
  }

  lemma StartIsInitial()
    ensures Initial(ChainGraph(), Z(), {}, {At(0)}, Start())
  {
    ChainGraphOk();
    ChainShape();
    CellAt(0);
    hide GraphOk, ChainGraph, ObjectOk, Local;
    assert seq(2, i => 0) == [0, 0];
  }

  predicate SameMarker(m: Marker, m': Marker) {
    m.active == m'.active && m.slots == m'.slots && m.msp == m'.msp && m.phase == m'.phase
  }

  /** The states are the same, field by field. */
  predicate Same(s: State, s': State) {
    && |s.markers| == |s'.markers| == 4 && SameMarker(s.markers[0], s'.markers[0]) && SameMarker(s.markers[1], s'.markers[1])
    && SameMarker(s.markers[2], s'.markers[2]) && SameMarker(s.markers[3], s'.markers[3])
    && s.marked == s'.marked && s.nInUse == s'.nInUse && s.lost == s'.lost && s.main == s'.main
    && s.next == s'.next && s.rescan == s'.rescan && s.starts == s'.starts && s.ends == s'.ends && s.perms == s'.perms
    && s.roots == s'.roots && s.again == s'.again && s.visited == s'.visited && s.forgotten == s'.forgotten
  }

  lemma RegionOf(start: nat, end: nat, k: nat)
    requires k < CELLS && start + 1 == At(k) && end == At(k) + 3
    ensures Region(ChainGraph(), start, end) == {At(k)}
  {
    ChainShape();
    PlaceAt(k);
    hide ChainGraph, Local;
  }

  lemma EndsRoots(s0: State, s: State) returns (s': State)
    requires Reaches(ChainGraph(), Z(), s0, s) && s.main < 3 && IsAt(s, s.main, Feeding)
    requires s.perms == {} && s.roots == {} && s.again == {}
    ensures Reaches(ChainGraph(), Z(), s0, s')
    ensures s' == s.(nInUse := s.nInUse - 1, main := 3, rescan := true,
                     markers := s.markers[s.main := s.markers[s.main].(active := false, phase := Resting)])
  {
    hide Reaches, ChainGraph;
    s' := s.(nInUse := s.nInUse - 1, main := 3, rescan := true,
             markers := s.markers[s.main := s.markers[s.main].(active := false, phase := Resting)]);
    Then(ChainGraph(), Z(), s0, s, s', SEndRoots);
  }

  lemma FeedsCell(s0: State, s: State, k: nat) returns (s': State)
    requires Reaches(ChainGraph(), Z(), s0, s) && IsAt(s, s.main, Feeding) && k < CELLS && At(k) in s.again && At(k) in s.marked
    ensures Reaches(ChainGraph(), Z(), s0, s')
    ensures s' == s.(again := s.again - {At(k)}, markers := Goto(s, s.main, Begin(At(k))))
  {
    hide Reaches, ChainGraph, Local, ObjectOk, IsByte;
    CellAt(k);
    s' := FeedsAgain(ChainGraph(), Z(), s0, s, At(k));
  }

  // ---------- What the two runs have in common ----------

  /** The root has been fed. */
  lemma FedRoot() returns (s: State)
    ensures Reaches(ChainGraph(), Z(), Start(), s)
    ensures Same(s, State({At(0)}, [Marker(true, [0, 0], 0, Begin(At(0))), Idle(), Idle(), Idle()],
                          1, 0, 0, 0, true, [53, 65], [1, 53], {}, {}, {}, {}, {}))
  {
    hide Reaches, ChainGraph;
    var G, z, s0 := ChainGraph(), Z(), Start();
    Here(G, z, s0);
    CellAt(0);
    hide Local, ObjectOk;
    s := s0.(roots := {}, marked := {At(0)}, markers := Goto(s0, 0, Begin(At(0))));
    assert s0.roots - {At(0)} == {} && s0.marked + {At(0)} == {At(0)};
    assert IsStep(G, z, s0, s, SFeedRoot(At(0)));
    Then(G, z, s0, s0, s, SFeedRoot(At(0)));
  }

  /** The stack of the main thread is full. */
  lemma Filled() returns (s: State)
    ensures Reaches(ChainGraph(), Z(), Start(), s)
    ensures Same(s, State({At(0), At(1), At(2)},
                          [Marker(true, [At(0), At(1)], 2, Begin(At(2))), Idle(), Idle(), Idle()],
                          1, 0, 0, 0, true, [53, 65], [1, 53], {}, {}, {}, {}, {}))
  {
    hide Reaches, ChainGraph, Region;
    var G, z, s0 := ChainGraph(), Z(), Start();
    ChainShape();
    s := FedRoot();
    s := Notes(z, s0, s, 0, 0);
    s := Stacks(G, z, s0, s, 0, s.markers[0].phase);
    s := Notes(z, s0, s, 0, 1);
    s := Stacks(G, z, s0, s, 0, s.markers[0].phase);
  }

  /** Two tasks have been forked, so that all threads are in use. */
  lemma Forked() returns (s: State)
    ensures Reaches(ChainGraph(), Z(), Start(), s)
    ensures Same(s, State({At(0), At(1), At(2), At(3), At(4)},
                          [Marker(true, [At(0), At(1)], 2, Begin(At(4))), Marker(true, [0, 0], 0, Waiting(At(2))),
                           Marker(true, [0, 0], 0, Waiting(At(3))), Idle()],
                          3, 0, 0, 0, true, [53, 65], [1, 53], {}, {}, {}, {}, {}))
  {
    hide Reaches, ChainGraph, Region;
    var G, z, s0 := ChainGraph(), Z(), Start();
    ChainShape();
    s := Filled();
    s := Notes(z, s0, s, 0, 2);
    s := Forks(G, z, s0, s, 0, s.markers[0].phase, 1);
    s := Notes(z, s0, s, 0, 3);
    s := Forks(G, z, s0, s, 0, s.markers[0].phase, 2);
  }

  /** Cell 4 has been dropped. */
  lemma Dropped() returns (s: State)
    ensures Reaches(ChainGraph(), Z(), Start(), s)
    ensures Same(s, State({At(0), At(1), At(2), At(3), At(4), At(13)},
                          [Marker(true, [At(0), At(1)], 2, Begin(At(13))), Marker(true, [0, 0], 0, Waiting(At(2))),
                           Marker(true, [0, 0], 0, Waiting(At(3))), Idle()],
                          3, 0, 0, 0, true, [17, 65], [21, 53], {}, {}, {}, {}, {}))
  {
    hide Reaches, ChainGraph, Region;
    var G, z, s0 := ChainGraph(), Z(), Start();
    ChainShape();
    s := Forked();
    s := Notes(z, s0, s, 0, 4);
    s := Drops(z, s0, s, 0, 4, 0);
  }

  /** So has cell 13, in the other space. */
  lemma DroppedBoth() returns (s: State)
    ensures Reaches(ChainGraph(), Z(), Start(), s)
    ensures Same(s, State({At(0), At(1), At(2), At(3), At(4), At(13), At(9)},
                          [Marker(true, [At(0), At(1)], 2, Begin(At(9))), Marker(true, [0, 0], 0, Waiting(At(2))),
                           Marker(true, [0, 0], 0, Waiting(At(3))), Idle()],
                          3, 0, 0, 0, true, [17, 53], [21, 57], {}, {}, {}, {}, {}))
  {
    hide Reaches, ChainGraph, Region;
    var G, z, s0 := ChainGraph(), Z(), Start();
    ChainShape();
    s := Dropped();
    s := Notes(z, s0, s, 0, 13);
    s := Drops(z, s0, s, 0, 13, 1);
  }

  /** The main thread has marked the root. */
  lemma Unwound() returns (s: State)
    ensures Reaches(ChainGraph(), Z(), Start(), s)
    ensures Same(s, State({At(0), At(1), At(2), At(3), At(4), At(13), At(9)},
                          [Marker(true, [0, 0], 0, Feeding), Marker(true, [0, 0], 0, Waiting(At(2))),
                           Marker(true, [0, 0], 0, Waiting(At(3))), Idle()],
                          3, 0, 0, 0, true, [17, 53], [21, 57], {}, {}, {}, {}, {}))
  {
    hide Reaches, ChainGraph, Region;
    var G, z, s0 := ChainGraph(), Z(), Start();
    ChainShape();
    s := DroppedBoth();
    s := Skips(z, s0, s, 0, 9);
    s := Pops(z, s0, s, 0, At(9), 1);
    s := Pops(z, s0, s, 0, At(1), 0);
    s := Returns(G, z, s0, s, At(0));
  }

  /** The tasks have found nothing left to do. */
  lemma RootsDone() returns (s: State)
    ensures Reaches(ChainGraph(), Z(), Start(), s)
    ensures Same(s, State({At(0), At(1), At(2), At(3), At(4), At(13), At(9)},
                          [Idle(), Idle(), Idle(), Idle()],
                          0, 0, 3, 0, true, [17, 53], [21, 57], {}, {}, {}, {}, {}))
  {
    hide Reaches, ChainGraph, Region;
    var G, z, s0 := ChainGraph(), Z(), Start();
    ChainShape();
    s := Unwound();
    s := EndsRoots(s0, s);
    s := Runs(z, s0, s, 1, 2);
    s := Runs(z, s0, s, 2, 3);
  }

  /** The first area, which has cell 4, is being rescanned. */
  lemma Begun() returns (s: State)
    ensures Reaches(ChainGraph(), Z(), Start(), s)
    ensures Same(s, State({At(0), At(1), At(2), At(3), At(4), At(13), At(9)},
                          [Idle(), Idle(), Idle(), Marker(false, [0, 0], 0, Begin(At(4)))],
                          1, 0, 3, 1, true, [53, 53], [1, 57], {}, {}, {}, {}, {}))
  {
    hide Reaches, ChainGraph, Region;
    var G, z, s0 := ChainGraph(), Z(), Start();
    ChainShape();
    RegionOf(17, 21, 4);
    s := RootsDone();
    s := BeginsRound(G, z, s0, s);
    s := ReadsLimits(G, z, s0, s);
    s := ResetsLimits(G, z, s0, s, 0, 17, 21);
    s := FeedsCell(s0, s, 4);
  }

  /** The stack of the rescanner is full. */
  lemma Refilled() returns (s: State)
    ensures Reaches(ChainGraph(), Z(), Start(), s)
    ensures Same(s, State({At(0), At(1), At(2), At(3), At(4), At(13), At(9), At(5), At(6)},
                          [Idle(), Idle(), Idle(), Marker(false, [At(5), At(5)], 2, Begin(At(6)))],
                          1, 0, 3, 1, true, [53, 53], [1, 57], {}, {}, {}, {}, {}))
  {
    hide Reaches, ChainGraph, Region;
    var G, z, s0 := ChainGraph(), Z(), Start();
    ChainShape();
    s := Begun();
    s := NotesLast(z, s0, s, 3, 4);
    s := Stacks(G, z, s0, s, 3, s.markers[3].phase);
    s := Notes(z, s0, s, 3, 5);
    s := Stacks(G, z, s0, s, 3, s.markers[3].phase);
  }

  /** A task has been forked for cell 6. */
  lemma TaskForked() returns (s: State)
    ensures Reaches(ChainGraph(), Z(), Start(), s)
    ensures Same(s, State({At(0), At(1), At(2), At(3), At(4), At(13), At(9), At(5), At(6), At(10)},
                          [Marker(true, [0, 0], 0, Waiting(At(6))), Idle(),
                           Idle(), Marker(false, [At(5), At(5)], 2, Next(At(10), 0))],
                          2, 0, 3, 1, true, [53, 53], [1, 57], {}, {}, {}, {}, {}))
  {
    hide Reaches, ChainGraph, Region;
    var G, z, s0 := ChainGraph(), Z(), Start();
    ChainShape();
    s := Refilled();
    s := Notes(z, s0, s, 3, 6);
    s := Forks(G, z, s0, s, 3, s.markers[3].phase, 0);
    s := Skips(z, s0, s, 3, 10);
  }

  /** The first area has been rescanned; the task has not yet begun. */
  lemma FirstDone() returns (s: State)
    ensures Reaches(ChainGraph(), Z(), Start(), s)
    ensures Same(s, State({At(0), At(1), At(2), At(3), At(4), At(13), At(9), At(5), At(6), At(10)},
                          [Marker(true, [0, 0], 0, Waiting(At(6))), Idle(), Idle(), Marker(false, [0, 0], 0, Feeding)],
                          2, 0, 3, 1, true, [53, 53], [1, 57], {}, {}, {}, {}, {}))
  {
    hide Reaches, ChainGraph, Region;
    var G, z, s0 := ChainGraph(), Z(), Start();
    ChainShape();
    s := TaskForked();
    s := Pops(z, s0, s, 3, At(10), 5);
    s := Pops(z, s0, s, 3, At(5), 5);
    s := Returns(G, z, s0, s, At(5));
  }

  // ---------- An object lost ----------

  /** The main thread has read the limits of the second area, which has cell 13. */
  lemma Taking() returns (s: State)
    ensures Reaches(ChainGraph(), Z(), Start(), s)
    ensures Same(s, State({At(0), At(1), At(2), At(3), At(4), At(13), At(9), At(5), At(6), At(10), At(7)},
                          [Marker(true, [At(7), 0], 1, Begin(At(7))), Idle(),
                           Idle(), Marker(false, [0, 0], 0, Take(1, HasBoth(53, 57)))],
                          2, 0, 3, 1, true, [53, 53], [1, 57], {}, {}, {}, {}, {}))
  {
    hide Reaches, ChainGraph, Region;
    var G, z, s0 := ChainGraph(), Z(), Start();
    ChainShape();
    s := FirstDone();
    s := ReadsLimits(G, z, s0, s);
    s := Starts(G, z, s0, s, 0, At(6));
    s := NotesLast(z, s0, s, 0, 6);
    s := Stacks(G, z, s0, s, 0, s.markers[0].phase);
  }

  /** The stack of the task is full, and it has forked another. */
  lemma Grown() returns (s: State)
    ensures Reaches(ChainGraph(), Z(), Start(), s)
    ensures Same(s, State({At(0), At(1), At(2), At(3), At(4), At(13), At(9), At(5), At(6), At(10), At(7), At(8), At(14)},
                          [Marker(true, [At(7), At(7)], 2, Begin(At(14))), Marker(true, [0, 0], 0, Waiting(At(8))),
                           Idle(), Marker(false, [0, 0], 0, Take(1, HasBoth(53, 57)))],
                          3, 0, 3, 1, true, [53, 53], [1, 57], {}, {}, {}, {}, {}))
  {
    hide Reaches, ChainGraph, Region;
    var G, z, s0 := ChainGraph(), Z(), Start();
    ChainShape();
    s := Taking();
    s := Notes(z, s0, s, 0, 7);
    s := Stacks(G, z, s0, s, 0, s.markers[0].phase);
    s := Notes(z, s0, s, 0, 8);
    s := Forks(G, z, s0, s, 0, s.markers[0].phase, 1);
  }

  /** Cell 14 has been dropped, beyond the limits read. */
  lemma Lost() returns (s: State)
    ensures Reaches(ChainGraph(), Z(), Start(), s)
    ensures Same(s, State({At(0), At(1), At(2), At(3), At(4), At(13), At(9), At(5), At(6), At(10), At(7), At(8), At(14), At(15)},
                          [Marker(true, [At(7), At(7)], 2, Begin(At(15))), Marker(true, [0, 0], 0, Waiting(At(8))),
                           Idle(), Marker(false, [0, 0], 0, Take(1, HasBoth(53, 57)))],
                          3, 0, 3, 1, true, [53, 53], [1, 61], {}, {}, {}, {}, {At(14)}))
  {
    hide Reaches, ChainGraph, Region;
    var G, z, s0 := ChainGraph(), Z(), Start();
    ChainShape();
    s := Grown();
    s := Notes(z, s0, s, 0, 14);
    s := Drops(z, s0, s, 0, 14, 1);
  }

  /** So has cell 15. */
  lemma LostBoth() returns (s: State)
    ensures Reaches(ChainGraph(), Z(), Start(), s)
    ensures Same(s, State({At(0), At(1), At(2), At(3), At(4), At(13), At(9), At(5), At(6), At(10), At(7), At(8), At(14), At(15), At(11)},
                          [Marker(true, [At(7), At(7)], 2, Begin(At(11))), Marker(true, [0, 0], 0, Waiting(At(8))),
                           Idle(), Marker(false, [0, 0], 0, Take(1, HasBoth(53, 57)))],
                          3, 0, 3, 1, true, [53, 53], [1, 65], {}, {}, {}, {}, {At(14), At(15)}))
  {
    hide Reaches, ChainGraph, Region;
    var G, z, s0 := ChainGraph(), Z(), Start();
    ChainShape();
    s := Lost();
    s := Notes(z, s0, s, 0, 15);
    s := Drops(z, s0, s, 0, 15, 1);
  }

  /** The limits have been reset. */
  lemma Reset() returns (s: State)
    ensures Reaches(ChainGraph(), Z(), Start(), s)
    ensures Same(s, State({At(0), At(1), At(2), At(3), At(4), At(13), At(9), At(5), At(6), At(10), At(7), At(8), At(14), At(15), At(11)},
                          [Marker(true, [At(7), At(7)], 2, Next(At(11), 0)), Marker(true, [0, 0], 0, Waiting(At(8))),
                           Idle(), Marker(false, [0, 0], 0, Feeding)],
                          3, 0, 3, 2, true, [53, 65], [1, 53], {}, {}, {At(13)}, {}, {At(14), At(15)}))
  {
    hide Reaches, ChainGraph, Region;
    var G, z, s0 := ChainGraph(), Z(), Start();
    ChainShape();
    RegionOf(53, 57, 13);
    s := LostBoth();
    s := ResetsLimits(G, z, s0, s, 1, 53, 57);
    s := Skips(z, s0, s, 0, 11);
  }

  /** The tasks have found nothing left to do. */
  lemma TasksDone() returns (s: State)
    ensures Reaches(ChainGraph(), Z(), Start(), s)
    ensures Same(s, State({At(0), At(1), At(2), At(3), At(4), At(13), At(9), At(5), At(6), At(10), At(7), At(8), At(14), At(15), At(11)},
                          [Idle(), Idle(), Idle(), Marker(false, [0, 0], 0, Feeding)],
                          1, 0, 3, 2, true, [53, 65], [1, 53], {}, {}, {At(13)}, {}, {At(14), At(15)}))
  {
    hide Reaches, ChainGraph, Region;
    var G, z, s0 := ChainGraph(), Z(), Start();
    ChainShape();
    s := Reset();
    s := Pops(z, s0, s, 0, At(11), 7);
    s := Pops(z, s0, s, 0, At(7), 7);
    s := Ends(G, z, s0, s, 0, At(7));
    s := Runs(z, s0, s, 1, 8);
  }

  /** The second area has been rescanned. */
  lemma SecondDone() returns (s: State)
    ensures Reaches(ChainGraph(), Z(), Start(), s)
    ensures Same(s, State({At(0), At(1), At(2), At(3), At(4), At(13), At(9), At(5), At(6), At(10), At(7), At(8), At(14), At(15), At(11)},
                          [Idle(), Idle(), Idle(), Marker(false, [0, 0], 0, Feeding)],
                          1, 0, 3, 2, true, [53, 65], [1, 53], {}, {}, {}, {}, {At(14), At(15)}))
  {
    hide Reaches, ChainGraph, Region;
    var G, z, s0 := ChainGraph(), Z(), Start();
    ChainShape();
    s := TasksDone();
    s := FeedsCell(s0, s, 13);
    s := Skips(z, s0, s, 3, 13);
    s := Returns(G, z, s0, s, At(13));
  }

  /** A further round has begun. */
  lemma RoundDone() returns (s: State)
    ensures Reaches(ChainGraph(), Z(), Start(), s)
    ensures Same(s, State({At(0), At(1), At(2), At(3), At(4), At(13), At(9), At(5), At(6), At(10), At(7), At(8), At(14), At(15), At(11)},
                          [Idle(), Idle(), Idle(), Marker(false, [0, 0], 0, Feeding)],
                          1, 0, 3, 0, false, [53, 65], [1, 53], {}, {}, {}, {}, {At(14), At(15)}))
  {
    hide Reaches, ChainGraph, Region;
    var G, z, s0 := ChainGraph(), Z(), Start();
    ChainShape();
    s := SecondDone();
    s := ReadsCount(G, z, s0, s);
    s := WritesCount(G, z, s0, s, 1);
    s := BeginsRound(G, z, s0, s);
  }

  /** It has found no area. */
  lemma Finished() returns (s: State)
    ensures Reaches(ChainGraph(), Z(), Start(), s)
    ensures Same(s, State({At(0), At(1), At(2), At(3), At(4), At(13), At(9), At(5), At(6), At(10), At(7), At(8), At(14), At(15), At(11)},
                          [Idle(), Idle(), Idle(), Idle()],
                          0, 0, 3, 2, false, [53, 65], [1, 53], {}, {}, {}, {}, {At(14), At(15)}))
  {
    hide Reaches, ChainGraph, Region;
    var G, z, s0 := ChainGraph(), Z(), Start();
    ChainShape();
    s := RoundDone();
    s := FindsNone(G, z, s0, s);
    s := FindsNone(G, z, s0, s);
    s := ReadsCount(G, z, s0, s);
    s := WritesCount(G, z, s0, s, 1);
  }

  // ---------- A fork without a marker ----------

  /** The second area is being rescanned. */
  lemma Second() returns (s: State)
    ensures Reaches(ChainGraph(), Z(), Start(), s)
    ensures Same(s, State({At(0), At(1), At(2), At(3), At(4), At(13), At(9), At(5), At(6), At(10)},
                          [Marker(true, [0, 0], 0, Waiting(At(6))), Idle(), Idle(), Marker(false, [0, 0], 0, Begin(At(13)))],
                          2, 0, 3, 2, true, [53, 65], [1, 53], {}, {}, {}, {}, {}))
  {
    hide Reaches, ChainGraph, Region;
    var G, z, s0 := ChainGraph(), Z(), Start();
    ChainShape();
    RegionOf(53, 57, 13);
    s := FirstDone();
    s := ReadsLimits(G, z, s0, s);
    s := ResetsLimits(G, z, s0, s, 1, 53, 57);
    s := FeedsCell(s0, s, 13);
  }

  /** It has been, and the main thread has read that two markers are in use. */
  lemma Leaves() returns (s: State)
    ensures Reaches(ChainGraph(), Z(), Start(), s)
    ensures Same(s, State({At(0), At(1), At(2), At(3), At(4), At(13), At(9), At(5), At(6), At(10)},
                          [Marker(true, [0, 0], 0, Waiting(At(6))), Idle(), Idle(), Marker(false, [0, 0], 0, Leaving(2))],
                          2, 0, 3, 2, true, [53, 65], [1, 53], {}, {}, {}, {}, {}))
  {
    hide Reaches, ChainGraph, Region;
    var G, z, s0 := ChainGraph(), Z(), Start();
    ChainShape();
    s := Second();
    s := Skips(z, s0, s, 3, 13);
    s := Returns(G, z, s0, s, At(13));
    s := ReadsCount(G, z, s0, s);
  }

  /** The task has begun. */
  lemma Works() returns (s: State)
    ensures Reaches(ChainGraph(), Z(), Start(), s)
    ensures Same(s, State({At(0), At(1), At(2), At(3), At(4), At(13), At(9), At(5), At(6), At(10), At(7)},
                          [Marker(true, [At(7), 0], 1, Begin(At(7))), Idle(), Idle(), Marker(false, [0, 0], 0, Leaving(2))],
                          2, 0, 3, 2, true, [53, 65], [1, 53], {}, {}, {}, {}, {}))
  {
    hide Reaches, ChainGraph, Region;
    var G, z, s0 := ChainGraph(), Z(), Start();
    ChainShape();
    s := Leaves();
    s := Starts(G, z, s0, s, 0, At(6));
    s := NotesLast(z, s0, s, 0, 6);
    s := Stacks(G, z, s0, s, 0, s.markers[0].phase);
  }

  /** It has forked another. */
  lemma Worked() returns (s: State)
    ensures Reaches(ChainGraph(), Z(), Start(), s)
    ensures Same(s, State({At(0), At(1), At(2), At(3), At(4), At(13), At(9), At(5), At(6), At(10), At(7), At(8), At(14)},
                          [Marker(true, [At(7), At(7)], 2, Begin(At(14))), Marker(true, [0, 0], 0, Waiting(At(8))),
                           Idle(), Marker(false, [0, 0], 0, Leaving(2))],
                          3, 0, 3, 2, true, [53, 65], [1, 53], {}, {}, {}, {}, {}))
  {
    hide Reaches, ChainGraph, Region;
    var G, z, s0 := ChainGraph(), Z(), Start();
    ChainShape();
    s := Works();
    s := Notes(z, s0, s, 0, 7);
    s := Stacks(G, z, s0, s, 0, s.markers[0].phase);
    s := Notes(z, s0, s, 0, 8);
    s := Forks(G, z, s0, s, 0, s.markers[0].phase, 1);
  }

  /** That change of the count is overwritten, and a further task is forked. */
  lemma Overwritten() returns (s: State)
    ensures Reaches(ChainGraph(), Z(), Start(), s)
    ensures Same(s, State({At(0), At(1), At(2), At(3), At(4), At(13), At(9), At(5), At(6), At(10), At(7), At(8), At(14), At(15)},
                          [Marker(true, [At(7), At(7)], 2, Begin(At(15))), Marker(true, [0, 0], 0, Waiting(At(8))),
                           Marker(true, [0, 0], 0, Waiting(At(14))), Idle()],
                          2, 1, 3, 2, true, [53, 65], [1, 53], {}, {}, {}, {}, {}))
  {
    hide Reaches, ChainGraph, Region;
    var G, z, s0 := ChainGraph(), Z(), Start();
    ChainShape();
    s := Worked();
    s := WritesCount(G, z, s0, s, 2);
    s := Notes(z, s0, s, 0, 14);
    s := Forks(G, z, s0, s, 0, s.markers[0].phase, 2);
  }

  /** All markers are in use and yet a task is to be forked. */
  lemma Stuck() returns (s: State)
    ensures Reaches(ChainGraph(), Z(), Start(), s)
    ensures Same(s, State({At(0), At(1), At(2), At(3), At(4), At(13), At(9), At(5), At(6), At(10), At(7), At(8), At(14), At(15)},
                          [Marker(true, [At(7), At(7)], 2, Push(At(15), At(15), At(11), ByFork)), Marker(true, [0, 0], 0, Waiting(At(8))),
                           Marker(true, [0, 0], 0, Waiting(At(14))), Idle()],
                          2, 1, 3, 2, true, [53, 65], [1, 53], {}, {}, {}, {}, {}))
  {
    hide Reaches, ChainGraph, Region;
    var G, z, s0 := ChainGraph(), Z(), Start();
    ChainShape();
    s := Overwritten();
    s := Notes(z, s0, s, 0, 15);
    s := Decides(G, z, s0, s, 0, s.markers[0].phase);
  }

  lemma LeadsOn(k: nat, j: nat)
    requires GraphOk(ChainGraph()) && k < CELLS && j < 3 && 0 <= Kid(k, j) < CELLS
    requires Reachable(ChainGraph(), {At(0)}, {}, At(k))
    ensures Reachable(ChainGraph(), {At(0)}, {}, At(Kid(k, j)))
  {
    hide ChainGraph, Kid, Reachable, GraphOk, Local;
    var G := ChainGraph();
    CellAt(k);
    CellAt(Kid(k, j));
    assert G.mem[At(k) + j] == Pointer(At(Kid(k, j)));
    hide ObjectOk;
    LongerPath(G, {At(0)}, {}, At(k), At(Kid(k, j)));
  }

  /** The first cells lead from one to the next. */
  lemma {:induction false} FirstReachable(k: nat)
    requires GraphOk(ChainGraph()) && k <= 8
    ensures Reachable(ChainGraph(), {At(0)}, {}, At(k))
  {
    hide ChainGraph, Reachable, GraphOk, Local;
    if k == 0 {
      CellAt(0);
      RootReachable(ChainGraph(), At(0));
    } else {
      FirstReachable(k - 1);
      LeadsOn(k - 1, 1);
    }
  }

  lemma RootReachable(G: Graph, o: nat)
    requires GraphOk(G) && o in G.objs && Local(G, o)
    ensures Reachable(G, {o}, {}, o)
  {
    hide GraphOk, Local;
    assert Path(G, {o}, {}, [o]);
  }

  /** Cell 8 leads to cell 14, and that to cell 12. */
  lemma CellTwelveReachable()
    ensures GraphOk(ChainGraph()) && Reachable(ChainGraph(), {At(0)}, {}, At(12))
  {
    hide ChainGraph, Reachable, GraphOk;
    ChainGraphOk();
    FirstReachable(8);
    LeadsOn(8, 0);
    LeadsOn(14, 2);
  }

  /**
   A run from the start to the end with a reachable object left unmarked: with three threads, two spaces
   and stacks of two entries, a task drops object 14 between the reading and the resetting of its area.
   */
  lemma MarkingCanLose() returns (run: seq<State>, steps: seq<Step>)
    ensures IsRun(ChainGraph(), Z(), run, steps) && Initial(ChainGraph(), Z(), {}, {At(0)}, run[0]) && Ended(Z(), run[|steps|])
    ensures Reachable(ChainGraph(), {At(0)}, {}, At(12)) && At(12) !in run[|steps|].marked
    ensures run[|steps|].forgotten == {At(14), At(15)} && !LosesNothing(ChainGraph(), run, steps)
  {
    StartIsInitial();
    var s := Finished();
    CellTwelveReachable();
    hide Initial, IsStep, ChainGraph, Loses, Reachable, GraphOk;
    var G := ChainGraph();
    run, steps :| IsRun(G, Z(), run, steps) && run[0] == Start() && run[|steps|] == s;
    assert Ended(Z(), run[|steps|]);
    if LosesNothing(G, run, steps) {
      WithoutLossMarksReachable(G, Z(), {}, {At(0)}, run, steps);
      CellAt(12);
      assert false;
    }
  }

  /** A run from the start to a state in which a task is to be forked, the count allows it, and all markers are in use. */
  lemma ForkCanFail() returns (run: seq<State>, steps: seq<Step>)
    ensures IsRun(ChainGraph(), Z(), run, steps) && Initial(ChainGraph(), Z(), {}, {At(0)}, run[0])
    ensures var s := run[|steps|];
      && |s.markers| == 4 && s.markers[0].phase.Push? && s.markers[0].phase.how == ByFork && s.nInUse != Z().threads
      && (forall i :: 0 <= i < Z().threads ==> s.markers[i].active)
  {
    StartIsInitial();
    var s := Stuck();
    hide Initial, IsStep, ChainGraph;
    run, steps :| IsRun(ChainGraph(), Z(), run, steps) && run[0] == Start() && run[|steps|] == s;
  }
}
