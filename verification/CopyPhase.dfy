/** Every step of the copy phase keeps its invariant; what that means when all tasks are done. */
module CopyPhase {
  import opened Heap
  import opened Moves
  import opened CopySteps

  // ---------- What a scanning task finds ----------

  /** The word w belongs to some object, and to the space it is in. */
  lemma WordOfObject(c: Config, s: State, g: Shape, w: nat, k: nat) returns (a: nat)
    requires SizesOk(c, s) && ShapeOk(c.spaces, g) && BitsOk(s.bits, g)
    requires w in s.bits && k < |c.spaces| && c.spaces[k].bottom <= w < c.spaces[k].top
    ensures a in g && a - 1 <= w < a + g[a].size && g[a].space == k
  {
    a :| a in g && a - 1 <= w < a + g[a].size;
    assert InSpace(c.spaces, a, g[a]);
  }

  /** Once nothing is allocated from the scan's position on, nothing beyond it remains. */
  lemma NothingBeyond(c: Config, s: State, g: Shape, at: nat, w: nat, a: nat)
    requires BitsOk(s.bits, g) && a in g && g[a].space < |c.spaces| && InSpace(c.spaces, a, g[a])
    requires FirstSet(s.bits, at, c.spaces[g[a].space].top, w) && at <= a - 1
    ensures w <= a - 1
  {
    var v: nat := a - 1;
    assert a in g && a - 1 <= v < a + g[a].size;
    assert v in s.bits;
  }

  /** The object found at w begins there and has not moved. */
  lemma FirstObject(c: Config, s: State, g: Shape, at: nat, w: nat, src: nat, upper: nat)
    requires SizesOk(c, s) && ShapeOk(c.spaces, g) && BitsOk(s.bits, g) && src < |c.spaces|
    requires c.spaces[src].bottom <= at && FirstSet(s.bits, at, c.spaces[src].top, w) && w < c.spaces[src].top
    requires forall a :: a in g && g[a].space == src ==> ObjectAt(g, a, at, upper)
    ensures w + 1 in g && g[w + 1].space == src && g[w + 1].final == w + 1
    ensures w + 1 + g[w + 1].size <= c.spaces[src].top
  {
    var a := WordOfObject(c, s, g, w, src);
    assert ObjectAt(g, a, at, upper);
    assert InSpace(c.spaces, a, g[a]);
    NothingBeyond(c, s, g, at, w, a);
  }

  lemma ScanPosition(c: Config, s: State, g: Shape, t: nat)
    requires SizesOk(c, s) && PositionsOk(c, s, g) && IsScanning(c, s, t) && WorkerOk(c, s, t)
    ensures Position(s, s.workers[t].src) == s.workers[t].at
    ensures c.spaces[s.workers[t].src].bottom <= s.searched[s.workers[t].src] <= s.workers[t].at
  {
    assert SpaceAt(c, s, g, s.workers[t].src);
  }

  /** Every object of the source is behind the scan or ahead of it. */
  lemma SourceObjects(c: Config, s: State, g: Shape, t: nat)
    requires SizesOk(c, s) && PositionsOk(c, s, g) && IsScanning(c, s, t) && WorkerOk(c, s, t)
    ensures forall a :: a in g && g[a].space == s.workers[t].src ==>
      ObjectAt(g, a, s.workers[t].at, s.upper[s.workers[t].src])
  {
    ScanPosition(c, s, g, t);
  }

  lemma ScannedObject(c: Config, s: State, g: Shape, t: nat, w: nat)
    requires SizesOk(c, s) && ShapeOk(c.spaces, g) && BitsOk(s.bits, g) && PositionsOk(c, s, g)
    requires ScanningAt(c, s, t, w) && w < c.spaces[s.workers[t].src].top && WorkerOk(c, s, t)
    ensures w + 1 in g && g[w + 1].space == s.workers[t].src && g[w + 1].final == w + 1
    ensures w + 1 + g[w + 1].size <= c.spaces[s.workers[t].src].top
  {
    ScanPosition(c, s, g, t);
    SourceObjects(c, s, g, t);
    FirstObject(c, s, g, s.workers[t].at, w, s.workers[t].src, s.upper[s.workers[t].src]);
  }

  /**
   The first allocated word at or after a scan's position is the length word of an object that
   has not moved: the header the scan reads there is never a tombstone or part of a cell.
   */
  lemma FirstSetIsHeader(c: Config, s: State, g: Shape, t: nat, w: nat)
    requires SizesOk(c, s) && ShapeOk(c.spaces, g) && BitsOk(s.bits, g) && HeadersOk(s.mem, g) && PositionsOk(c, s, g)
    requires ScanningAt(c, s, t, w) && w < c.spaces[s.workers[t].src].top && WorkerOk(c, s, t)
    ensures CellAt(c, s, t, w)
    ensures w + 1 in g && g[w + 1].space == s.workers[t].src && g[w + 1].final == w + 1
    ensures s.mem[w].length == g[w + 1].size && w + 1 + g[w + 1].size <= c.spaces[s.workers[t].src].top
  {
    ScannedObject(c, s, g, t, w);
    HeaderHere(s.mem, g, w + 1);
  }

  lemma HeaderHere(mem: seq<Word>, g: Shape, a: nat)
    requires HeadersOk(mem, g) && a in g && g[a].final == a
    ensures 0 < a <= |mem| && mem[a - 1].Length? && mem[a - 1].length == g[a].size
  {
    assert HeaderOk(g, a, mem[a - 1]);
  }

  // ---------- The other tasks ----------

  /** Task t takes only free spaces, sets limits only to the top and searches only its own spaces. */
  ghost predicate Claims(c: Config, s: State, s': State, t: nat) {
    && SizesOk(c, s) && SizesOk(c, s') && t < |s.workers| == |s'.workers|
    && (forall k :: 0 <= k < |c.spaces| ==>
          && (s'.owner[k] == s.owner[k] || (s.owner[k] == None && s'.owner[k] == Some(t)))
          && (s'.lower[k] == s.lower[k] || s'.lower[k] == c.spaces[k].top)
          && (s'.searched[k] == s.searched[k] || s'.owner[k] == Some(t)))
    && (forall u :: 0 <= u < |s.workers| && u != t ==> s'.workers[u] == s.workers[u])
    && (s.ran ==> s'.ran)
  }

  lemma OtherTask(c: Config, s: State, s': State, t: nat, u: nat)
    requires Claims(c, s, s', t) && u < |s.workers| && u != t && WorkerOk(c, s, u)
    ensures WorkerOk(c, s', u)
  {
  }

  lemma TasksKept(c: Config, s: State, s': State, t: nat)
    requires Claims(c, s, s', t) && WorkersOk(c, s)
    requires WorkerOk(c, s', t) && (s'.ran && !s.ran ==> forall k :: 0 <= k < |c.spaces| ==> s'.owner[k] != None)
    ensures WorkersOk(c, s')
  {
    forall u | 0 <= u < |s'.workers|
      ensures WorkerOk(c, s', u)
    {
      if u != t {
        OtherTask(c, s, s', t, u);
      }
    }
    forall k | 0 <= k < |c.spaces|
      ensures OwnerOk(c, s', k)
    {
      assert OwnerOk(c, s, k);
    }
  }

  // ---------- Steps that move nothing ----------

  /** Only the position in space src has changed, to one the space still satisfies. */
  ghost predicate Advances(c: Config, s: State, s': State, g: Shape, src: nat) {
    && SizesOk(c, s) && SizesOk(c, s') && src < |c.spaces|
    && (forall k :: 0 <= k < |c.spaces| && k != src ==>
          Position(s', k) == Position(s, k) && s'.upper[k] == s.upper[k] && s'.lower[k] == s.lower[k]
          && c.spaces[k].bottom <= s'.searched[k] <= Position(s', k))
    && SpaceAt(c, s', g, src)
  }

  lemma PositionsKept(c: Config, s: State, s': State, g: Shape, src: nat)
    requires Advances(c, s, s', g, src) && PositionsOk(c, s, g)
    requires forall a :: a in g && g[a].space == src ==> ObjectAt(g, a, Position(s', src), s'.upper[src])
    ensures PositionsOk(c, s', g)
  {
    forall k | 0 <= k < |c.spaces|
      ensures SpaceAt(c, s', g, k)
    {
      assert SpaceAt(c, s, g, k);
    }
  }

  lemma StartKeeps(c: Config, mem0: seq<Word>, marked: set<nat>, s: State, s': State, g: Shape, t: nat)
    requires Inv(c, mem0, marked, s, g) && StartRun(c, s, s', t)
    ensures Inv(c, mem0, marked, s', g)
  {
    assert WorkerOk(c, s, t);
    TasksKept(c, s, s', t);
    SamePositions(c, s, s', g);
  }

  lemma EndKeeps(c: Config, mem0: seq<Word>, marked: set<nat>, s: State, s': State, g: Shape, t: nat)
    requires Inv(c, mem0, marked, s, g) && EndRun(s, s', t)
    ensures Inv(c, mem0, marked, s', g)
  {
    assert WorkerOk(c, s, t);
    TasksKept(c, s, s', t);
    SamePositions(c, s, s', g);
  }

  /** Neither the table nor any position has changed. */
  lemma SamePositions(c: Config, s: State, s': State, g: Shape)
    requires SizesOk(c, s) && SizesOk(c, s') && PositionsOk(c, s, g)
    requires s'.upper == s.upper && s'.lower == s.lower && s'.searched == s.searched
    requires forall k :: 0 <= k < |c.spaces| ==> Position(s', k) == Position(s, k)
    ensures PositionsOk(c, s', g)
  {
    forall k | 0 <= k < |c.spaces|
      ensures SpaceAt(c, s', g, k)
    {
      assert SpaceAt(c, s, g, k);
    }
  }

  lemma SkipKeeps(c: Config, mem0: seq<Word>, marked: set<nat>, s: State, s': State, g: Shape, t: nat, src: nat)
    requires Inv(c, mem0, marked, s, g) && SkipSource(c, s, s', t, src)
    ensures Inv(c, mem0, marked, s', g)
  {
    assert WorkerOk(c, s, t);
    TasksKept(c, s, s', t);
    SamePositions(c, s, s', g);
  }

  lemma TakeKeeps(c: Config, mem0: seq<Word>, marked: set<nat>, s: State, s': State, g: Shape, t: nat, src: nat)
    requires Inv(c, mem0, marked, s, g) && TakeSource(c, s, s', t, src)
    ensures Inv(c, mem0, marked, s', g)
  {
    hide HeapOk, PositionsOk;
    TakeTasks(c, s, s', t, src);
    TakePositions(c, s, s', g, t, src);
    hide WorkersOk;
  }

  lemma TakeTasks(c: Config, s: State, s': State, t: nat, src: nat)
    requires SizesOk(c, s) && WorkersOk(c, s) && TakeSource(c, s, s', t, src)
    ensures SizesOk(c, s') && WorkersOk(c, s')
  {
    assert WorkerOk(c, s, t) && OwnerOk(c, s, src);
    TasksKept(c, s, s', t);
  }

  lemma TakePositions(c: Config, s: State, s': State, g: Shape, t: nat, src: nat)
    requires SizesOk(c, s) && PositionsOk(c, s, g) && TakeSource(c, s, s', t, src)
    ensures PositionsOk(c, s', g)
  {
    forall k | 0 <= k < |c.spaces|
      ensures Position(s', k) == Position(s, k) && SpaceAt(c, s', g, k)
    {
      assert SpaceAt(c, s, g, k);
    }
    assert s'.upper == s.upper;
  }

  lemma TopKeeps(c: Config, mem0: seq<Word>, marked: set<nat>, s: State, s': State, g: Shape, t: nat)
    requires Inv(c, mem0, marked, s, g) && ReachTop(c, s, s', t)
    ensures Inv(c, mem0, marked, s', g)
  {
    var src, at := s.workers[t].src, s.workers[t].at;
    assert WorkerOk(c, s, t);
    ScanPosition(c, s, g, t);
    TasksKept(c, s, s', t);
    LeftPositions(c, s, s', g, t, src);
    AllScanned(c, s, g, at, src);
    PositionsKept(c, s, s', g, src);
  }

  /** A scan that finds nothing more has passed every object of its source. */
  lemma AllScanned(c: Config, s: State, g: Shape, at: nat, src: nat)
    requires SizesOk(c, s) && ShapeOk(c.spaces, g) && BitsOk(s.bits, g) && src < |c.spaces|
    requires at >= c.spaces[src].top || FirstSet(s.bits, at, c.spaces[src].top, c.spaces[src].top)
    requires forall a :: a in g && g[a].space == src ==> ObjectAt(g, a, at, s.upper[src])
    ensures forall a :: a in g && g[a].space == src ==> ObjectAt(g, a, c.spaces[src].top, s.upper[src])
  {
    forall a | a in g && g[a].space == src
      ensures ObjectAt(g, a, c.spaces[src].top, s.upper[src])
    {
      assert ObjectAt(g, a, at, s.upper[src]) && InSpace(c.spaces, a, g[a]);
      if at <= a - 1 < c.spaces[src].top {
        NothingBeyond(c, s, g, at, c.spaces[src].top, a);
      }
    }
  }

  /** A task leaving its source leaves the positions of all other spaces. */
  lemma LeftPositions(c: Config, s: State, s': State, g: Shape, t: nat, src: nat)
    requires SizesOk(c, s) && PositionsOk(c, s, g) && IsScanning(c, s, t) && WorkerOk(c, s, t) && src == s.workers[t].src
    requires s' == s.(workers := s.workers[t := Leave(src, s.workers[t].d)])
    ensures Advances(c, s, s', g, src) && Position(s', src) == c.spaces[src].top
  {
    assert SpaceAt(c, s, g, src);
    forall k | 0 <= k < |c.spaces| && k != src
      ensures Position(s', k) == Position(s, k)
      ensures c.spaces[k].bottom <= s'.searched[k] <= Position(s', k)
    {
      assert SpaceAt(c, s, g, k);
    }
  }

  // ---------- Steps that come to a cell ----------

  /** Scanning from w finds every object of the source behind it or ahead of it. */
  lemma SkippedTo(c: Config, s: State, g: Shape, at: nat, w: nat, src: nat, upper: nat)
    requires SizesOk(c, s) && ShapeOk(c.spaces, g) && BitsOk(s.bits, g) && src < |c.spaces|
    requires FirstSet(s.bits, at, c.spaces[src].top, w)
    requires forall a :: a in g && g[a].space == src ==> ObjectAt(g, a, at, upper)
    ensures forall a :: a in g && g[a].space == src ==> ObjectAt(g, a, w, upper)
  {
    forall a | a in g && g[a].space == src
      ensures ObjectAt(g, a, w, upper)
    {
      assert ObjectAt(g, a, at, upper) && InSpace(c.spaces, a, g[a]);
      if at <= a - 1 {
        NothingBeyond(c, s, g, at, w, a);
      }
    }
  }

  /** The space an allocation is tried in belongs to the task, and its limits never go down. */
  lemma LimitsNeverGoDown(c: Config, s: State, g: Shape, t: nat, w: nat, m: nat)
    requires CellAt(c, s, t, w) && CellDestination(c, s, t, w) == Some(m)
    requires PositionsOk(c, s, g) && WorkerOk(c, s, t)
    ensures m <= s.workers[t].src && s.owner[m] == Some(t)
    ensures s.searched[m] <= Limit(c, s, t, w, m)
    ensures s.mem[w].isMutable ==> c.spaces[m].isMutable
  {
    ScanPosition(c, s, g, t);
  }

  lemma NextKeeps(c: Config, mem0: seq<Word>, marked: set<nat>, s: State, s': State, g: Shape, t: nat, w: nat, m: nat)
    requires Inv(c, mem0, marked, s, g) && NextSpace(c, s, s', t, w, m)
    ensures Inv(c, mem0, marked, s', g)
  {
    assert WorkerOk(c, s, t);
    ScannedObject(c, s, g, t, w);
    assert g[w + 1].space == s.workers[t].src;
    NextSearched(c, s, t, w);
    NextTask(c, s, s', t, w, m);
    TasksKept(c, s, s', t);
    NextPositions(c, s, s', g, t, w, m);
  }

  /** The current destination has been searched from its bottom already. */
  lemma NextSearched(c: Config, s: State, t: nat, w: nat)
    requires SizesOk(c, s) && CellAt(c, s, t, w) && WorkerOk(c, s, t)
    requires CellDestination(c, s, t, w) != Some(s.workers[t].src)
    ensures Searched(c, s, t, w) == s.searched
  {
  }

  /** Mutable cells never get an immutable space to go to. */
  lemma NextTask(c: Config, s: State, s': State, t: nat, w: nat, m: nat)
    requires NextSpace(c, s, s', t, w, m) && WorkerOk(c, s, t)
    requires Searched(c, s, t, w) == s.searched && OwnerOk(c, s, m)
    requires s.mem[w].isMutable ==> c.spaces[s.workers[t].src].isMutable
    ensures Claims(c, s, s', t) && WorkerOk(c, s', t)
  {
  }

  lemma NextPositions(c: Config, s: State, s': State, g: Shape, t: nat, w: nat, m: nat)
    requires SizesOk(c, s) && ShapeOk(c.spaces, g) && BitsOk(s.bits, g) && PositionsOk(c, s, g)
    requires NextSpace(c, s, s', t, w, m) && WorkerOk(c, s, t) && Searched(c, s, t, w) == s.searched
    ensures PositionsOk(c, s', g)
  {
    var src := s.workers[t].src;
    ScanPosition(c, s, g, t);
    SourceObjects(c, s, g, t);
    SkippedTo(c, s, g, s.workers[t].at, w, src, s.upper[src]);
    NextElsewhere(c, s, s', g, t, w, m);
    PositionsKept(c, s, s', g, src);
  }

  lemma NextElsewhere(c: Config, s: State, s': State, g: Shape, t: nat, w: nat, m: nat)
    requires NextSpace(c, s, s', t, w, m) && PositionsOk(c, s, g) && WorkerOk(c, s, t)
    requires Searched(c, s, t, w) == s.searched
    ensures Advances(c, s, s', g, s.workers[t].src) && Position(s', s.workers[t].src) == w
  {
    var src := s.workers[t].src;
    ScanPosition(c, s, g, t);
    assert SpaceAt(c, s, g, src);
    forall k | 0 <= k < |c.spaces| && k != src
      ensures Position(s', k) == Position(s, k)
      ensures c.spaces[k].bottom <= s'.searched[k] <= Position(s', k)
    {
      assert SpaceAt(c, s, g, k);
    }
  }

  // ---------- A cell that stays ----------

  lemma StayKeeps(c: Config, mem0: seq<Word>, marked: set<nat>, s: State, s': State, g: Shape, t: nat, w: nat)
    requires Inv(c, mem0, marked, s, g) && StayPut(c, s, s', t, w)
    ensures Inv(c, mem0, marked, s', g)
  {
    assert WorkerOk(c, s, t);
    FirstSetIsHeader(c, s, g, t, w);
    StayTask(c, s, s', t, w);
    TasksKept(c, s, s', t);
    StayPositions(c, s, s', g, t, w);
  }

  lemma StayTask(c: Config, s: State, s': State, t: nat, w: nat)
    requires StayPut(c, s, s', t, w) && WorkerOk(c, s, t)
    ensures Claims(c, s, s', t) && WorkerOk(c, s', t)
  {
  }

  /** With the cell at w retained, everything behind the scan is either moved or retained. */
  lemma PassedCell(c: Config, g: Shape, w: nat, src: nat, upper: nat)
    requires ShapeOk(c.spaces, g) && w + 1 in g && src < |c.spaces| && w + 1 + g[w + 1].size <= c.spaces[src].top
    requires forall a :: a in g && g[a].space == src ==> ObjectAt(g, a, w, upper)
    ensures forall a :: a in g && g[a].space == src ==>
      && ObjectAt(g, a, w + 1 + g[w + 1].size, Min(upper, w)) && ObjectAt(g, a, c.spaces[src].top, Min(upper, w))
  {
    forall a | a in g && g[a].space == src
      ensures ObjectAt(g, a, w + 1 + g[w + 1].size, Min(upper, w)) && ObjectAt(g, a, c.spaces[src].top, Min(upper, w))
    {
      assert ObjectAt(g, a, w, upper) && InSpace(c.spaces, a, g[a]);
      assert a != w + 1 ==> !Overlaps(w + 1, g[w + 1].size, a - 1, g[a].size + 1);
    }
  }

  lemma StayPositions(c: Config, s: State, s': State, g: Shape, t: nat, w: nat)
    requires ShapeOk(c.spaces, g) && BitsOk(s.bits, g) && StayPut(c, s, s', t, w)
    requires PositionsOk(c, s, g) && WorkerOk(c, s, t)
    requires w + 1 in g && s.mem[w].length == g[w + 1].size && g[w + 1].space == s.workers[t].src
    requires w + 1 + g[w + 1].size <= c.spaces[s.workers[t].src].top
    ensures PositionsOk(c, s', g)
  {
    var src := s.workers[t].src;
    ScanPosition(c, s, g, t);
    SourceObjects(c, s, g, t);
    SkippedTo(c, s, g, s.workers[t].at, w, src, s.upper[src]);
    PassedCell(c, g, w, src, s.upper[src]);
    StayElsewhere(c, s, s', g, t, w);
    PositionsKept(c, s, s', g, src);
  }

  lemma StayElsewhere(c: Config, s: State, s': State, g: Shape, t: nat, w: nat)
    requires StayPut(c, s, s', t, w) && PositionsOk(c, s, g) && WorkerOk(c, s, t)
    requires w + 1 in g && s.mem[w].length == g[w + 1].size && g[w + 1].space == s.workers[t].src
    requires w + 1 + g[w + 1].size <= c.spaces[s.workers[t].src].top
    ensures Advances(c, s, s', g, s.workers[t].src)
    ensures Position(s', s.workers[t].src) == w + 1 + g[w + 1].size
      || Position(s', s.workers[t].src) == c.spaces[s.workers[t].src].top
  {
    hide SpacesOk, ObjectsAt;
    var src := s.workers[t].src;
    ScanPosition(c, s, g, t);
    assert SpaceAt(c, s, g, src);
    forall k | 0 <= k < |c.spaces| && k != src
      ensures Position(s', k) == Position(s, k)
      ensures c.spaces[k].bottom <= s'.searched[k] <= Position(s', k)
    {
      assert SpaceAt(c, s, g, k);
    }
  }

  // ---------- A cell that moves ----------

  /** The cell at w is an object of the source that has not moved, and may go to q in space m. */
  ghost predicate Movable(c: Config, s: State, g: Shape, src: nat, w: nat, m: nat, q: nat) {
    && src < |c.spaces| && w < |s.mem| && s.mem[w].Length?
    && w + 1 in g && g[w + 1].final == w + 1 && s.mem[w].length == g[w + 1].size
    && g[w + 1].space == src && w + 1 + g[w + 1].size <= c.spaces[src].top
    && CanMove(c.spaces, |s.mem|, s.bits, g, w + 1, q, m) && Apart(g, w + 1, q)
    && (s.mem[w].isMutable ==> c.spaces[m].isMutable)
  }

  /** The copied cell goes to free memory of an earlier space, or further up in its own. */
  lemma CellCanMove(c: Config, s: State, s': State, g: Shape, t: nat, w: nat, m: nat, q: nat)
    requires CopyCell(c, s, s', t, w, m, q) && ShapeOk(c.spaces, g) && BitsOk(s.bits, g) && HeadersOk(s.mem, g)
    requires PositionsOk(c, s, g) && WorkerOk(c, s, t)
    ensures Movable(c, s, g, s.workers[t].src, w, m, q) && w + 1 in g
  {
    hide ObjectAt, Overlaps, BitsOk, HeaderOk, FinalOk, VisitedFrom;
    FirstSetIsHeader(c, s, g, t, w);
    LimitsNeverGoDown(c, s, g, t, w, m);
    PlaceIsFree(c.spaces, |s.mem|, s.bits, g, w + 1, q, m);
  }

  lemma OnlyMarkedKept(marked: set<nat>, g: Shape, a: nat, p: nat, space: nat)
    requires OnlyMarked(marked, g) && a in g && g[a].final == a && Apart(g, a, p)
    ensures OnlyMarked(marked, MovedShape(g, a, p, space))
  {
    var g' := MovedShape(g, a, p, space);
    forall x | x in g' && g'[x].final == x
      ensures exists o :: o in marked && o in g' && g'[o].final == x
    {
      var from := if x == p + 1 then a else x;
      var o :| o in marked && o in g && g[o].final == from;
      assert o in g' && g'[o].final == x;
    }
  }

  lemma CopyKeepsHeap(c: Config, mem0: seq<Word>, marked: set<nat>, mem: seq<Word>, bits: set<nat>, g: Shape,
                      a: nat, q: nat, m: nat)
    requires HeapOk(c, mem0, marked, mem, bits, g) && CanMove(c.spaces, |mem|, bits, g, a, q, m) && Apart(g, a, q)
    requires a + g[a].size <= |mem| && q + g[a].size < |mem|
    requires mem[a - 1].Length? && mem[a - 1].isMutable ==> c.spaces[m].isMutable
    ensures HeapOk(c, mem0, marked, Moved(mem, a, g[a].size, q), bits + Interval(q, g[a].size + 1),
                   MovedShape(g, a, q, m))
  {
    MoveKeepsShape(c.spaces, g, a, q, m);
    MoveKeepsBits(bits, g, a, q, m);
    MoveKeepsHeaders(mem, g, a, q, m);
    MoveKeepsContents(mem0, marked, mem, g, a, q, m);
    MoveKeepsMutables(c.spaces, mem, g, a, q, m);
    MoveKeepsOutside(c.spaces, mem0, mem, g, a, q, m);
    OnlyMarkedKept(marked, g, a, q, m);
  }

  lemma HeapFacts(c: Config, mem0: seq<Word>, marked: set<nat>, mem: seq<Word>, bits: set<nat>, g: Shape)
    requires HeapOk(c, mem0, marked, mem, bits, g)
    ensures ShapeOk(c.spaces, g) && BitsOk(bits, g) && HeadersOk(mem, g)
  {
  }

  lemma CopyHeap(c: Config, mem0: seq<Word>, marked: set<nat>, s: State, s': State, g: Shape,
                 t: nat, w: nat, m: nat, q: nat)
    requires HeapOk(c, mem0, marked, s.mem, s.bits, g)
    requires CopyCell(c, s, s', t, w, m, q) && Movable(c, s, g, s.workers[t].src, w, m, q)
    ensures HeapOk(c, mem0, marked, s'.mem, s'.bits, MovedShape(g, w + 1, q, m))
  {
    hide CanMove, HeapOk, Apart;
    CopyKeepsHeap(c, mem0, marked, s.mem, s.bits, g, w + 1, q, m);
  }

  lemma CopyKeeps(c: Config, mem0: seq<Word>, marked: set<nat>, s: State, s': State, g: Shape,
                  t: nat, w: nat, m: nat, q: nat) returns (g': Shape)
    requires Inv(c, mem0, marked, s, g) && CopyCell(c, s, s', t, w, m, q)
    ensures Inv(c, mem0, marked, s', g')
  {
    hide HeapOk, PositionsOk, Movable, SpacesOk, WorkerOk, Allocates, ShapeOk, BitsOk, HeadersOk;
    HeapFacts(c, mem0, marked, s.mem, s.bits, g);
    assert WorkerOk(c, s, t) && t < |s.workers| && s.workers[t].Scanning?;
    hide CopyCell, WorkersOk;
    CellCanMove(c, s, s', g, t, w, m, q);
    g' := MovedShape(g, w + 1, q, m);
    CopyHeap(c, mem0, marked, s, s', g, t, w, m, q);
    CopyTasks(c, s, s', t, w, m, q);
    CopyPositions(c, s, s', g, t, w, m, q);
  }

  lemma CopyTask(c: Config, s: State, s': State, t: nat, w: nat, m: nat, q: nat)
    requires CopyCell(c, s, s', t, w, m, q) && WorkerOk(c, s, t)
    ensures Claims(c, s, s', t) && WorkerOk(c, s', t)
  {
  }

  lemma CopyTasks(c: Config, s: State, s': State, t: nat, w: nat, m: nat, q: nat)
    requires CopyCell(c, s, s', t, w, m, q) && WorkersOk(c, s)
    ensures SizesOk(c, s') && WorkersOk(c, s') && |s'.mem| == |s.mem|
  {
    assert WorkerOk(c, s, t);
    CopyTask(c, s, s', t, w, m, q);
    TasksKept(c, s, s', t);
  }

  /** How the objects of the source lie once the cell at w has moved to q and the scan is past it. */
  lemma PassedMoved(c: Config, g: Shape, w: nat, src: nat, upper: nat, upper': nat, q: nat, m: nat)
    requires ShapeOk(c.spaces, g) && w + 1 in g && g[w + 1].final == w + 1 && Apart(g, w + 1, q) && upper' <= upper
    requires forall a :: a in g && g[a].space == src ==> ObjectAt(g, a, w, upper)
    ensures forall a :: a in g && g[a].space == src ==>
      ObjectAt(MovedShape(g, w + 1, q, m), a, w + 1 + g[w + 1].size, upper')
  {
    var g' := MovedShape(g, w + 1, q, m);
    forall a | a in g && g[a].space == src
      ensures ObjectAt(g', a, w + 1 + g[w + 1].size, upper')
    {
      assert ObjectAt(g, a, w, upper);
      assert a != w + 1 ==> !Overlaps(w + 1, g[w + 1].size, a - 1, g[a].size + 1);
    }
  }

  /** Objects of other spaces lie as they did. */
  lemma MovedElsewhere(g: Shape, a: nat, q: nat, m: nat, x: nat, position: nat, upper: nat, upper': nat)
    requires a in g && g[a].final == a && Apart(g, a, q) && x in g && g[x].space != g[a].space && upper' <= upper
    requires ObjectAt(g, x, position, upper)
    ensures ObjectAt(MovedShape(g, a, q, m), x, position, upper')
  {
  }

  /** What the copy changes in the table: the source is scanned up to end, and q is retained in space m. */
  ghost predicate Shifts(c: Config, s: State, s': State, src: nat, end: nat, m: nat, q: nat) {
    && SizesOk(c, s) && SizesOk(c, s') && src < |c.spaces| && m < |c.spaces|
    && s'.lower == s.lower && s'.upper == s.upper[m := Min(s.upper[m], q)]
    && forall k :: 0 <= k < |c.spaces| ==>
      && Position(s', k) == (if k == src then end else Position(s, k))
      && c.spaces[k].bottom <= s'.searched[k] <= Position(s', k) <= c.spaces[k].top
  }

  lemma CopyShifts(c: Config, s: State, s': State, g: Shape, t: nat, w: nat, m: nat, q: nat)
    requires CopyCell(c, s, s', t, w, m, q) && PositionsOk(c, s, g) && WorkerOk(c, s, t)
    requires w + 1 + s.mem[w].length <= c.spaces[s.workers[t].src].top
    ensures Shifts(c, s, s', s.workers[t].src, w + 1 + s.mem[w].length, m, q)
  {
    LimitsNeverGoDown(c, s, g, t, w, m);
    ScanPosition(c, s, g, t);
    forall k | 0 <= k < |c.spaces|
      ensures Position(s', k) == (if k == s.workers[t].src then w + 1 + s.mem[w].length else Position(s, k))
      ensures c.spaces[k].bottom <= s'.searched[k] <= Position(s', k) <= c.spaces[k].top
    {
      assert SpaceAt(c, s, g, k);
    }
  }

  lemma SpaceKept(c: Config, s: State, s': State, g: Shape, a: nat, src: nat, end: nat, m: nat, q: nat, k: nat)
    requires Shifts(c, s, s', src, end, m, q) && k < |c.spaces| && SpaceAt(c, s, g, k)
    requires a in g && Apart(g, a, q)
    ensures SpaceAt(c, s', MovedShape(g, a, q, m), k)
  {
  }

  /** The copy lies wholly on one side of where its space will be scanned from. */
  lemma CopyLies(c: Config, g: Shape, bits: set<nat>, k: nat, lower: nat, q: nat, n: nat)
    requires BitsOk(bits, g) && k < |c.spaces| && Boundary(c, g, k, lower)
    requires FreeRun(bits, q, n) && q + n <= c.spaces[k].top
    ensures q + n <= lower || lower <= q
  {
    if lower != c.spaces[k].top {
      var a := lower + 1;
      assert a in g && a - 1 <= lower < a + g[a].size;
      assert !Within(lower, q, n);
    }
  }

  lemma CopyObject(c: Config, s: State, s': State, g: Shape, t: nat, w: nat, m: nat, q: nat)
    requires CopyCell(c, s, s', t, w, m, q) && PositionsOk(c, s, g) && WorkerOk(c, s, t) && BitsOk(s.bits, g)
    requires w + 1 in g && s.mem[w].length == g[w + 1].size
    requires Shifts(c, s, s', s.workers[t].src, w + 1 + g[w + 1].size, m, q)
    ensures ObjectAt(MovedShape(g, w + 1, q, m), q + 1, Position(s', m), s'.upper[m])
  {
    hide SpacesOk, VisitedFrom, ObjectsAt, BitsOk;
    LimitsNeverGoDown(c, s, g, t, w, m);
    if m != s.workers[t].src {
      assert SpaceAt(c, s, g, m);
      CopyLies(c, g, s.bits, m, s.lower[m], q, s.mem[w].length + 1);
    }
  }

  lemma CopyPositions(c: Config, s: State, s': State, g: Shape, t: nat, w: nat, m: nat, q: nat)
    requires ShapeOk(c.spaces, g) && BitsOk(s.bits, g) && CopyCell(c, s, s', t, w, m, q)
    requires PositionsOk(c, s, g) && WorkerOk(c, s, t) && Movable(c, s, g, s.workers[t].src, w, m, q)
    ensures SizesOk(c, s') && PositionsOk(c, s', MovedShape(g, w + 1, q, m))
  {
    hide ShapeOk, BitsOk, ObjectsAt, SpacesAt, CanMove, Apart, WorkerOk, SpacesOk, Allocates;
    CopyShifts(c, s, s', g, t, w, m, q);
    hide Shifts;
    CopyObject(c, s, s', g, t, w, m, q);
    ScannedFrom(c, s, g, t, w);
    ShiftedSpaces(c, s, s', g, s.workers[t].src, w, m, q);
    ShiftedObjects(c, s, s', g, s.workers[t].src, w, m, q);
  }

  lemma ScannedFrom(c: Config, s: State, g: Shape, t: nat, w: nat)
    requires SizesOk(c, s) && ShapeOk(c.spaces, g) && BitsOk(s.bits, g) && PositionsOk(c, s, g)
    requires ScanningAt(c, s, t, w) && WorkerOk(c, s, t)
    ensures forall a :: a in g && g[a].space == s.workers[t].src ==> ObjectAt(g, a, w, s.upper[s.workers[t].src])
  {
    ScanPosition(c, s, g, t);
    SourceObjects(c, s, g, t);
    SkippedTo(c, s, g, s.workers[t].at, w, s.workers[t].src, s.upper[s.workers[t].src]);
  }

  lemma ShiftedSpaces(c: Config, s: State, s': State, g: Shape, src: nat, w: nat, m: nat, q: nat)
    requires SizesOk(c, s) && PositionsOk(c, s, g) && w + 1 in g && Apart(g, w + 1, q)
    requires Shifts(c, s, s', src, w + 1 + g[w + 1].size, m, q)
    ensures SpacesAt(c, s', MovedShape(g, w + 1, q, m))
  {
    hide SpacesOk, ObjectsAt, Overlaps, SpaceAt;
    var g' := MovedShape(g, w + 1, q, m);
    forall k | 0 <= k < |c.spaces|
      ensures SpaceAt(c, s', g', k)
    {
      SpaceKept(c, s, s', g, w + 1, src, w + 1 + g[w + 1].size, m, q, k);
    }
  }

  lemma ShiftedObject(c: Config, s: State, s': State, g: Shape, src: nat, w: nat, m: nat, q: nat, a: nat)
    requires SizesOk(c, s) && a in g && g[a].space < |c.spaces|
    requires ObjectAt(g, a, Position(s, g[a].space), s.upper[g[a].space])
    requires w + 1 in g && g[w + 1].final == w + 1 && g[w + 1].space == src && g[a].space != src && Apart(g, w + 1, q)
    requires Shifts(c, s, s', src, w + 1 + g[w + 1].size, m, q)
    ensures ObjectAt(MovedShape(g, w + 1, q, m), a, Position(s', g[a].space), s'.upper[g[a].space])
  {
    hide Apart, ObjectAt;
    var k := g[a].space;
    MovedElsewhere(g, w + 1, q, m, a, Position(s, k), s.upper[k], s'.upper[k]);
  }

  lemma ShiftedObjects(c: Config, s: State, s': State, g: Shape, src: nat, w: nat, m: nat, q: nat)
    requires SizesOk(c, s) && ShapeOk(c.spaces, g) && PositionsOk(c, s, g)
    requires w + 1 in g && g[w + 1].final == w + 1 && g[w + 1].space == src && Apart(g, w + 1, q)
    requires Shifts(c, s, s', src, w + 1 + g[w + 1].size, m, q)
    requires ObjectAt(MovedShape(g, w + 1, q, m), q + 1, Position(s', m), s'.upper[m])
    requires forall a :: a in g && g[a].space == src ==> ObjectAt(g, a, w, s.upper[src])
    ensures ObjectsAt(c, s', MovedShape(g, w + 1, q, m))
  {
    hide SpaceAt, Apart, SpacesOk, ObjectAt, ShapeOk;
    var g' := MovedShape(g, w + 1, q, m);
    PassedMoved(c, g, w, src, s.upper[src], s'.upper[src], q, m);
    forall a | a in g'
      ensures g'[a].space < |c.spaces| && ObjectAt(g', a, Position(s', g'[a].space), s'.upper[g'[a].space])
    {
      if a in g && a != q + 1 && g[a].space != src {
        ShiftedObject(c, s, s', g, src, w, m, q, a);
      }
    }
  }
}
