/**
 The copy phase as steps of any number of tasks over shared memory. A task owns the spaces it
 copies from and into, so one turn of its inner loop touches nothing another task may use.
 */
module CopySteps {
  import opened Heap
  import opened Moves

  /** What does not change during the phase: the table of spaces and the immutable words marked in each. */
  datatype Config = Config(spaces: seq<Space>, iMarked: seq<nat>)

  /** The spaces a task is currently copying mutable and immutable cells into. */
  datatype Dests = Dests(mutableDest: Option<nat>, immutableDest: Option<nat>)

  /** A task between runs, about to consider space i - 1, or scanning a space from address at. */
  datatype Worker =
    | Idle
    | Choosing(i: nat, d: Dests)
    | Scanning(src: nat, at: nat, d: Dests)

  datatype State = State(
    mem: seq<Word>,
    bits: set<nat>,             // allocated words
    upper: seq<nat>,            // upperAllocPtr of each space
    lower: seq<nat>,            // fullGCLowerLimit of each space
    owner: seq<Option<nat>>,    // spaceOwner of each space
    searched: seq<nat>,         // the limit last used for allocation in each space
    workers: seq<Worker>,
    ran: bool)                  // some task has run to its end

  function Min(a: nat, b: nat): nat {
    if a < b then a else b
  }

  predicate SizesOk(c: Config, s: State) {
    && |c.spaces| == |c.iMarked| == |s.owner| == |s.lower| == |s.upper| == |s.searched|
    && SpacesOk(c.spaces, |s.mem|)
  }

  // ---------- The steps ----------

  predicate StartRun(c: Config, s: State, s': State, t: nat) {
    && t < |s.workers| && s.workers[t].Idle?
    && s' == s.(workers := s.workers[t := Choosing(|c.spaces|, Dests(None, None))])
  }

  /** A task whose run has considered every space is done. */
  predicate EndRun(s: State, s': State, t: nat) {
    && t < |s.workers| && s.workers[t].Choosing? && s.workers[t].i == 0
    && s' == s.(workers := s.workers[t := Idle], ran := true)
  }

  /** Task t turns to space src. */
  predicate Considers(c: Config, s: State, t: nat, src: nat) {
    SizesOk(c, s) && t < |s.workers| && s.workers[t].Choosing? && s.workers[t].i == src + 1 && src < |c.spaces|
  }

  /** Take a space nobody owns, or one of the task's own, as the next source. */
  predicate TakeSource(c: Config, s: State, s': State, t: nat, src: nat) {
    && Considers(c, s, t, src)
    && (s.owner[src] == None || s.owner[src] == Some(t))
    && s' == s.(owner := s.owner[src := Some(t)],
                lower := s.lower[src := c.spaces[src].top],
                workers := s.workers[t := Scanning(src, s.lower[src], s.workers[t].d)])
  }

  /** Pass over a space another task owns. */
  predicate SkipSource(c: Config, s: State, s': State, t: nat, src: nat) {
    && Considers(c, s, t, src)
    && s.owner[src] != None && s.owner[src] != Some(t)
    && s' == s.(workers := s.workers[t := Choosing(src, s.workers[t].d)])
  }

  /** Leaving a source: it is no longer a destination. */
  function Leave(src: nat, d: Dests): Worker {
    Choosing(src, Dests(if d.mutableDest == Some(src) then None else d.mutableDest,
                        if d.immutableDest == Some(src) then None else d.immutableDest))
  }

  /** The first allocated word at or after at, or top if there is none. */
  predicate FirstSet(bits: set<nat>, at: nat, top: nat, w: nat) {
    && at <= w <= top
    && (forall v :: v in bits && at <= v ==> w <= v || top <= v)
    && (w < top ==> w in bits)
  }

  predicate IsScanning(c: Config, s: State, t: nat) {
    SizesOk(c, s) && t < |s.workers| && s.workers[t].Scanning? && s.workers[t].src < |c.spaces|
  }

  /** The scan of task t has come to word w. */
  predicate ScanningAt(c: Config, s: State, t: nat, w: nat) {
    IsScanning(c, s, t) && FirstSet(s.bits, s.workers[t].at, c.spaces[s.workers[t].src].top, w)
  }

  /** Nothing further is marked in the source. */
  predicate ReachTop(c: Config, s: State, s': State, t: nat) {
    && IsScanning(c, s, t)
    && (s.workers[t].at >= c.spaces[s.workers[t].src].top || ScanningAt(c, s, t, c.spaces[s.workers[t].src].top))
    && s' == s.(workers := s.workers[t := Leave(s.workers[t].src, s.workers[t].d)])
  }

  /** A cell: the header at w, which must be a length word. */
  predicate CellAt(c: Config, s: State, t: nat, w: nat) {
    ScanningAt(c, s, t, w) && w < c.spaces[s.workers[t].src].top && s.mem[w].Length?
  }

  /** Where a cell should go: immutable cells go with the mutable ones until they have a place of their own. */
  function Destination(d: Dests, isMutable: bool): Option<nat> {
    if isMutable || d.immutableDest == None then d.mutableDest else d.immutableDest
  }

  /** Where the cell that task t has come to should go. */
  function CellDestination(c: Config, s: State, t: nat, w: nat): Option<nat>
    requires CellAt(c, s, t, w)
  {
    Destination(s.workers[t].d, s.mem[w].isMutable)
  }

  /** The lowest place to look at in space m: above the cell when it moves within its own space. */
  function Limit(c: Config, s: State, t: nat, w: nat, m: nat): nat
    requires CellAt(c, s, t, w) && m < |c.spaces|
  {
    if m == s.workers[t].src then w + s.mem[w].length + 1 else c.spaces[m].bottom
  }

  predicate FreeRun(bits: set<nat>, p: nat, n: nat) {
    forall w :: w in bits ==> !Within(w, p, n)
  }

  /** What allocation of n words in a space promises; the search through the bitmap meets it. */
  predicate Allocates(space: Space, bits: set<nat>, limit: nat, n: nat, p: Option<nat>) {
    match p
    case Some(q) =>
      && limit <= q && q + n <= space.top && FreeRun(bits, q, n)
      && (forall r: nat :: q < r && r + n <= space.top ==> !FreeRun(bits, r, n))
    case None =>
      forall r: nat :: limit < r && r + n <= space.top ==> !FreeRun(bits, r, n)
  }

  /** The result of the allocation tried for the cell whose header is at w. */
  predicate Tries(c: Config, s: State, t: nat, w: nat, p: Option<nat>) {
    && CellAt(c, s, t, w)
    && match CellDestination(c, s, t, w)
       case None => p == None
       case Some(m) =>
         m < |c.spaces| && Allocates(c.spaces[m], s.bits, Limit(c, s, t, w, m), s.mem[w].length + 1, p)
  }

  /** The limits last used, after that try. */
  function Searched(c: Config, s: State, t: nat, w: nat): seq<nat>
    requires CellAt(c, s, t, w)
  {
    match CellDestination(c, s, t, w)
    case None => s.searched
    case Some(m) => if m < |c.spaces| then s.searched[m := Limit(c, s, t, w, m)] else s.searched
  }

  /** The cell is copied and forwarded, and the scan goes on after it. */
  predicate CopyCell(c: Config, s: State, s': State, t: nat, w: nat, m: nat, q: nat) {
    && Tries(c, s, t, w, Some(q)) && CellDestination(c, s, t, w) == Some(m)
    && w + 1 + s.mem[w].length <= |s.mem| && q + s.mem[w].length < |s.mem|
    && s' == s.(mem := Moved(s.mem, w + 1, s.mem[w].length, q),
                bits := s.bits + Interval(q, s.mem[w].length + 1),
                upper := s.upper[m := Min(s.upper[m], q)],
                searched := Searched(c, s, t, w),
                workers := s.workers[t := Scanning(s.workers[t].src, w + s.mem[w].length + 1, s.workers[t].d)])
  }

  /** Making space m the place for mutable or for immutable cells. */
  function NewDest(d: Dests, isMutable: bool, m: nat): Dests {
    if isMutable then d.(mutableDest := Some(m)) else d.(immutableDest := Some(m))
  }

  function CurrentDest(d: Dests, isMutable: bool): Option<nat> {
    if isMutable then d.mutableDest else d.immutableDest
  }

  /** A space nobody owns that takes cells of this kind. */
  predicate Open(c: Config, s: State, isMutable: bool, m: nat)
    requires SizesOk(c, s) && m < |c.spaces|
  {
    c.spaces[m].isMutable == isMutable && !c.spaces[m].isAllocation && s.owner[m] == None
  }

  /** Where the search for a further space begins: after the current one. */
  function After(current: Option<nat>): nat {
    match current
    case None => 0
    case Some(m) => m + 1
  }

  /**
   The space FindNextSpace answers: the first open one beyond the current one, or the source if it comes first.
   Owners are never given up, so a space found owned earlier in the search still has an owner.
   */
  predicate Suits(c: Config, s: State, src: nat, current: Option<nat>, isMutable: bool, m: nat)
    requires SizesOk(c, s)
  {
    && After(current) <= m <= src < |c.spaces|
    && (m == src || Open(c, s, isMutable, m))
    && (forall k :: After(current) <= k < m ==> !Open(c, s, isMutable, k))
  }

  /**
   No room and the source is not itself the destination: take the next space in the table that
   is of the right kind and has no owner, or the source itself, and try the cell again.
   */
  predicate NextSpace(c: Config, s: State, s': State, t: nat, w: nat, m: nat) {
    && Tries(c, s, t, w, None) && CellDestination(c, s, t, w) != Some(s.workers[t].src)
    && Suits(c, s, s.workers[t].src, CurrentDest(s.workers[t].d, s.mem[w].isMutable), s.mem[w].isMutable, m)
    && s' == s.(owner := s.owner[m := Some(t)],
                searched := Searched(c, s, t, w),
                workers := s.workers[t :=
                  Scanning(s.workers[t].src, w, NewDest(s.workers[t].d, s.mem[w].isMutable, m))])
  }

  /**
   No room in the source itself: the cell stays, and the scan stops unless immutable cells may still
   be moved out of a mutable space.
   */
  predicate StayPut(c: Config, s: State, s': State, t: nat, w: nat) {
    && Tries(c, s, t, w, None) && CellDestination(c, s, t, w) == Some(s.workers[t].src)
    && s' == s.(upper := s.upper[s.workers[t].src := Min(s.upper[s.workers[t].src], w)],
                searched := Searched(c, s, t, w),
                workers := s.workers[t :=
                  if !c.spaces[s.workers[t].src].isMutable || c.iMarked[s.workers[t].src] == 0
                  then Leave(s.workers[t].src, s.workers[t].d)
                  else Scanning(s.workers[t].src, w + s.mem[w].length + 1, s.workers[t].d)])
  }

  datatype Step =
    | Start(t: nat) | End(t: nat) | Take(t: nat, src: nat) | Skip(t: nat, src: nat) | Top(t: nat)
    | Copy(t: nat, w: nat, m: nat, q: nat) | Next(t: nat, w: nat, m: nat) | Stay(t: nat, w: nat)

  predicate IsStep(c: Config, s: State, s': State, step: Step) {
    match step
    case Start(t) => StartRun(c, s, s', t)
    case End(t) => EndRun(s, s', t)
    case Take(t, src) => TakeSource(c, s, s', t, src)
    case Skip(t, src) => SkipSource(c, s, s', t, src)
    case Top(t) => ReachTop(c, s, s', t)
    case Copy(t, w, m, q) => CopyCell(c, s, s', t, w, m, q)
    case Next(t, w, m) => NextSpace(c, s, s', t, w, m)
    case Stay(t, w) => StayPut(c, s, s', t, w)
  }

  // ---------- The invariant ----------

  /** How far a space has been scanned: its owner's position, or where scanning will begin. */
  function Position(s: State, k: nat): nat
    requires k < |s.owner| == |s.lower|
  {
    match s.owner[k]
    case Some(t) =>
      if t < |s.workers| && s.workers[t].Scanning? && s.workers[t].src == k then s.workers[t].at else s.lower[k]
    case None => s.lower[k]
  }

  /** The position in a space is between objects; what lies beyond has not moved; what stays behind is retained. */
  predicate ObjectAt(g: Shape, a: nat, position: nat, upper: nat)
    requires a in g
  {
    && (a + g[a].size <= position || position <= a - 1)
    && (position <= a - 1 ==> g[a].final == a)
    && (g[a].final == a ==> upper <= a - 1 || position <= a - 1)
  }

  /** A place where an object begins in space k, or the top of the space. */
  predicate Boundary(c: Config, g: Shape, k: nat, w: nat)
    requires k < |c.spaces|
  {
    w == c.spaces[k].top || (w + 1 in g && g[w + 1].space == k)
  }

  predicate SpaceAt(c: Config, s: State, g: Shape, k: nat)
    requires SizesOk(c, s) && k < |c.spaces|
  {
    && Boundary(c, g, k, s.upper[k]) && Boundary(c, g, k, s.lower[k])
    && c.spaces[k].bottom <= s.searched[k] <= Position(s, k) <= c.spaces[k].top
  }

  ghost predicate ObjectsAt(c: Config, s: State, g: Shape)
    requires SizesOk(c, s)
  {
    forall a :: a in g ==> g[a].space < |c.spaces| && ObjectAt(g, a, Position(s, g[a].space), s.upper[g[a].space])
  }

  ghost predicate SpacesAt(c: Config, s: State, g: Shape)
    requires SizesOk(c, s)
  {
    forall k :: 0 <= k < |c.spaces| ==> SpaceAt(c, s, g, k)
  }

  ghost predicate PositionsOk(c: Config, s: State, g: Shape)
    requires SizesOk(c, s)
  {
    ObjectsAt(c, s, g) && SpacesAt(c, s, g)
  }

  /**
   A destination belongs to the task, comes no later than the task's source, holds mutable cells only
   if it may, and is searched from its bottom unless it is the source itself.
   */
  predicate DestOk(c: Config, s: State, t: nat, dest: Option<nat>, bound: nat, isMutable: bool)
    requires SizesOk(c, s)
  {
    dest.Some? ==>
      && dest.value < bound && dest.value < |c.spaces| && s.owner[dest.value] == Some(t)
      && (isMutable ==> c.spaces[dest.value].isMutable)
  }

  /** A destination other than the source has only been searched from its bottom. */
  predicate FromBottom(c: Config, s: State, dest: Option<nat>, src: nat)
    requires SizesOk(c, s)
  {
    dest.Some? && dest.value < |c.spaces| && dest.value < src ==> s.searched[dest.value] == c.spaces[dest.value].bottom
  }

  predicate DestsOk(c: Config, s: State, t: nat, d: Dests, bound: nat, src: nat)
    requires SizesOk(c, s)
  {
    && DestOk(c, s, t, d.mutableDest, bound, true) && FromBottom(c, s, d.mutableDest, src)
    && DestOk(c, s, t, d.immutableDest, bound, false) && FromBottom(c, s, d.immutableDest, src)
  }

  /** From space i on, every space has an owner, and those of task t have been scanned or are being scanned. */
  predicate VisitedFrom(c: Config, s: State, t: nat, i: nat)
    requires SizesOk(c, s)
  {
    forall k :: i <= k < |c.spaces| ==>
      s.owner[k] != None && (s.owner[k] == Some(t) ==> s.lower[k] == c.spaces[k].top)
  }

  predicate WorkerOk(c: Config, s: State, t: nat)
    requires SizesOk(c, s) && t < |s.workers|
  {
    match s.workers[t]
    case Idle => forall k :: 0 <= k < |c.spaces| && s.owner[k] == Some(t) ==> s.lower[k] == c.spaces[k].top
    case Choosing(i, d) => i <= |c.spaces| && DestsOk(c, s, t, d, i, i) && VisitedFrom(c, s, t, i)
    case Scanning(src, at, d) =>
      src < |c.spaces| && s.owner[src] == Some(t) && DestsOk(c, s, t, d, src + 1, src) && VisitedFrom(c, s, t, src)
  }

  /** A space has an owner among the tasks or is untouched; once some task has finished, all have owners. */
  predicate OwnerOk(c: Config, s: State, k: nat)
    requires SizesOk(c, s) && k < |c.spaces|
  {
    match s.owner[k]
    case Some(t) => t < |s.workers|
    case None => s.searched[k] == c.spaces[k].bottom && !s.ran
  }

  ghost predicate WorkersOk(c: Config, s: State)
    requires SizesOk(c, s)
  {
    && (forall t :: 0 <= t < |s.workers| ==> WorkerOk(c, s, t))
    && (forall k :: 0 <= k < |c.spaces| ==> OwnerOk(c, s, k))
  }

  /** Every object in its final place holds a marked object. */
  ghost predicate OnlyMarked(marked: set<nat>, g: Shape) {
    forall a :: a in g && g[a].final == a ==> exists o :: o in marked && o in g && g[o].final == a
  }

  ghost predicate HeapOk(c: Config, mem0: seq<Word>, marked: set<nat>, mem: seq<Word>, bits: set<nat>, g: Shape) {
    && ShapeOk(c.spaces, g) && BitsOk(bits, g) && HeadersOk(mem, g)
    && MutablesOk(c.spaces, mem, g) && OutsideKept(c.spaces, mem0, mem)
    && ContentsOk(mem0, marked, mem, g) && OnlyMarked(marked, g)
  }

  ghost predicate Inv(c: Config, mem0: seq<Word>, marked: set<nat>, s: State, g: Shape) {
    && SizesOk(c, s) && |s.mem| == |mem0|
    && HeapOk(c, mem0, marked, s.mem, s.bits, g)
    && PositionsOk(c, s, g) && WorkersOk(c, s)
  }
}
