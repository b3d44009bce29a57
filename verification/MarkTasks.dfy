/** Marking by several tasks that fork, steal from each other's stacks and may scan an object twice. */
module MarkTasks {
  import opened Heap
  import opened MarkGraph

  /** How an object is to be pushed: not settled yet, on the stack, or by forking a task. */
  datatype How = Unsettled | OnStack | ByFork

  /** How far the main thread is in taking the area of a space: each limit is read and reset on its own. */
  datatype Stage =
    | Tested(start: nat)                                  // the start limit read, to see if there is an area
    | Found                                               // there is one
    | HasStart(start: nat)                                // the start limit read
    | HasBoth(start: nat, end: nat)                       // both limits read
    | HalfReset(start: nat, end: nat)                     // the start limit reset as well

  /** What a marker is doing. Zero stands for no object. */
  datatype Phase =
    | Resting                                             // no task is using it
    | Waiting(obj: nat)                                   // forked to scan obj, not yet begun
    | Feeding                                             // the main thread, between roots
    | Take(m: nat, stage: Stage)                          // the main thread, taking the area of space m
    | Leaving(count: int)                                 // the main thread, having read nInUse to lower it
    | Looking                                             // a forked task, between scans
    | Scan(cur: nat, pos: nat, first: nat, second: nat)   // at the word pos of cur
    | Push(cur: nat, obj: nat, first: nat, how: How)      // about to push obj
    | Widening(cur: nat, obj: nat, first: nat, k: nat)    // start of the area of space k widened for obj, end not yet
    | Next(cur: nat, first: nat)                          // anything to be pushed has been
    | Popped(obj: nat)                                    // obj read from the stack, its slot not yet cleared

  datatype Marker = Marker(active: bool, slots: seq<nat>, msp: nat, phase: Phase)

  datatype State = State(
    marked: set<nat>,
    markers: seq<Marker>,     // those of the task farm's threads, and last the rescanner's own
    nInUse: int,              // below zero stands for a wrapped unsigned number
    lost: int,                // changes of nInUse overwritten in this round; not part of the source's state
    main: nat,                // the marker the main thread is using
    next: nat,                // the space the main thread comes to next in this round
    rescan: bool,             // whether a further round is needed
    starts: seq<nat>,         // fullGCRescanStart and fullGCRescanEnd of each space
    ends: seq<nat>,
    perms: set<nat>,          // permanent objects still to be scanned
    roots: set<nat>,          // roots still to be marked
    again: set<nat>,          // objects of an area being rescanned that are still to be looked at
    visited: set<nat>,        // permanent objects whose scan has begun
    forgotten: set<nat>)      // objects dropped that are in no area; not part of the source's state

  /** The number of threads and the size of a stack. */
  datatype Setup = Setup(threads: nat, stackSize: nat)

  /** The objects of an area that have any words; the others need no scan. */
  function Region(G: Graph, start: nat, end: nat): set<nat> {
    set o | o in G.objs && start < o <= end && Local(G, o)
  }

  predicate IsAt(s: State, t: nat, phase: Phase) {
    t < |s.markers| && s.markers[t].phase == phase
  }

  /** Marker t goes on to a phase. */
  function Goto(s: State, t: nat, phase: Phase): seq<Marker>
    requires t < |s.markers|
  {
    s.markers[t := s.markers[t].(phase := phase)]
  }

  /** Where a scan returns to. */
  function Home(s: State, t: nat): Phase {
    if t == s.main then Feeding else Looking
  }

  /** Begin scanning an object. */
  function Begin(o: nat): Phase {
    Scan(o, o, 0, 0)
  }

  // ---------- Areas ----------

  /** The object at o lies between those limits the main thread has read. */
  predicate Within(G: Graph, stage: Stage, o: nat)
    requires ObjectOk(G, o)
  {
    match stage
    case HasStart(start) => start < o
    case HasBoth(start, end) => start < o && o + Size(G, o) <= end
    case HalfReset(start, end) => start < o && o + Size(G, o) <= end
    case _ => true
  }

  /** Marker t is including in the area of space m an object that does not lie between the limits read. */
  predicate WidensBeyond(G: Graph, s: State, t: nat, m: nat, stage: Stage) {
    && t < |s.markers| && s.markers[t].phase.Widening? && s.markers[t].phase.k == m
    && ObjectOk(G, s.markers[t].phase.obj) && !Within(G, stage, s.markers[t].phase.obj)
  }

  /** The objects being included in the area of space m, with both limits read, that do not lie between them. */
  function Beyond(G: Graph, s: State, m: nat, start: nat, end: nat): set<nat> {
    set t: nat | t < |s.markers| && WidensBeyond(G, s, t, m, HasBoth(start, end)) :: s.markers[t].phase.obj
  }

  /** Marker t is including an object in the area that the main thread is taking, past the limits read. */
  predicate Slips(G: Graph, s: State, t: nat) {
    s.main < |s.markers| && s.markers[s.main].phase.Take? && WidensBeyond(G, s, t, s.markers[s.main].phase.m, s.markers[s.main].phase.stage)
  }

  // ---------- The main thread ----------

  predicate FeedPermanent(G: Graph, s: State, s': State, o: nat) {
    && IsAt(s, s.main, Feeding) && o in s.perms && ObjectOk(G, o)
    && s' == s.(perms := s.perms - {o}, visited := s.visited + {o},
                markers := Goto(s, s.main, if IsByte(G, o) then Feeding else Begin(o)))
  }

  predicate FeedRoot(G: Graph, s: State, s': State, o: nat) {
    && IsAt(s, s.main, Feeding) && o in s.roots && ObjectOk(G, o)
    && s' == (if !Local(G, o) || o in s.marked then s.(roots := s.roots - {o})
              else s.(roots := s.roots - {o}, marked := s.marked + {o},
                      markers := Goto(s, s.main, if IsByte(G, o) then Feeding else Begin(o))))
  }

  /** An object of an area being rescanned is scanned if it is marked. */
  predicate FeedAgain(G: Graph, s: State, s': State, o: nat) {
    && IsAt(s, s.main, Feeding) && o in s.again && ObjectOk(G, o)
    && s' == s.(again := s.again - {o},
                markers := Goto(s, s.main, if o !in s.marked || IsByte(G, o) then Feeding else Begin(o)))
  }

  /** The main thread has marked all the roots. It leaves its marker under the lock of the stacks. */
  predicate EndRoots(z: Setup, s: State, s': State) {
    && s.main < z.threads && IsAt(s, s.main, Feeding) && s.perms == {} && s.roots == {} && s.again == {}
    && s' == s.(nInUse := s.nInUse - 1, main := z.threads, rescan := true,
                markers := s.markers[s.main := s.markers[s.main].(active := false, phase := Resting)])
  }

  predicate AllRest(s: State) {
    forall t :: 0 <= t < |s.markers| ==> s.markers[t].phase == Resting
  }

  /** All tasks are done and the last round found something, so the main thread starts another with its own marker. */
  predicate BeginRescan(z: Setup, s: State, s': State) {
    && AllRest(s) && z.threads < |s.markers| && s.main == z.threads && s.rescan
    && s' == s.(nInUse := 1, lost := 0, next := 0, rescan := false, markers := Goto(s, z.threads, Feeding))
  }

  /** Of the next space the main thread reads the start limit. It takes no lock for any of this. */
  predicate TestStart(G: Graph, z: Setup, s: State, s': State) {
    && s.main == z.threads && IsAt(s, s.main, Feeding) && s.again == {} && s.next < |G.spaces| == |s.starts| == |s.ends|
    && s' == s.(markers := Goto(s, s.main, Take(s.next, Tested(s.starts[s.next]))))
  }

  /** It reads the end limit, and passes on to the space after if there is no area. */
  predicate TestEnd(s: State, s': State, m: nat, start: nat) {
    && IsAt(s, s.main, Take(m, Tested(start))) && m < |s.ends|
    && s' == (if start < s.ends[m] then s.(markers := Goto(s, s.main, Take(m, Found)))
              else s.(next := m + 1, markers := Goto(s, s.main, Feeding)))
  }

  predicate ReadStart(s: State, s': State, m: nat) {
    && IsAt(s, s.main, Take(m, Found)) && m < |s.starts|
    && s' == s.(markers := Goto(s, s.main, Take(m, HasStart(s.starts[m]))))
  }

  predicate ReadEnd(s: State, s': State, m: nat, start: nat) {
    && IsAt(s, s.main, Take(m, HasStart(start))) && m < |s.ends|
    && s' == s.(markers := Goto(s, s.main, Take(m, HasBoth(start, s.ends[m]))))
  }

  predicate ResetStart(G: Graph, s: State, s': State, m: nat, start: nat, end: nat) {
    && IsAt(s, s.main, Take(m, HasBoth(start, end))) && m < |G.spaces| == |s.starts|
    && s' == s.(starts := s.starts[m := G.spaces[m].top], forgotten := s.forgotten + Beyond(G, s, m, start, end),
                markers := Goto(s, s.main, Take(m, HalfReset(start, end))))
  }

  /** After resetting the end limit it goes through what lay between the limits read. */
  predicate ResetEnd(G: Graph, s: State, s': State, m: nat, start: nat, end: nat) {
    && IsAt(s, s.main, Take(m, HalfReset(start, end))) && m < |G.spaces| == |s.ends|
    && s' == s.(ends := s.ends[m := G.spaces[m].bottom], again := Region(G, start, end), next := m + 1, rescan := true,
                markers := Goto(s, s.main, Feeding))
  }

  /** When all spaces have been seen nInUse is lowered, without the lock: it is read and then written. */
  predicate ReadCount(G: Graph, z: Setup, s: State, s': State) {
    && s.main == z.threads && IsAt(s, s.main, Feeding) && s.again == {} && s.next == |G.spaces|
    && s' == s.(markers := Goto(s, s.main, Leaving(s.nInUse)))
  }

  /** Another marker is about to change nInUse. */
  predicate OtherCounts(s: State) {
    exists t :: 0 <= t < |s.markers| && t != s.main
                && (s.markers[t].phase.Looking? || (s.markers[t].phase.Push? && s.markers[t].phase.how.ByFork?))
  }

  /**
   Changes made since it was read are overwritten. If the value is written while another marker, with the lock,
   is changing nInUse, it is itself overwritten.
   */
  predicate WriteCount(s: State, s': State, count: int, overwritten: bool) {
    && IsAt(s, s.main, Leaving(count)) && (overwritten ==> OtherCounts(s))
    && var n := if overwritten then s.nInUse else count - 1;
      s' == s.(nInUse := n, lost := s.nInUse - 1 - n,
               markers := s.markers[s.main := s.markers[s.main].(active := false, phase := Resting)])
  }

  // ---------- Forked tasks ----------

  predicate BeginTask(s: State, s': State, t: nat, obj: nat) {
    && IsAt(s, t, Waiting(obj))
    && s' == s.(markers := Goto(s, t, Begin(obj)))
  }

  /** A task takes an object from any slot of a stack of the farm's threads, leaving it there. */
  predicate Steal(z: Setup, s: State, s': State, t: nat, v: nat, j: nat) {
    && IsAt(s, t, Looking) && v < z.threads && v < |s.markers| && j < |s.markers[v].slots| && s.markers[v].slots[j] != 0
    && s' == s.(markers := Goto(s, t, Begin(s.markers[v].slots[j])))
  }

  /** A task that has found nothing to steal is done. */
  predicate Finish(s: State, s': State, t: nat) {
    && IsAt(s, t, Looking)
    && s' == s.(nInUse := s.nInUse - 1,
                markers := s.markers[t := s.markers[t].(active := false, phase := Resting)])
  }

  // ---------- Scanning ----------

  predicate AtWord(G: Graph, s: State, t: nat) {
    && t < |s.markers| && s.markers[t].phase.Scan? && ObjectOk(G, s.markers[t].phase.cur)
    && s.markers[t].phase.cur <= s.markers[t].phase.pos
    && s.markers[t].phase.pos < s.markers[t].phase.cur + Size(G, s.markers[t].phase.cur)
  }

  /** The address in the word being looked at needs a scan: a local object with fields, seen unmarked. */
  predicate NeedsScan(G: Graph, s: State, v: Word) {
    v.Pointer? && v.addr in G.objs && ObjectOk(G, v.addr) && Local(G, v.addr) && v.addr !in s.marked && !IsByte(G, v.addr)
  }

  /** The word needs no scan; if it is the address of a local byte object that object is marked. */
  predicate SkipWord(G: Graph, s: State, s': State, t: nat) {
    && AtWord(G, s, t) && !NeedsScan(G, s, G.mem[s.markers[t].phase.pos])
    && s' == s.(marked := s.marked + BytesAt(G, G.mem[s.markers[t].phase.pos]),
                markers := Goto(s, t, s.markers[t].phase.(pos := s.markers[t].phase.pos + 1)))
  }

  /** The local byte object a word is the address of, if any. */
  function BytesAt(G: Graph, v: Word): set<nat> {
    if v.Pointer? && v.addr in G.objs && ObjectOk(G, v.addr) && Local(G, v.addr) && IsByte(G, v.addr) then {v.addr} else {}
  }

  /** The word's object is the first or the second to be scanned, or else the scan of this object is broken off. */
  function Noted(p: Phase, o: nat): Phase
    requires p.Scan?
  {
    if p.first == 0 then p.(first := o, pos := p.pos + 1)
    else if p.second == 0 then p.(second := o, pos := p.pos + 1)
    else Push(p.cur, p.cur, p.first, Unsettled)
  }

  predicate NoteWord(G: Graph, s: State, s': State, t: nat) {
    && AtWord(G, s, t) && NeedsScan(G, s, G.mem[s.markers[t].phase.pos])
    && s' == s.(markers := Goto(s, t, Noted(s.markers[t].phase, G.mem[s.markers[t].phase.pos].addr)))
  }

  /** All words have been looked at: mark the second object noted and push it. */
  predicate EndWords(G: Graph, s: State, s': State, t: nat) {
    && t < |s.markers| && s.markers[t].phase.Scan? && ObjectOk(G, s.markers[t].phase.cur)
    && s.markers[t].phase.pos == s.markers[t].phase.cur + Size(G, s.markers[t].phase.cur)
    && s' == (if s.markers[t].phase.second == 0
              then s.(markers := Goto(s, t, Next(s.markers[t].phase.cur, s.markers[t].phase.first)))
              else s.(marked := s.marked + {s.markers[t].phase.second},
                      markers := Goto(s, t, Push(s.markers[t].phase.cur, s.markers[t].phase.second, s.markers[t].phase.first,
                                                 Unsettled))))
  }

  /** After a push, an object pushed to be scanned again is no longer this marker's concern. */
  function AfterPush(p: Phase): Phase
    requires p.Push? || p.Widening?
  {
    Next(if p.obj == p.cur then 0 else p.cur, p.first)
  }

  /** As an unsigned number, nInUse is not below the number of threads. */
  predicate Full(z: Setup, s: State) {
    s.nInUse < 0 || s.nInUse >= z.threads
  }

  /** Settle how to push, looking at nInUse without the lock: a task is forked only with two objects on the stack already. */
  predicate Decide(z: Setup, s: State, s': State, t: nat) {
    && t < |s.markers| && s.markers[t].phase.Push? && s.markers[t].phase.how == Unsettled
    && s' == s.(markers := Goto(s, t, s.markers[t].phase.(how := if Full(z, s) || s.markers[t].msp < 2 then OnStack else ByFork)))
  }

  /** With the lock it turns out that no further task may be forked. */
  predicate ForkFails(z: Setup, s: State, s': State, t: nat) {
    && t < |s.markers| && s.markers[t].phase.Push? && s.markers[t].phase.how == ByFork && s.nInUse == z.threads
    && s' == s.(markers := Goto(s, t, s.markers[t].phase.(how := OnStack)))
  }

  /** Start a task on the first inactive marker instead of pushing. */
  predicate Fork(z: Setup, s: State, s': State, t: nat, i: nat) {
    && t < |s.markers| && s.markers[t].phase.Push? && s.markers[t].phase.how == ByFork && s.nInUse != z.threads
    && i < z.threads && i < |s.markers| && i != t && !s.markers[i].active && (forall j :: 0 <= j < i ==> s.markers[j].active)
    && s' == s.(nInUse := s.nInUse + 1,
                markers := Goto(s, t, AfterPush(s.markers[t].phase))[i :=
                  s.markers[i].(active := true, phase := Waiting(s.markers[t].phase.obj))])
  }

  predicate ToStack(z: Setup, s: State, s': State, t: nat) {
    && t < |s.markers| && s.markers[t].phase.Push? && s.markers[t].phase.how == OnStack
    && s.markers[t].msp < z.stackSize == |s.markers[t].slots|
    && s' == s.(markers := s.markers[t := s.markers[t].(
         slots := s.markers[t].slots[s.markers[t].msp := s.markers[t].phase.obj],
         msp := s.markers[t].msp + 1, phase := AfterPush(s.markers[t].phase))])
  }

  function Min(a: nat, b: nat): nat {
    if a < b then a else b
  }

  function Max(a: nat, b: nat): nat {
    if a < b then b else a
  }

  /** The stack is full: with the lock of the object's space, include it in the area there, first its start. */
  predicate WidenStart(G: Graph, z: Setup, s: State, s': State, t: nat, k: nat) {
    && t < |s.markers| && s.markers[t].phase.Push? && s.markers[t].phase.how == OnStack && s.markers[t].msp == z.stackSize
    && ObjectOk(G, s.markers[t].phase.obj) && k < |G.spaces| == |s.starts| == |s.ends|
    && G.spaces[k].bottom <= s.markers[t].phase.obj < G.spaces[k].top
    && (forall u :: 0 <= u < |s.markers| && s.markers[u].phase.Widening? ==> s.markers[u].phase.k != k)
    && s' == s.(starts := s.starts[k := Min(s.starts[k], s.markers[t].phase.obj - 1)],
                markers := Goto(s, t, Widening(s.markers[t].phase.cur, s.markers[t].phase.obj, s.markers[t].phase.first, k)))
  }

  /** And then its end; the lock is given back. */
  predicate WidenEnd(G: Graph, s: State, s': State, t: nat) {
    && t < |s.markers| && s.markers[t].phase.Widening? && ObjectOk(G, s.markers[t].phase.obj)
    && s.markers[t].phase.k < |s.ends|
    && s' == s.(ends := s.ends[s.markers[t].phase.k :=
                  Max(s.ends[s.markers[t].phase.k], s.markers[t].phase.obj + Size(G, s.markers[t].phase.obj))],
                forgotten := if Slips(G, s, t) then s.forgotten + {s.markers[t].phase.obj} else s.forgotten,
                markers := Goto(s, t, AfterPush(s.markers[t].phase)))
  }

  /** Mark the first object noted and go on with it. */
  predicate MarkFirst(s: State, s': State, t: nat, cur: nat, first: nat) {
    && IsAt(s, t, Next(cur, first)) && first != 0
    && s' == s.(marked := s.marked + {first}, markers := Goto(s, t, Begin(first)))
  }

  predicate Pop(s: State, s': State, t: nat, cur: nat) {
    && IsAt(s, t, Next(cur, 0)) && 0 < s.markers[t].msp <= |s.markers[t].slots|
    && s' == s.(markers := s.markers[t := s.markers[t].(msp := s.markers[t].msp - 1,
                                                        phase := Popped(s.markers[t].slots[s.markers[t].msp - 1]))])
  }

  predicate Clear(s: State, s': State, t: nat, obj: nat) {
    && IsAt(s, t, Popped(obj)) && s.markers[t].msp < |s.markers[t].slots|
    && s' == s.(markers := s.markers[t := s.markers[t].(slots := s.markers[t].slots[s.markers[t].msp := 0],
                                                        phase := Begin(obj))])
  }

  predicate Return(s: State, s': State, t: nat, cur: nat) {
    && IsAt(s, t, Next(cur, 0)) && s.markers[t].msp == 0
    && s' == s.(markers := Goto(s, t, Home(s, t)))
  }

  datatype Step =
    | SFeedPermanent(o: nat) | SFeedRoot(o: nat) | SFeedAgain(o: nat) | SEndRoots | SBeginRescan
    | STestStart | STestEnd(m: nat, start: nat) | SReadStart(m: nat) | SReadEnd(m: nat, start: nat)
    | SResetStart(m: nat, start: nat, end: nat) | SResetEnd(m: nat, start: nat, end: nat) | SReadCount
    | SWriteCount(count: int, overwritten: bool)
    | SBeginTask(t: nat, obj: nat) | SSteal(t: nat, v: nat, j: nat) | SFinish(t: nat)
    | SSkipWord(t: nat) | SNoteWord(t: nat) | SEndWords(t: nat)
    | SDecide(t: nat) | SForkFails(t: nat) | SFork(t: nat, i: nat) | SToStack(t: nat)
    | SWidenStart(t: nat, k: nat) | SWidenEnd(t: nat)
    | SMarkFirst(t: nat, cur: nat, first: nat) | SPop(t: nat, cur: nat) | SClear(t: nat, obj: nat) | SReturn(t: nat, cur: nat)

  predicate IsStep(G: Graph, z: Setup, s: State, s': State, step: Step) {
    match step
    case SFeedPermanent(o) => FeedPermanent(G, s, s', o)
    case SFeedRoot(o) => FeedRoot(G, s, s', o)
    case SFeedAgain(o) => FeedAgain(G, s, s', o)
    case SEndRoots => EndRoots(z, s, s')
    case SBeginRescan => BeginRescan(z, s, s')
    case STestStart => TestStart(G, z, s, s')
    case STestEnd(m, start) => TestEnd(s, s', m, start)
    case SReadStart(m) => ReadStart(s, s', m)
    case SReadEnd(m, start) => ReadEnd(s, s', m, start)
    case SResetStart(m, start, end) => ResetStart(G, s, s', m, start, end)
    case SResetEnd(m, start, end) => ResetEnd(G, s, s', m, start, end)
    case SReadCount => ReadCount(G, z, s, s')
    case SWriteCount(count, overwritten) => WriteCount(s, s', count, overwritten)
    case SBeginTask(t, obj) => BeginTask(s, s', t, obj)
    case SSteal(t, v, j) => Steal(z, s, s', t, v, j)
    case SFinish(t) => Finish(s, s', t)
    case SSkipWord(t) => SkipWord(G, s, s', t)
    case SNoteWord(t) => NoteWord(G, s, s', t)
    case SEndWords(t) => EndWords(G, s, s', t)
    case SDecide(t) => Decide(z, s, s', t)
    case SForkFails(t) => ForkFails(z, s, s', t)
    case SFork(t, i) => Fork(z, s, s', t, i)
    case SToStack(t) => ToStack(z, s, s', t)
    case SWidenStart(t, k) => WidenStart(G, z, s, s', t, k)
    case SWidenEnd(t) => WidenEnd(G, s, s', t)
    case SMarkFirst(t, cur, first) => MarkFirst(s, s', t, cur, first)
    case SPop(t, cur) => Pop(s, s', t, cur)
    case SClear(t, obj) => Clear(s, s', t, obj)
    case SReturn(t, cur) => Return(s, s', t, cur)
  }

  /**
   A step after which an object dropped from a full stack is in no area and will not be gone through: it
   does not lie between the limits that the main thread has read, and is entered between the reading of the
   start limit and the resetting of the end limit, or is half entered as the start limit is reset.
   */
  predicate Loses(G: Graph, s: State, step: Step) {
    match step
    case SWidenEnd(t) => Slips(G, s, t)
    case SResetStart(m, start, end) =>
      IsAt(s, s.main, Take(m, HasBoth(start, end))) && exists t :: 0 <= t < |s.markers| && WidensBeyond(G, s, t, m, HasBoth(start, end))
    case _ => false
  }
}
