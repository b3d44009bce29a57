/** Runs of the marking tasks, several steps at a time, and how long a thief may go on. */
module MarkTaskRuns {
  import opened Heap
  import opened MarkGraph
  import opened MarkTasks
  import opened MarkTaskProofs
  import opened MarkTaskResults

  // ---------- Runs, several steps at a time ----------

  ghost predicate Reaches(G: Graph, z: Setup, s: State, s': State) {
    exists run, steps :: IsRun(G, z, run, steps) && run[0] == s && run[|steps|] == s'
  }

  lemma Here(G: Graph, z: Setup, s: State)
    ensures Reaches(G, z, s, s)
  {
    var run, steps: seq<Step> := [s], [];
    assert IsRun(G, z, run, steps) && run[0] == s && run[|steps|] == s;
  }

  lemma Then(G: Graph, z: Setup, s0: State, s: State, s': State, step: Step)
    requires Reaches(G, z, s0, s) && IsStep(G, z, s, s', step)
    ensures Reaches(G, z, s0, s')
  {
    hide IsStep;
    var run, steps :| IsRun(G, z, run, steps) && run[0] == s0 && run[|steps|] == s;
    var run', steps' := run + [s'], steps + [step];
    assert IsRun(G, z, run', steps') && run'[0] == s0 && run'[|steps'|] == s';
  }

  /** A local object with three words. */
  predicate Cell(G: Graph, o: nat, a: Word, b: Word, c: Word) {
    && o in G.objs && o > 0 && ObjectOk(G, o) && Local(G, o) && !IsByte(G, o) && Size(G, o) == 3
    && G.mem[o] == a && G.mem[o + 1] == b && G.mem[o + 2] == c
  }

  /** The word leads to an object that is not marked. */
  predicate Leads(G: Graph, s: State, v: Word) {
    v.Pointer? && v.addr in G.objs && ObjectOk(G, v.addr) && Local(G, v.addr) && !IsByte(G, v.addr) && v.addr !in s.marked && v.addr > 0
  }

  /** The word leads to nothing that is not marked. */
  predicate LeadsNowhere(G: Graph, s: State, v: Word) {
    v.Tagged? || (v.Pointer? && v.addr in G.objs && ObjectOk(G, v.addr) && !IsByte(G, v.addr) && v.addr in s.marked)
  }

  lemma SkipsWord(G: Graph, z: Setup, s0: State, s: State, t: nat, p: Phase) returns (s': State)
    requires Reaches(G, z, s0, s) && IsAt(s, t, p) && AtWord(G, s, t) && p.pos < |G.mem| && LeadsNowhere(G, s, G.mem[p.pos])
    ensures Reaches(G, z, s0, s') && s' == s.(markers := Goto(s, t, p.(pos := p.pos + 1)))
  {
    s' := s.(markers := Goto(s, t, p.(pos := p.pos + 1)));
    assert BytesAt(G, G.mem[p.pos]) == {} && s.marked + {} == s.marked;
    hide ObjectOk, Local;
    Then(G, z, s0, s, s', SSkipWord(t));
  }

  lemma NotesWord(G: Graph, z: Setup, s0: State, s: State, t: nat, p: Phase) returns (s': State)
    requires Reaches(G, z, s0, s) && IsAt(s, t, p) && AtWord(G, s, t) && p.pos < |G.mem| && Leads(G, s, G.mem[p.pos])
    ensures Reaches(G, z, s0, s') && s' == s.(markers := Goto(s, t, Noted(p, G.mem[p.pos].addr)))
  {
    hide ObjectOk, Local;
    s' := s.(markers := Goto(s, t, Noted(p, G.mem[p.pos].addr)));
    Then(G, z, s0, s, s', SNoteWord(t));
  }

  /** All three words of the object lead on: it is to be pushed and the first followed. */
  lemma NotesThree(G: Graph, z: Setup, s0: State, s: State, t: nat, o: nat, a: Word, b: Word, c: Word) returns (s': State)
    requires Reaches(G, z, s0, s) && IsAt(s, t, Begin(o)) && Cell(G, o, a, b, c)
    requires Leads(G, s, a) && Leads(G, s, b) && Leads(G, s, c)
    ensures Reaches(G, z, s0, s') && s' == s.(markers := Goto(s, t, Push(o, o, a.addr, Unsettled)))
  {
    hide Reaches, Local;
    var s1 := NotesWord(G, z, s0, s, t, Begin(o));
    var s2 := NotesWord(G, z, s0, s1, t, s1.markers[t].phase);
    s' := NotesWord(G, z, s0, s2, t, s2.markers[t].phase);
    assert s'.markers == Goto(s, t, Push(o, o, a.addr, Unsettled));
  }

  /** None leads on: the object is done. */
  lemma SkipsThree(G: Graph, z: Setup, s0: State, s: State, t: nat, o: nat, a: Word, b: Word, c: Word) returns (s': State)
    requires Reaches(G, z, s0, s) && IsAt(s, t, Begin(o)) && Cell(G, o, a, b, c)
    requires LeadsNowhere(G, s, a) && LeadsNowhere(G, s, b) && LeadsNowhere(G, s, c)
    ensures Reaches(G, z, s0, s') && s' == s.(markers := Goto(s, t, Next(o, 0)))
  {
    hide Reaches, Local;
    var s1 := SkipsWord(G, z, s0, s, t, Begin(o));
    var s2 := SkipsWord(G, z, s0, s1, t, s1.markers[t].phase);
    var s3 := SkipsWord(G, z, s0, s2, t, s2.markers[t].phase);
    s' := s3.(markers := Goto(s3, t, Next(o, 0)));
    assert IsStep(G, z, s3, s', SEndWords(t));
    Then(G, z, s0, s3, s', SEndWords(t));
    assert s'.markers == Goto(s, t, Next(o, 0));
  }

  /** The last two words lead to the same object: it is marked and is to be pushed, and followed. */
  lemma NotesTwo(G: Graph, z: Setup, s0: State, s: State, t: nat, o: nat, a: Word, b: Word) returns (s': State)
    requires Reaches(G, z, s0, s) && IsAt(s, t, Begin(o)) && Cell(G, o, a, b, b) && LeadsNowhere(G, s, a) && Leads(G, s, b)
    ensures Reaches(G, z, s0, s')
    ensures s' == s.(marked := s.marked + {b.addr}, markers := Goto(s, t, Push(o, b.addr, b.addr, Unsettled)))
  {
    hide Reaches, Local;
    var s1 := SkipsWord(G, z, s0, s, t, Begin(o));
    var s2 := NotesWord(G, z, s0, s1, t, s1.markers[t].phase);
    var s3 := NotesWord(G, z, s0, s2, t, s2.markers[t].phase);
    s' := s3.(marked := s3.marked + {b.addr}, markers := Goto(s3, t, Push(o, b.addr, b.addr, Unsettled)));
    assert IsStep(G, z, s3, s', SEndWords(t));
    Then(G, z, s0, s3, s', SEndWords(t));
    assert s'.markers == Goto(s, t, Push(o, b.addr, b.addr, Unsettled));
  }

  /** A marker that follows the first object noted. */
  function Follows(m: Marker, first: nat): Marker {
    m.(phase := Begin(first))
  }

  lemma MarksFirst(G: Graph, z: Setup, s0: State, s: State, t: nat, cur: nat, first: nat) returns (s': State)
    requires Reaches(G, z, s0, s) && IsAt(s, t, Next(cur, first)) && first != 0
    ensures Reaches(G, z, s0, s') && s' == s.(marked := s.marked + {first}, markers := s.markers[t := Follows(s.markers[t], first)])
  {
    s' := s.(marked := s.marked + {first}, markers := Goto(s, t, Begin(first)));
    Then(G, z, s0, s, s', SMarkFirst(t, cur, first));
  }

  lemma Decides(G: Graph, z: Setup, s0: State, s: State, t: nat, p: Phase) returns (s': State)
    requires Reaches(G, z, s0, s) && IsAt(s, t, p) && p.Push? && p.how == Unsettled
    ensures Reaches(G, z, s0, s')
    ensures s' == s.(markers := Goto(s, t, p.(how := if Full(z, s) || s.markers[t].msp < 2 then OnStack else ByFork)))
  {
    s' := s.(markers := Goto(s, t, p.(how := if Full(z, s) || s.markers[t].msp < 2 then OnStack else ByFork)));
    Then(G, z, s0, s, s', SDecide(t));
  }

  /** Push on a stack with fewer than two objects, and follow. */
  lemma Stacks(G: Graph, z: Setup, s0: State, s: State, t: nat, p: Phase) returns (s': State)
    requires Reaches(G, z, s0, s) && IsAt(s, t, p) && p.Push? && p.how == Unsettled && p.first != 0
    requires s.markers[t].msp < 2 == z.stackSize == |s.markers[t].slots|
    ensures Reaches(G, z, s0, s')
    ensures s' == s.(marked := s.marked + {p.first}, markers := s.markers[t := s.markers[t].(
      slots := s.markers[t].slots[s.markers[t].msp := p.obj], msp := s.markers[t].msp + 1, phase := Begin(p.first))])
  {
    hide Reaches;
    var s1 := Decides(G, z, s0, s, t, p);
    var p1, m := s1.markers[t].phase, s.markers[t];
    var s2 := s1.(markers := s1.markers[t := s1.markers[t].(
      slots := m.slots[m.msp := p.obj], msp := m.msp + 1, phase := AfterPush(p1))]);
    assert IsStep(G, z, s1, s2, SToStack(t));
    Then(G, z, s0, s1, s2, SToStack(t));
    s' := MarksFirst(G, z, s0, s2, t, AfterPush(p1).cur, p.first);
    assert s'.markers == s.markers[t := m.(slots := m.slots[m.msp := p.obj], msp := m.msp + 1, phase := Begin(p.first))];
  }

  /** Fork a task on marker i instead, and follow. */
  lemma Forks(G: Graph, z: Setup, s0: State, s: State, t: nat, p: Phase, i: nat) returns (s': State)
    requires Reaches(G, z, s0, s) && IsAt(s, t, p) && p.Push? && p.how == Unsettled && p.first != 0
    requires !Full(z, s) && s.markers[t].msp >= 2
    requires i < z.threads && i < |s.markers| && i != t && !s.markers[i].active && forall j :: 0 <= j < i ==> s.markers[j].active
    ensures Reaches(G, z, s0, s')
    ensures s' == s.(nInUse := s.nInUse + 1, marked := s.marked + {p.first},
      markers := s.markers[t := Follows(s.markers[t], p.first)][i := s.markers[i].(active := true, phase := Waiting(p.obj))])
  {
    hide Reaches;
    var s1 := Decides(G, z, s0, s, t, p);
    var p1 := s1.markers[t].phase;
    var s2 := s1.(nInUse := s1.nInUse + 1,
                  markers := Goto(s1, t, AfterPush(p1))[i := s1.markers[i].(active := true, phase := Waiting(p.obj))]);
    assert IsStep(G, z, s1, s2, SFork(t, i));
    Then(G, z, s0, s1, s2, SFork(t, i));
    s' := MarksFirst(G, z, s0, s2, t, AfterPush(p1).cur, p.first);
    assert s'.markers == s.markers[t := Follows(s.markers[t], p.first)][i := s.markers[i].(active := true, phase := Waiting(p.obj))];
  }

  /** The stack is full and no task may be forked: the start of the area is widened. */
  lemma Overflows(G: Graph, z: Setup, s0: State, s: State, t: nat, p: Phase, k: nat) returns (s': State)
    requires Reaches(G, z, s0, s) && IsAt(s, t, p) && p.Push? && p.how == Unsettled
    requires Full(z, s) && s.markers[t].msp == z.stackSize && ObjectOk(G, p.obj) && k < |G.spaces| == |s.starts| == |s.ends|
    requires G.spaces[k].bottom <= p.obj < G.spaces[k].top && forall u :: 0 <= u < |s.markers| ==> !s.markers[u].phase.Widening?
    ensures Reaches(G, z, s0, s')
    ensures s' == s.(starts := s.starts[k := Min(s.starts[k], p.obj - 1)], markers := Goto(s, t, Widening(p.cur, p.obj, p.first, k)))
  {
    hide Reaches;
    var s1 := Decides(G, z, s0, s, t, p);
    s' := s1.(starts := s1.starts[k := Min(s1.starts[k], p.obj - 1)], markers := Goto(s1, t, Widening(p.cur, p.obj, p.first, k)));
    assert forall u :: 0 <= u < |s1.markers| ==> !s1.markers[u].phase.Widening?;
    assert IsStep(G, z, s1, s', SWidenStart(t, k));
    Then(G, z, s0, s1, s', SWidenStart(t, k));
    assert s'.markers == Goto(s, t, Widening(p.cur, p.obj, p.first, k));
  }

  /** Then its end, and the first object noted is followed. */
  lemma Entered(G: Graph, z: Setup, s0: State, s: State, t: nat, p: Phase) returns (s': State)
    requires Reaches(G, z, s0, s) && IsAt(s, t, p) && p.Widening? && p.first != 0 && ObjectOk(G, p.obj) && p.k < |s.ends|
    ensures Reaches(G, z, s0, s')
    ensures s' == s.(ends := s.ends[p.k := Max(s.ends[p.k], p.obj + Size(G, p.obj))], marked := s.marked + {p.first},
                     forgotten := if Slips(G, s, t) then s.forgotten + {p.obj} else s.forgotten,
                     markers := s.markers[t := Follows(s.markers[t], p.first)])
  {
    hide Reaches, Slips;
    var s1 := s.(ends := s.ends[p.k := Max(s.ends[p.k], p.obj + Size(G, p.obj))], markers := Goto(s, t, AfterPush(p)),
                 forgotten := if Slips(G, s, t) then s.forgotten + {p.obj} else s.forgotten);
    assert IsStep(G, z, s, s1, SWidenEnd(t));
    Then(G, z, s0, s, s1, SWidenEnd(t));
    s' := MarksFirst(G, z, s0, s1, t, AfterPush(p).cur, p.first);
    assert s'.markers == s.markers[t := Follows(s.markers[t], p.first)];
  }

  /** The object on the stack is done as well. */
  lemma PopsDone(G: Graph, z: Setup, s0: State, s: State, t: nat, cur: nat, a: Word, b: Word, c: Word) returns (s': State)
    requires Reaches(G, z, s0, s) && IsAt(s, t, Next(cur, 0)) && 0 < s.markers[t].msp <= |s.markers[t].slots|
    requires Cell(G, s.markers[t].slots[s.markers[t].msp - 1], a, b, c)
    requires LeadsNowhere(G, s, a) && LeadsNowhere(G, s, b) && LeadsNowhere(G, s, c)
    ensures Reaches(G, z, s0, s')
    ensures var m := s.markers[t];
      s' == s.(markers := s.markers[t := m.(slots := m.slots[m.msp - 1 := 0], msp := m.msp - 1, phase := Next(m.slots[m.msp - 1], 0))])
  {
    hide Reaches, Cell, LeadsNowhere;
    var m := s.markers[t];
    var o := m.slots[m.msp - 1];
    var s1 := s.(markers := s.markers[t := m.(msp := m.msp - 1, phase := Popped(o))]);
    Then(G, z, s0, s, s1, SPop(t, cur));
    var s2 := s1.(markers := s1.markers[t := s1.markers[t].(slots := m.slots[m.msp - 1 := 0], phase := Begin(o))]);
    Then(G, z, s0, s1, s2, SClear(t, o));
    SameLeads(G, s, s2, a);
    SameLeads(G, s, s2, b);
    SameLeads(G, s, s2, c);
    s' := SkipsThree(G, z, s0, s2, t, o, a, b, c);
    assert s'.markers == s.markers[t := m.(slots := m.slots[m.msp - 1 := 0], msp := m.msp - 1, phase := Next(o, 0))];
  }

  lemma SameLeads(G: Graph, s: State, s': State, v: Word)
    requires s'.marked == s.marked
    ensures LeadsNowhere(G, s', v) <==> LeadsNowhere(G, s, v)
  {
  }

  /** A task that has nothing left ends. */
  lemma Ends(G: Graph, z: Setup, s0: State, s: State, t: nat, cur: nat) returns (s': State)
    requires Reaches(G, z, s0, s) && IsAt(s, t, Next(cur, 0)) && s.markers[t].msp == 0 && t != s.main
    ensures Reaches(G, z, s0, s')
    ensures s' == s.(nInUse := s.nInUse - 1, markers := s.markers[t := s.markers[t].(active := false, phase := Resting)])
  {
    hide Reaches;
    var s1 := s.(markers := Goto(s, t, Looking));
    assert IsStep(G, z, s, s1, SReturn(t, cur));
    Then(G, z, s0, s, s1, SReturn(t, cur));
    s' := s1.(nInUse := s1.nInUse - 1, markers := s1.markers[t := s1.markers[t].(active := false, phase := Resting)]);
    Then(G, z, s0, s1, s', SFinish(t));
    assert s'.markers == s.markers[t := s.markers[t].(active := false, phase := Resting)];
  }

  lemma Starts(G: Graph, z: Setup, s0: State, s: State, t: nat, obj: nat) returns (s': State)
    requires Reaches(G, z, s0, s) && IsAt(s, t, Waiting(obj))
    ensures Reaches(G, z, s0, s') && s' == s.(markers := s.markers[t := s.markers[t].(phase := Begin(obj))])
  {
    s' := s.(markers := Goto(s, t, Begin(obj)));
    Then(G, z, s0, s, s', SBeginTask(t, obj));
  }

  /** A forked task whose object is done by the time it begins. */
  lemma RunsDone(G: Graph, z: Setup, s0: State, s: State, t: nat, obj: nat, a: Word, b: Word, c: Word) returns (s': State)
    requires Reaches(G, z, s0, s) && IsAt(s, t, Waiting(obj)) && Cell(G, obj, a, b, c) && s.markers[t].msp == 0 && t != s.main
    requires LeadsNowhere(G, s, a) && LeadsNowhere(G, s, b) && LeadsNowhere(G, s, c)
    ensures Reaches(G, z, s0, s')
    ensures s' == s.(nInUse := s.nInUse - 1, markers := s.markers[t := s.markers[t].(active := false, phase := Resting)])
  {
    hide Reaches, Cell, LeadsNowhere;
    var s1 := Starts(G, z, s0, s, t, obj);
    SameLeads(G, s, s1, a);
    SameLeads(G, s, s1, b);
    SameLeads(G, s, s1, c);
    var s2 := SkipsThree(G, z, s0, s1, t, obj, a, b, c);
    s' := Ends(G, z, s0, s2, t, obj);
    assert s'.markers == s.markers[t := s.markers[t].(active := false, phase := Resting)];
  }

  /** The main thread comes back to feeding. */
  lemma Returns(G: Graph, z: Setup, s0: State, s: State, cur: nat) returns (s': State)
    requires Reaches(G, z, s0, s) && IsAt(s, s.main, Next(cur, 0)) && s.markers[s.main].msp == 0
    ensures Reaches(G, z, s0, s') && s' == s.(markers := s.markers[s.main := s.markers[s.main].(phase := Feeding)])
  {
    s' := s.(markers := Goto(s, s.main, Feeding));
    assert IsStep(G, z, s, s', SReturn(s.main, cur));
    Then(G, z, s0, s, s', SReturn(s.main, cur));
  }

  /** It finds an area in the next space and reads its limits. */
  lemma ReadsLimits(G: Graph, z: Setup, s0: State, s: State) returns (s': State)
    requires Reaches(G, z, s0, s) && s.main == z.threads && IsAt(s, s.main, Feeding) && s.again == {}
    requires s.next < |G.spaces| == |s.starts| == |s.ends| && s.starts[s.next] < s.ends[s.next]
    ensures Reaches(G, z, s0, s')
    ensures s' == s.(markers := Goto(s, s.main, Take(s.next, HasBoth(s.starts[s.next], s.ends[s.next]))))
  {
    hide Reaches;
    var m, start, end := s.next, s.starts[s.next], s.ends[s.next];
    var s1 := s.(markers := Goto(s, s.main, Take(m, Tested(start))));
    var s2 := s1.(markers := Goto(s1, s.main, Take(m, Found)));
    var s3 := s2.(markers := Goto(s2, s.main, Take(m, HasStart(start))));
    s' := s3.(markers := Goto(s3, s.main, Take(m, HasBoth(start, end))));
    Then(G, z, s0, s, s1, STestStart);
    Then(G, z, s0, s1, s2, STestEnd(m, start));
    Then(G, z, s0, s2, s3, SReadStart(m));
    Then(G, z, s0, s3, s', SReadEnd(m, start));
    assert s'.markers == Goto(s, s.main, Take(m, HasBoth(start, end)));
  }

  /** It resets them. */
  lemma ResetsLimits(G: Graph, z: Setup, s0: State, s: State, m: nat, start: nat, end: nat) returns (s': State)
    requires Reaches(G, z, s0, s) && IsAt(s, s.main, Take(m, HasBoth(start, end))) && m < |G.spaces| == |s.starts| == |s.ends|
    requires forall u :: 0 <= u < |s.markers| ==> !s.markers[u].phase.Widening?
    ensures Reaches(G, z, s0, s')
    ensures s' == s.(starts := s.starts[m := G.spaces[m].top], ends := s.ends[m := G.spaces[m].bottom],
                     again := Region(G, start, end), next := m + 1, rescan := true, markers := Goto(s, s.main, Feeding))
  {
    hide Reaches, Region;
    assert Beyond(G, s, m, start, end) == {} && s.forgotten + {} == s.forgotten;
    var s1 := s.(starts := s.starts[m := G.spaces[m].top], markers := Goto(s, s.main, Take(m, HalfReset(start, end))));
    s' := s1.(ends := s1.ends[m := G.spaces[m].bottom], again := Region(G, start, end), next := m + 1, rescan := true,
              markers := Goto(s1, s.main, Feeding));
    Then(G, z, s0, s, s1, SResetStart(m, start, end));
    Then(G, z, s0, s1, s', SResetEnd(m, start, end));
    assert s'.markers == Goto(s, s.main, Feeding);
  }

  /** It finds no area in the next space. */
  lemma FindsNone(G: Graph, z: Setup, s0: State, s: State) returns (s': State)
    requires Reaches(G, z, s0, s) && s.main == z.threads && IsAt(s, s.main, Feeding) && s.again == {}
    requires s.next < |G.spaces| == |s.starts| == |s.ends| && s.starts[s.next] >= s.ends[s.next]
    ensures Reaches(G, z, s0, s') && s' == s.(next := s.next + 1)
  {
    hide Reaches;
    var m, start := s.next, s.starts[s.next];
    var s1 := s.(markers := Goto(s, s.main, Take(m, Tested(start))));
    s' := s1.(next := m + 1, markers := Goto(s1, s.main, Feeding));
    Then(G, z, s0, s, s1, STestStart);
    Then(G, z, s0, s1, s', STestEnd(m, start));
    assert s'.markers == s.markers;
  }

  /** It goes through an object again. */
  lemma FeedsAgain(G: Graph, z: Setup, s0: State, s: State, o: nat) returns (s': State)
    requires Reaches(G, z, s0, s) && IsAt(s, s.main, Feeding) && o in s.again && ObjectOk(G, o) && o in s.marked && !IsByte(G, o)
    ensures Reaches(G, z, s0, s') && s' == s.(again := s.again - {o}, markers := Goto(s, s.main, Begin(o)))
  {
    hide ObjectOk;
    s' := s.(again := s.again - {o}, markers := Goto(s, s.main, Begin(o)));
    Then(G, z, s0, s, s', SFeedAgain(o));
  }

  /** It reads nInUse on leaving a round. */
  lemma ReadsCount(G: Graph, z: Setup, s0: State, s: State) returns (s': State)
    requires Reaches(G, z, s0, s) && s.main == z.threads && IsAt(s, s.main, Feeding) && s.again == {} && s.next == |G.spaces|
    ensures Reaches(G, z, s0, s') && s' == s.(markers := Goto(s, s.main, Leaving(s.nInUse)))
  {
    s' := s.(markers := Goto(s, s.main, Leaving(s.nInUse)));
    Then(G, z, s0, s, s', SReadCount);
  }

  /**
   A thief may take a finished object from a slot again and again, as long as the owner does not come to clear it:
   after one step it is on the way back to where it was. So no measure falls with every step.
   */
  lemma StealsInVain(G: Graph, z: Setup, s: State, t: nat, v: nat, j: nat, a: Word, b: Word, c: Word) returns (s': State)
    requires IsAt(s, t, Looking) && t != s.main && s.markers[t].msp == 0 && v < z.threads && v < |s.markers|
    requires j < |s.markers[v].slots| && Cell(G, s.markers[v].slots[j], a, b, c)
    requires LeadsNowhere(G, s, a) && LeadsNowhere(G, s, b) && LeadsNowhere(G, s, c)
    ensures IsStep(G, z, s, s', SSteal(t, v, j)) && Reaches(G, z, s', s)
  {
    hide Reaches, Cell, LeadsNowhere;
    var o := s.markers[v].slots[j];
    s' := s.(markers := Goto(s, t, Begin(o)));
    assert o != 0 by { CellNotZero(G, o, a, b, c); }
    Here(G, z, s');
    SameLeads(G, s, s', a);
    SameLeads(G, s, s', b);
    SameLeads(G, s, s', c);
    var s1 := SkipsThree(G, z, s', s', t, o, a, b, c);
    var s2 := s1.(markers := Goto(s1, t, Looking));
    assert IsStep(G, z, s1, s2, SReturn(t, o));
    Then(G, z, s', s1, s2, SReturn(t, o));
    assert s2.markers == s.markers;
  }

  lemma CellNotZero(G: Graph, o: nat, a: Word, b: Word, c: Word)
    requires Cell(G, o, a, b, c)
    ensures o != 0
  {
  }

  lemma WritesCount(G: Graph, z: Setup, s0: State, s: State, count: int) returns (s': State)
    requires Reaches(G, z, s0, s) && IsAt(s, s.main, Leaving(count))
    ensures Reaches(G, z, s0, s')
    ensures s' == s.(nInUse := count - 1, lost := s.nInUse - count,
                     markers := s.markers[s.main := s.markers[s.main].(active := false, phase := Resting)])
  {
    s' := s.(nInUse := count - 1, lost := s.nInUse - count,
             markers := s.markers[s.main := s.markers[s.main].(active := false, phase := Resting)]);
    Then(G, z, s0, s, s', SWriteCount(count, false));
  }

  lemma BeginsRound(G: Graph, z: Setup, s0: State, s: State) returns (s': State)
    requires Reaches(G, z, s0, s) && AllRest(s) && z.threads < |s.markers| && s.main == z.threads && s.rescan
    ensures Reaches(G, z, s0, s')
    ensures s' == s.(nInUse := 1, lost := 0, next := 0, rescan := false, markers := Goto(s, z.threads, Feeding))
  {
    s' := s.(nInUse := 1, lost := 0, next := 0, rescan := false, markers := Goto(s, z.threads, Feeding));
    Then(G, z, s0, s, s', SBeginRescan);
  }
}
