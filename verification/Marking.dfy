/** Marking by one task with a bounded stack, and rescanning the areas that overflowed it. */
module Marking {
  import opened Heap
  import opened MarkGraph

  /** The marks, the stack and the area of each space to be rescanned. */
  datatype Marks = Marks(marked: set<nat>, stack: seq<nat>, starts: seq<nat>, ends: seq<nat>)

  predicate InRange(G: Graph, m: Marks, o: nat)
    requires ObjectOk(G, o) && |m.starts| == |m.ends| == |G.spaces|
  {
    exists k :: 0 <= k < |G.spaces| && m.starts[k] < o && o + Size(G, o) <= m.ends[k]
  }

  /** The scan of an object is complete, or something records that it is not. */
  ghost predicate Covered(G: Graph, m: Marks, extra: set<nat>, o: nat)
    requires ObjectOk(G, o) && |m.starts| == |m.ends| == |G.spaces|
  {
    Done(G, m.marked, o) || o in m.stack || o in extra || InRange(G, m, o)
  }

  /** All objects marked or visited, but for one, are covered. */
  ghost predicate CoveredBut(G: Graph, visited: set<nat>, m: Marks, extra: set<nat>, but: nat) {
    && |m.starts| == |m.ends| == |G.spaces|
    && (forall o :: o in m.stack ==> o in m.marked + visited)
    && forall o :: o in m.marked + visited ==> o in G.objs && ObjectOk(G, o) && (o != but ==> Covered(G, m, extra, o))
  }

  ghost predicate AllCovered(G: Graph, visited: set<nat>, m: Marks, extra: set<nat>) {
    && |m.starts| == |m.ends| == |G.spaces|
    && (forall o :: o in m.stack ==> o in m.marked + visited)
    && forall o :: o in m.marked + visited ==> o in G.objs && ObjectOk(G, o) && Covered(G, m, extra, o)
  }

  predicate RangeOk(G: Graph, k: nat, start: nat, end: nat)
    requires k < |G.spaces|
  {
    && G.spaces[k].bottom <= start <= G.spaces[k].top && Boundary(G, k, start)
    && G.spaces[k].bottom <= end <= G.spaces[k].top && Boundary(G, k, end)
  }

  /** Stack entries are objects with fields; only the lowest can be a permanent object. */
  predicate EntryOk(G: Graph, m: Marks, i: nat)
    requires i < |m.stack|
  {
    m.stack[i] in G.objs && ObjectOk(G, m.stack[i]) && !IsByte(G, m.stack[i]) && (i > 0 ==> m.stack[i] in m.marked)
  }

  /** Only local objects are marked, and none that are empty. */
  predicate MarkOk(G: Graph, o: nat) {
    ObjectOk(G, o) && Local(G, o) && Size(G, o) > 0
  }

  ghost predicate MarksOk(G: Graph, m: Marks) {
    && |m.starts| == |m.ends| == |G.spaces|
    && m.marked <= G.objs && (forall o :: o in m.marked ==> MarkOk(G, o))
    && (forall i :: 0 <= i < |m.stack| ==> EntryOk(G, m, i))
    && (forall k :: 0 <= k < |G.spaces| ==> RangeOk(G, k, m.starts[k], m.ends[k]))
  }

  /** m' records obj as well as all that m records. */
  ghost predicate Pushed(G: Graph, m: Marks, m': Marks, obj: nat)
    requires ObjectOk(G, obj)
  {
    && |m.starts| == |m.ends| == |G.spaces| && |m'.starts| == |m'.ends| == |G.spaces|
    && m'.marked == m.marked
    && ((m'.stack == m.stack + [obj] && m'.starts == m.starts && m'.ends == m.ends)
        || (m'.stack == m.stack && InRange(G, m', obj)
            && forall k :: 0 <= k < |G.spaces| ==> m'.starts[k] <= m.starts[k] && m.ends[k] <= m'.ends[k]))
  }

  // ---------- What each part of the scan keeps ----------

  lemma DoneGrows(G: Graph, s: set<nat>, s': set<nat>, o: nat)
    requires ObjectOk(G, o) && Done(G, s, o) && s <= s'
    ensures Done(G, s', o)
  {
    hide Local;
    if !IsByte(G, o) {
      forall w | o <= w < o + Size(G, o)
        ensures FieldDone(G, s', w)
      {
        assert FieldDone(G, s, w);
      }
    }
  }

  lemma CoveredGrows(G: Graph, m: Marks, m': Marks, extra: set<nat>, extra': set<nat>, o: nat)
    requires |m.starts| == |m.ends| == |G.spaces| && |m'.starts| == |m'.ends| == |G.spaces|
    requires ObjectOk(G, o) && Covered(G, m, extra, o)
    requires m.marked <= m'.marked && m.stack <= m'.stack && extra <= extra'
    requires forall k :: 0 <= k < |G.spaces| ==> m'.starts[k] <= m.starts[k] && m.ends[k] <= m'.ends[k]
    ensures Covered(G, m', extra', o)
  {
    hide Done;
    if Done(G, m.marked, o) {
      DoneGrows(G, m.marked, m'.marked, o);
    } else if InRange(G, m, o) {
      var k :| 0 <= k < |G.spaces| && m.starts[k] < o && o + Size(G, o) <= m.ends[k];
      assert m'.starts[k] < o && o + Size(G, o) <= m'.ends[k];
    } else if o in m.stack {
      var i :| 0 <= i < |m.stack| && m.stack[i] == o;
      assert m'.stack[i] == o;
    }
  }

  /** Marking byte objects, which need no scan. */
  lemma BytesMarked(G: Graph, visited: set<nat>, m: Marks, marked': set<nat>, extra: set<nat>, but: nat)
    requires AllCovered(G, visited, m, extra + {but}) && m.marked <= marked'
    requires forall o :: o in marked' - m.marked ==> o in G.objs && ObjectOk(G, o) && IsByte(G, o)
    ensures CoveredBut(G, visited, m.(marked := marked'), extra, but)
  {
    hide Done, InRange;
    var m' := m.(marked := marked');
    forall o | o in marked' + visited
      ensures o in G.objs && ObjectOk(G, o) && (o != but ==> Covered(G, m', extra, o))
    {
      if o in m.marked + visited {
        if o != but {
          assert Covered(G, m, extra, o);
          CoveredGrows(G, m, m', extra, extra, o);
        }
      } else {
        BytesDone(G, marked', o);
      }
    }
  }

  lemma BytesDone(G: Graph, s: set<nat>, o: nat)
    requires ObjectOk(G, o) && IsByte(G, o)
    ensures Done(G, s, o)
  {
  }

  /** An object is pushed when it has just been marked, or when its scan is to be taken up again. */
  lemma PushedCovers(G: Graph, visited: set<nat>, m: Marks, marked': set<nat>, m': Marks, obj: nat, extra: set<nat>, but: nat)
    requires obj in G.objs && ObjectOk(G, obj) && CoveredBut(G, visited, m, extra, but)
    requires m.marked <= marked' <= m.marked + {obj} && obj in marked' + visited
    requires Pushed(G, m.(marked := marked'), m', obj)
    ensures CoveredBut(G, visited, m', extra, but) && Covered(G, m', extra, obj)
  {
    hide Done, InRange;
    assert obj in m'.stack || InRange(G, m', obj) by {
      if m'.stack == m.stack + [obj] { assert m'.stack[|m.stack|] == obj; }
    }
    forall o | o in m'.marked + visited
      ensures o in G.objs && ObjectOk(G, o) && (o != but ==> Covered(G, m', extra, o))
    {
      if o != obj && o != but {
        CoveredGrows(G, m, m', extra, extra, o);
      }
    }
  }

  /** The next object to scan is in extra while its scan lasts. */
  lemma FirstMarked(G: Graph, visited: set<nat>, m: Marks, extra: set<nat>, first: nat)
    requires AllCovered(G, visited, m, extra) && first in G.objs && ObjectOk(G, first)
    ensures AllCovered(G, visited, m.(marked := m.marked + {first}), extra + {first})
  {
    hide Done, InRange;
    var m' := m.(marked := m.marked + {first});
    forall o | o in m'.marked + visited
      ensures o in G.objs && ObjectOk(G, o) && Covered(G, m', extra + {first}, o)
    {
      if o != first {
        CoveredGrows(G, m, m', extra, extra + {first}, o);
      }
    }
  }

  lemma Popped(G: Graph, visited: set<nat>, m: Marks, extra: set<nat>)
    requires AllCovered(G, visited, m, extra) && |m.stack| > 0
    ensures AllCovered(G, visited, m.(stack := m.stack[..|m.stack| - 1]), extra + {m.stack[|m.stack| - 1]})
  {
    hide Done, InRange;
    var m' := m.(stack := m.stack[..|m.stack| - 1]);
    forall o | o in m'.marked + visited
      ensures Covered(G, m', extra + {m.stack[|m.stack| - 1]}, o)
    {
      assert Covered(G, m, extra, o);
      assert o in m.stack ==> o in m'.stack || o == m.stack[|m.stack| - 1];
      assert InRange(G, m, o) ==> InRange(G, m', o) by { SameRange(G, m, m', o); }
    }
  }

  lemma SameRange(G: Graph, m: Marks, m': Marks, o: nat)
    requires ObjectOk(G, o) && |m.starts| == |m.ends| == |G.spaces| && m'.starts == m.starts && m'.ends == m.ends
    ensures InRange(G, m, o) == InRange(G, m', o)
  {
  }

  // ---------- The marker ----------

  class Marker {
    const G: Graph
    const markStack: array<nat>
    var msp: nat
    var marks: set<nat>
    var rescanStart: seq<nat>
    var rescanEnd: seq<nat>

    /** A marker with room for the given number of objects; nothing marked, nothing to rescan. */
    constructor (G: Graph, stackSize: nat)
      requires GraphOk(G) && stackSize > 0
      ensures Valid() && this.G == G && msp == 0 && marks == {} && fresh(markStack)
      ensures rescanStart == seq(|G.spaces|, k requires 0 <= k < |G.spaces| => G.spaces[k].top)
      ensures rescanEnd == seq(|G.spaces|, k requires 0 <= k < |G.spaces| => G.spaces[k].bottom)
    {
      this.G := G;
      markStack := new nat[stackSize](_ => 0);
      msp := 0;
      marks := {};
      rescanStart := seq(|G.spaces|, k requires 0 <= k < |G.spaces| => G.spaces[k].top);
      rescanEnd := seq(|G.spaces|, k requires 0 <= k < |G.spaces| => G.spaces[k].bottom);
    }

    ghost function State(): Marks
      reads this, markStack
      requires msp <= markStack.Length
    {
      Marks(marks, markStack[..msp], rescanStart, rescanEnd)
    }

    ghost predicate Valid()
      reads this, markStack
    {
      && GraphOk(G) && msp <= markStack.Length && 0 < markStack.Length
      && MarksOk(G, State())
      && forall i :: msp <= i < markStack.Length ==> markStack[i] == 0
    }

    /** The space an address is in, or the number of spaces if it is in none. */
    method FindSpace(p: nat) returns (k: nat)
      ensures k <= |G.spaces|
      ensures k < |G.spaces| ==> G.spaces[k].bottom <= p < G.spaces[k].top
      ensures k < |G.spaces| <==> Local(G, p)
    {
      k := 0;
      while k < |G.spaces|
        invariant 0 <= k <= |G.spaces|
        invariant forall j :: 0 <= j < k ==> !(G.spaces[j].bottom <= p < G.spaces[j].top)
      {
        if G.spaces[k].bottom <= p < G.spaces[k].top {
          return;
        }
        k := k + 1;
      }
    }

    /** Include the object in the area of its space to be rescanned; only local objects ever get here. */
    method StackOverflow(obj: nat)
      requires Valid() && obj in G.objs && ObjectOk(G, obj) && Size(G, obj) > 0 && obj in marks
      modifies `rescanStart, `rescanEnd
      ensures Valid()
      ensures InRange(G, State(), obj)
      ensures forall k :: 0 <= k < |G.spaces| ==> rescanStart[k] <= old(rescanStart[k]) && old(rescanEnd[k]) <= rescanEnd[k]
    {
      hide GraphOk, Boundary, Inside, EntryOk;
      var k := FindSpace(obj);
      assert Local(G, obj);
      hide Local;
      var n := G.mem[obj - 1].length;
      ObjectBounds(G, k, obj);
      assert RangeOk(G, k, rescanStart[k], rescanEnd[k]);
      if rescanStart[k] > obj - 1 {
        rescanStart := rescanStart[k := obj - 1];
      }
      if rescanEnd[k] < obj + n {
        rescanEnd := rescanEnd[k := obj + n];
      }
      assert rescanStart[k] < obj && obj + n <= rescanEnd[k];
      assert State().stack == old(State()).stack;
      forall j | 0 <= j < |G.spaces|
        ensures RangeOk(G, j, rescanStart[j], rescanEnd[j])
      {
        assert RangeOk(G, j, old(State()).starts[j], old(State()).ends[j]);
      }
      RangesOk(G, old(State()), State());
    }

    /** Push an object, or note that its space must be rescanned if there is no room. */
    method PushToStack(obj: nat)
      requires Valid() && obj in G.objs && ObjectOk(G, obj) && !IsByte(G, obj) && Size(G, obj) > 0
      requires obj in marks || msp == 0
      modifies this, markStack
      ensures Valid() && Pushed(G, old(State()), State(), obj) && marks == old(marks)
          {
      if msp < markStack.Length {
        hide GraphOk, RangeOk;
        ghost var was := State();
        markStack[msp] := obj;
        msp := msp + 1;
        assert State().stack == was.stack + [obj];
        PushedOk(G, was, obj);
      } else {
        StackOverflow(obj);
      }
    }

    /** Whether the object a field points to must be scanned; a byte object is marked at once. */
    method TestForScan(w: nat, ghost o: nat) returns (scan: bool)
      requires Valid() && o in G.objs && ObjectOk(G, o) && !IsByte(G, o) && o <= w < o + Size(G, o)
      modifies `marks
      ensures Valid() && old(marks) <= marks
      ensures forall x :: x in marks - old(marks) ==> x in G.objs && ObjectOk(G, x) && IsByte(G, x) && G.mem[w] == Pointer(x)
      ensures scan ==> G.mem[w].Pointer? && TargetOk(G, G.mem[w].addr) && G.mem[w].addr !in marks && marks == old(marks)
      ensures !scan ==> FieldDone(G, marks, w)
    {
      hide Tiled, RangeOk, Boundary;
      assert MarkGraph.FieldOk(G, G.mem[w]);
      if G.mem[w].Tagged? || G.mem[w] == Zero {
        return false;
      }
      var obj := G.mem[w].addr;
      var k := FindSpace(obj);
      if k == |G.spaces| || obj in marks {
        return false;
      }
      hide GraphOk, Local;
      if G.mem[obj - 1].isByte {
        MarkedOk(G, State(), obj);
        marks := marks + {obj};
        return false;
      }
      return true;
    }

    /** Look for the first two objects an object points to that must be scanned; stop at a third. */
    method ScanWords(obj: nat, ghost reach: set<nat>) returns (first: nat, second: nat, more: bool)
      requires Valid() && obj in G.objs && ObjectOk(G, obj) && !IsByte(G, obj)
      requires Done(G, reach, obj) && marks <= reach
      modifies `marks
      ensures Valid() && old(marks) <= marks <= reach
      ensures forall x :: x in marks - old(marks) ==> x in G.objs && ObjectOk(G, x) && IsByte(G, x)
      ensures first != 0 ==> TargetOk(G, first) && first !in marks && first in reach
      ensures second != 0 ==> TargetOk(G, second) && second !in marks && second in reach && first != 0
      ensures more ==> second != 0 && Size(G, obj) > 0
      ensures !more ==> Done(G, marks + {first, second}, obj)
    {
      ZeroNotLocal(G);
      hide MarksOk, GraphOk, Local, TargetOk, FieldDone;
      var n := G.mem[obj - 1].length;
      first, second, more := 0, 0, false;
      var pt := obj;
      while pt < obj + n
        invariant obj <= pt <= obj + n && Valid() && old(marks) <= marks <= reach
        invariant forall x :: x in marks - old(marks) ==> x in G.objs && ObjectOk(G, x) && IsByte(G, x)
        invariant first != 0 ==> TargetOk(G, first) && first !in marks && first in reach
        invariant second != 0 ==> TargetOk(G, second) && second !in marks && second in reach && first != 0
        invariant DoneTo(G, marks + {first, second}, obj, pt)
      {
        assert FieldDone(G, reach, pt);
        ghost var was, f, s := marks, first, second;
        var scan := TestForScan(pt, obj);
        NotBytes(G, was, marks, first, second);
        MarkedPointedTo(G, reach, was, marks, pt, State());
        if scan {
          ScanTarget(G, reach, pt);
          if first == 0 {
            first := G.mem[pt].addr;
          } else if second == 0 {
            second := G.mem[pt].addr;
          } else {
            more := true;
            return;
          }
        }
        OneMoreDone(G, was, f, s, marks, first, second, obj, pt);
        pt := pt + 1;
      }
    }

    /** What a scan keeps: only reachable objects are marked, all is covered, and an overflow means something new was marked. */
    ghost predicate Scanning(visited: set<nat>, reach: set<nat>, extra: set<nat>)
      reads this, markStack
    {
      && Valid() && marks <= reach <= G.objs
      && (forall o :: o in reach + visited ==> o in G.objs && ObjectOk(G, o) && Done(G, reach, o))
      && AllCovered(G, visited, State(), extra)
    }

    /** Push what is left of the object at cur, or the second object it points to, now marked. */
    method PushRest(cur: nat, second: nat, more: bool, ghost first: nat, ghost visited: set<nat>, ghost extra: set<nat>)
      requires Valid() && cur in G.objs && ObjectOk(G, cur) && !IsByte(G, cur) && (cur in marks || msp == 0)
      requires cur in marks + visited
      requires second != 0 ==> TargetOk(G, second)
      requires more ==> second != 0 && Size(G, cur) > 0
      requires CoveredBut(G, visited, State(), extra, cur)
      requires !more ==> Done(G, marks + {first, second}, cur)
      modifies this, markStack
      ensures Valid() && marks == if !more && second != 0 then old(marks) + {second} else old(marks)
      ensures CoveredBut(G, visited, State(), extra, cur)
      ensures if more then Covered(G, State(), extra, cur) else Done(G, marks + {first, second}, cur)
      ensures second == 0 ==> State() == old(State())
    {
      hide Covered, InRange, Pushed, MarksOk, Local, GraphOk, ObjectOk;
      ghost var was := State();
      if more {
        PushToStack(cur);
        PushedCovers(G, visited, was, was.marked, State(), cur, extra, cur);
      } else if second != 0 {
        MarkedOk(G, was, second);
        marks := marks + {second};
        DoneGrows(G, was.marked + {first, second}, marks + {first, second}, cur);
        PushToStack(second);
        PushedCovers(G, visited, was, was.marked + {second}, State(), second, extra, cur);
      }
    }

    /** The object being scanned: marked already, or permanent, in which case the stack is empty. */
    ghost predicate CurrentOk(visited: set<nat>, cur: nat)
      reads this
    {
      cur in G.objs && ObjectOk(G, cur) && !IsByte(G, cur) && cur in marks + visited && (cur in marks || msp == 0)
    }

    /** Scan one object; the answer is what to scan next, the first object found or else one popped, or 0. */
    method ScanOne(cur: nat, ghost visited: set<nat>, ghost reach: set<nat>, ghost extra: set<nat>) returns (next: nat)
      requires Scanning(visited, reach, extra + {cur}) && CurrentOk(visited, cur)
      modifies this, markStack
      ensures if next == 0 then Scanning(visited, reach, extra) && msp == 0 else Scanning(visited, reach, extra + {next})
      ensures next != 0 ==> CurrentOk(visited, next)
      ensures old(marks) < marks || (old(marks) == marks && rescanStart == old(rescanStart) && rescanEnd == old(rescanEnd))
      ensures next != 0 ==> old(marks) < marks || msp < old(msp)
    {
      hide AllCovered, CoveredBut, Covered, MarksOk, Inside, Local;
      ZeroNotLocal(G);
      hide GraphOk, ObjectOk;
      ghost var was := State();
      var first, second, more := ScanWords(cur, reach);
      BytesMarked(G, visited, was, marks, extra, cur);
      PushRest(cur, second, more, first, visited, extra);
      if first != 0 {
        FirstTaken(G, visited, State(), extra, cur, first, second, more);
        MarkedOk(G, State(), first);
        marks := marks + {first};
        return first;
      }
      LastDone(G, visited, State(), extra, cur);
      if msp == 0 {
        return 0;
      }
      Popped(G, visited, State(), extra);
      PopOk(G, State());
      PoppedKnown(G, visited, State(), extra);
      ghost var full := State();
      msp := msp - 1;
      next := markStack[msp];
      markStack[msp] := 0;
      assert State() == full.(stack := full.stack[..|full.stack| - 1]);
      EntryIsObject(G, full, |full.stack| - 1);
    }

    /** Mark everything reachable from an object that has already been marked, or from a permanent one. */
    method ScanAddressesInObject(obj: nat, ghost visited: set<nat>, ghost reach: set<nat>, ghost extra: set<nat>)
      requires Scanning(visited, reach, extra + {obj}) && msp == 0
      requires obj in G.objs && ObjectOk(G, obj) && (obj in marks || obj in visited)
      modifies this, markStack
      ensures Scanning(visited, reach, extra) && msp == 0
      ensures old(marks) < marks || (old(marks) == marks && rescanStart == old(rescanStart) && rescanEnd == old(rescanEnd))
    {
      hide AllCovered, CoveredBut, Covered, MarksOk, GraphOk, Inside, TargetOk, Done;
      if G.mem[obj - 1].isByte {
        ByteCovered(G, visited, State(), extra, obj);
        return;
      }
      var cur := obj;
      while cur != 0
        invariant if cur == 0 then Scanning(visited, reach, extra) && msp == 0 else Scanning(visited, reach, extra + {cur})
        invariant cur != 0 ==> CurrentOk(visited, cur)
        invariant old(marks) < marks || (old(marks) == marks && rescanStart == old(rescanStart) && rescanEnd == old(rescanEnd))
        decreases if cur == 0 then 0 else 1, |G.objs - marks|, msp
      {
        ghost var unmarked := G.objs - marks;
        cur := ScanOne(cur, visited, reach, extra);
        SmallerSet(unmarked, G.objs - marks);
      }
    }

    /** A root: mark what is reachable from it if it is local and not marked already. */
    method ScanObjectAddress(obj: nat, ghost visited: set<nat>, ghost reach: set<nat>)
      requires Scanning(visited, reach, {}) && msp == 0 && obj in G.objs && ObjectOk(G, obj) && Size(G, obj) > 0
      requires Local(G, obj) ==> obj in reach
      modifies this, markStack
      ensures Scanning(visited, reach, {}) && msp == 0 && old(marks) <= marks
      ensures Local(G, obj) ==> obj in marks
    {
      hide AllCovered, Covered, MarksOk, GraphOk, Inside, Done, FieldDone;
      var k := FindSpace(obj);
      if k == |G.spaces| || obj in marks {
        return;
      }
      FirstMarked(G, visited, State(), {}, obj);
      MarkedOk(G, State(), obj);
      marks := marks + {obj};
      ScanAddressesInObject(obj, visited, reach, {});
    }

    /** A permanent mutable object: mark what is reachable from it. */
    method ScanPermanent(obj: nat, ghost visited: set<nat>, ghost reach: set<nat>)
      requires Scanning(visited, reach, {}) && msp == 0 && obj in G.objs && ObjectOk(G, obj) && Done(G, reach, obj)
      modifies this, markStack
      ensures Scanning(visited + {obj}, reach, {}) && msp == 0 && old(marks) <= marks
    {
      hide AllCovered, Covered, MarksOk, GraphOk, Inside, Done;
      Visiting(G, visited, State(), obj);
      if G.mem[obj - 1].length != 0 {
        ScanAddressesInObject(obj, visited + {obj}, reach, {});
      } else {
        EmptyCovered(G, visited + {obj}, State(), {}, obj);
      }
    }

    /** Scan an object again if it is marked and has any words. */
    method RescanObject(obj: nat, ghost visited: set<nat>, ghost reach: set<nat>, ghost rest: set<nat>)
      requires obj in G.objs && ObjectOk(G, obj) && (obj in visited ==> Size(G, obj) == 0)
      requires Scanning(visited, reach, rest + {obj}) && msp == 0
      modifies this, markStack
      ensures Scanning(visited, reach, rest) && msp == 0
      ensures old(marks) < marks || (old(marks) == marks && rescanStart == old(rescanStart) && rescanEnd == old(rescanEnd))
    {
      hide AllCovered, MarksOk, GraphOk, Inside, Done;
      var length := G.mem[obj - 1].length;
      if length == 0 {
        EmptyCovered(G, visited, State(), rest, obj);
      } else if obj in marks {
        ScanAddressesInObject(obj, visited, reach, rest);
      } else {
        Unvisited(G, visited, State(), rest, obj);
      }
    }

    /** Scan again all marked objects in part of a space, passing from each object to the next. */
    method RescanRegion(k: nat, start: nat, end: nat, ghost visited: set<nat>, ghost reach: set<nat>)
      requires k < |G.spaces| && G.spaces[k].bottom <= start <= end <= G.spaces[k].top
      requires Boundary(G, k, start) && Boundary(G, k, end) && forall o :: o in visited ==> !Local(G, o)
      requires Scanning(visited, reach, Region(G, start, end)) && msp == 0
      modifies this, markStack
      ensures Scanning(visited, reach, {}) && msp == 0
      ensures old(marks) < marks || (old(marks) == marks && rescanStart == old(rescanStart) && rescanEnd == old(rescanEnd))
    {
      hide AllCovered, MarksOk, Inside, Done, Scanning, Region, Boundary, GraphOk, Local;
      var pt := start;
      while pt < end
        invariant G.spaces[k].bottom <= pt <= end && Boundary(G, k, pt)
        invariant Scanning(visited, reach, Region(G, pt, end)) && msp == 0
        invariant old(marks) < marks || (old(marks) == marks && rescanStart == old(rescanStart) && rescanEnd == old(rescanEnd))
      {
        ScanningGraph(visited, reach, Region(G, pt, end));
        RegionStep(G, k, pt, end);
        var length := G.mem[pt].length;
        RescanObject(pt + 1, visited, reach, Region(G, pt + 1 + length, end));
        pt := pt + 1 + length;
      }
      assert Region(G, pt, end) == {} by { NoRegion(G, pt); }
    }

    lemma ScanningGraph(visited: set<nat>, reach: set<nat>, extra: set<nat>)
      requires Scanning(visited, reach, extra)
      ensures GraphOk(G)
    {
    }

    /** No area is left to be rescanned, unless new objects have been marked since. */
    ghost predicate Settled(before: set<nat>, starts: seq<nat>, ends: seq<nat>, m: nat)
      requires |rescanStart| == |rescanEnd| == |starts| == |ends|
      reads this
    {
      before < marks
      || (before == marks && (forall j :: 0 <= j < m && j < |starts| ==> rescanStart[j] >= rescanEnd[j])
          && forall j :: m <= j < |starts| ==> rescanStart[j] == starts[j] && rescanEnd[j] == ends[j])
    }

    /** Rescan the areas that overflowed; the answer says whether there were any. */
    method RunRescan(ghost visited: set<nat>, ghost reach: set<nat>) returns (rescan: bool)
      requires Scanning(visited, reach, {}) && msp == 0 && forall o :: o in visited ==> !Local(G, o)
      modifies this, markStack
      ensures Scanning(visited, reach, {}) && msp == 0 && |rescanStart| == |rescanEnd| == |G.spaces|
      ensures old(marks) < marks || (old(marks) == marks && forall j :: 0 <= j < |G.spaces| ==> rescanStart[j] >= rescanEnd[j])
      ensures !rescan ==> marks == old(marks)
      ensures |old(rescanStart)| == |old(rescanEnd)| == |G.spaces|
      ensures (forall j :: 0 <= j < |G.spaces| ==> old(rescanStart)[j] >= old(rescanEnd)[j]) ==> !rescan
    {
      hide AllCovered, Covered, GraphOk, Inside, Done, Boundary, Local;
      rescan := false;
      var m := 0;
      ghost var before, starts, ends := marks, rescanStart, rescanEnd;
      while m < |G.spaces|
        invariant 0 <= m <= |G.spaces|
        invariant Scanning(visited, reach, {}) && msp == 0
        invariant |rescanStart| == |rescanEnd| == |starts| == |ends| == |G.spaces|
        invariant Settled(before, starts, ends, m)
        invariant !rescan ==> marks == before && rescanStart == starts && rescanEnd == ends
        invariant rescan ==> exists j :: 0 <= j < |G.spaces| && starts[j] < ends[j]
      {
        if rescanStart[m] < rescanEnd[m] {
          var start, end := rescanStart[m], rescanEnd[m];
          assert RangeOk(G, m, start, end) && RangeOk(G, m, G.spaces[m].top, G.spaces[m].bottom) by {
            EmptyRangeOk(G, State(), m);
          }
          RangeTaken(G, visited, State(), m);
          rescanStart := rescanStart[m := G.spaces[m].top];
          rescanEnd := rescanEnd[m := G.spaces[m].bottom];
          rescan := true;
          RescanRegion(m, start, end, visited, reach);
        }
        m := m + 1;
      }
    }

    /** Nothing is to be rescanned yet. */
    method ResetRanges()
      requires Valid()
      modifies `rescanStart, `rescanEnd
      ensures Valid() && State().stack == old(State()).stack
    {
      rescanStart := seq(|G.spaces|, k requires 0 <= k < |G.spaces| => G.spaces[k].top);
      rescanEnd := seq(|G.spaces|, k requires 0 <= k < |G.spaces| => G.spaces[k].bottom);
      assert State().stack == old(State()).stack;
      forall k | 0 <= k < |G.spaces|
        ensures RangeOk(G, k, rescanStart[k], rescanEnd[k])
      {
        SpaceBounds(G, k);
      }
      hide GraphOk, RangeOk;
      RangesOk(G, old(State()), State());
    }

    /** Rescan until there is nothing to rescan; each round but the last either marks more or settles. */
    method RescanAll(ghost visited: set<nat>, ghost reach: set<nat>)
      requires Scanning(visited, reach, {}) && msp == 0 && forall o :: o in visited ==> !Local(G, o)
      modifies this, markStack
      ensures Scanning(visited, reach, {}) && msp == 0 && old(marks) <= marks
      ensures |rescanStart| == |rescanEnd| == |G.spaces| && forall j :: 0 <= j < |G.spaces| ==> rescanStart[j] >= rescanEnd[j]
    {
      assert |rescanStart| == |rescanEnd| == |G.spaces|;
      hide AllCovered, MarksOk, GraphOk, Inside, Done, Local;
      var again := true;
      while again
        invariant Scanning(visited, reach, {}) && msp == 0 && old(marks) <= marks
        invariant |rescanStart| == |rescanEnd| == |G.spaces|
        invariant !again ==> forall j :: 0 <= j < |G.spaces| ==> rescanStart[j] >= rescanEnd[j]
        decreases |G.objs - marks|, AnyRange(), again
      {
        ghost var unmarked := G.objs - marks;
        again := RunRescan(visited, reach);
        SmallerSet(unmarked, G.objs - marks);
      }
    }

    ghost predicate AnyRange()
      reads this
    {
      |rescanStart| == |rescanEnd| == |G.spaces| && exists j :: 0 <= j < |G.spaces| && rescanStart[j] < rescanEnd[j]
    }

    /** Scan the objects of the permanent mutable areas. */
    method MarkPermanents(perms: seq<nat>, ghost reach: set<nat>)
      requires Scanning({}, reach, {}) && msp == 0
      requires forall o :: o in perms ==> o in G.objs && ObjectOk(G, o) && Done(G, reach, o)
      modifies this, markStack
      ensures Scanning(Elements(perms), reach, {}) && msp == 0
    {
      hide AllCovered, MarksOk, GraphOk, Inside, Done;
      var i := 0;
      assert Elements(perms[..0]) == {};
      while i < |perms|
        invariant 0 <= i <= |perms| && Scanning(Elements(perms[..i]), reach, {}) && msp == 0
      {
        assert Elements(perms[..i + 1]) == Elements(perms[..i]) + {perms[i]};
        ScanPermanent(perms[i], Elements(perms[..i]), reach);
        i := i + 1;
      }
      assert perms[..i] == perms;
    }

    /** Mark from the roots. */
    method MarkRoots(roots: seq<nat>, ghost visited: set<nat>, ghost reach: set<nat>)
      requires Scanning(visited, reach, {}) && msp == 0
      requires forall o :: o in roots ==> o in G.objs && ObjectOk(G, o) && Size(G, o) > 0 && (Local(G, o) ==> o in reach)
      modifies this, markStack
      ensures Scanning(visited, reach, {}) && msp == 0
      ensures forall o :: o in roots && Local(G, o) ==> o in marks
    {
      hide AllCovered, MarksOk, GraphOk, Inside, Done;
      var i := 0;
      while i < |roots|
        invariant 0 <= i <= |roots| && Scanning(visited, reach, {}) && msp == 0
        invariant forall j :: 0 <= j < i && Local(G, roots[j]) ==> roots[j] in marks
      {
        ScanObjectAddress(roots[i], visited, reach);
        i := i + 1;
      }
    }

    /**
     The mark phase: mark from the permanent mutable objects and the roots, then rescan until no
     area has overflowed. Whatever the size of the stack, exactly the reachable objects are marked.
     */
    method GCMarkPhase(perms: seq<nat>, roots: seq<nat>)
      requires Valid() && msp == 0 && marks == {}
      requires forall o :: o in perms ==> o in G.objs && !Local(G, o)
      requires forall o :: o in roots ==> o in G.objs && ObjectOk(G, o) && Size(G, o) > 0
      modifies this, markStack
      ensures marks <= G.objs && GraphOk(G) && Elements(perms) <= G.objs
      ensures forall o :: o in marks ==> MarkOk(G, o) && Done(G, marks, o)
      ensures forall o :: o in G.objs ==> (o in marks <==> Reachable(G, Elements(roots), Elements(perms), o))
    {
      ghost var p, r := Elements(perms), Elements(roots);
      ghost var reach := ReachableSet(G, r, p);
      ReachableIsClosed(G, r, p);
      hide AllCovered, MarksOk, Inside, Done, Reachable;
      ResetRanges();
      StartCovered(G, State());
      MarkPermanents(perms, reach);
      MarkRoots(roots, p, reach);
      RescanAll(p, reach);
      NothingOwed(G, p, State());
      AllLocal(G, State());
      LeastClosedIsReachable(G, r, p, marks);
    }
  }

  ghost function Elements(s: seq<nat>): set<nat> {
    set o | o in s
  }

  /** The objects whose headers lie from start to end. */
  ghost function Region(G: Graph, start: nat, end: nat): set<nat> {
    set o | o in G.objs && start < o <= end
  }

  lemma NoRegion(G: Graph, p: nat)
    ensures Region(G, p, p) == {}
  {
  }

  /** The object at a boundary and where it leads. */
  lemma RegionStep(G: Graph, k: nat, pt: nat, end: nat)
    requires GraphOk(G) && k < |G.spaces| && G.spaces[k].bottom <= pt < end <= G.spaces[k].top
    requires Boundary(G, k, pt) && Boundary(G, k, end)
    ensures pt + 1 in G.objs && ObjectOk(G, pt + 1) && pt + 1 + Size(G, pt + 1) <= end
    ensures Boundary(G, k, pt + 1 + Size(G, pt + 1))
    ensures Region(G, pt, end) == Region(G, pt + 1 + Size(G, pt + 1), end) + {pt + 1}
    ensures Size(G, pt + 1) > 0 ==> Local(G, pt + 1)
  {
    var obj := pt + 1;
    assert ObjectOk(G, obj) && Inside(G.spaces[k], obj, Size(G, obj)) && EndsWell(G, k, obj);
    assert end + 1 in G.objs && end > pt ==> Separate(G, obj, end + 1);
    forall o | o in G.objs && o > obj
      ensures o > obj + Size(G, obj)
    {
      assert Separate(G, obj, o);
    }
  }

  lemma Visiting(G: Graph, visited: set<nat>, m: Marks, obj: nat)
    requires AllCovered(G, visited, m, {}) && obj in G.objs && ObjectOk(G, obj)
    ensures AllCovered(G, visited + {obj}, m, {} + {obj})
  {
    hide Done, InRange;
    forall o | o in m.marked + (visited + {obj})
      ensures o in G.objs && ObjectOk(G, o) && Covered(G, m, {} + {obj}, o)
    {
      if o != obj {
        CoveredGrows(G, m, m, {}, {} + {obj}, o);
      }
    }
  }

  lemma EmptyCovered(G: Graph, visited: set<nat>, m: Marks, extra: set<nat>, obj: nat)
    requires AllCovered(G, visited, m, extra + {obj}) && obj in G.objs && ObjectOk(G, obj) && Size(G, obj) == 0
    ensures AllCovered(G, visited, m, extra)
  {
    hide InRange;
  }

  lemma Unvisited(G: Graph, visited: set<nat>, m: Marks, extra: set<nat>, obj: nat)
    requires AllCovered(G, visited, m, extra + {obj}) && obj !in m.marked + visited
    ensures AllCovered(G, visited, m, extra)
  {
    hide InRange, Done;
  }

  lemma EmptyRangeOk(G: Graph, m: Marks, k: nat)
    requires GraphOk(G) && MarksOk(G, m) && k < |G.spaces|
    ensures RangeOk(G, k, m.starts[k], m.ends[k]) && RangeOk(G, k, G.spaces[k].top, G.spaces[k].bottom)
    ensures MarksOk(G, m.(starts := m.starts[k := G.spaces[k].top], ends := m.ends[k := G.spaces[k].bottom]))
  {
    hide Boundary;
    var m' := m.(starts := m.starts[k := G.spaces[k].top], ends := m.ends[k := G.spaces[k].bottom]);
    assert RangeOk(G, k, m.starts[k], m.ends[k]);
    assert RangeOk(G, k, G.spaces[k].top, G.spaces[k].bottom) by { SpaceBounds(G, k); }
    forall j | 0 <= j < |G.spaces|
      ensures RangeOk(G, j, m'.starts[j], m'.ends[j])
    {
      assert RangeOk(G, j, m.starts[j], m.ends[j]);
    }
    RangesOk(G, m, m');
  }

  lemma StartCovered(G: Graph, m: Marks)
    requires MarksOk(G, m) && m.marked == {} && m.stack == []
    ensures AllCovered(G, {}, m, {})
  {
  }

  lemma AllLocal(G: Graph, m: Marks)
    requires MarksOk(G, m)
    ensures forall o :: o in m.marked ==> MarkOk(G, o)
  {
  }

  /** With an empty stack and nothing to rescan, every scan is complete. */
  lemma NothingOwed(G: Graph, visited: set<nat>, m: Marks)
    requires AllCovered(G, visited, m, {}) && m.stack == []
    requires forall k :: 0 <= k < |G.spaces| ==> m.starts[k] >= m.ends[k]
    ensures forall o :: o in m.marked + visited ==> o in G.objs && ObjectOk(G, o) && Done(G, m.marked, o)
  {
    hide Done;
    forall o | o in m.marked + visited
      ensures o in G.objs && ObjectOk(G, o) && Done(G, m.marked, o)
    {
      assert Covered(G, m, {}, o);
    }
  }

  lemma SpaceBounds(G: Graph, k: nat)
    requires GraphOk(G) && k < |G.spaces|
    ensures Boundary(G, k, G.spaces[k].top) && Boundary(G, k, G.spaces[k].bottom)
    ensures G.spaces[k].bottom <= G.spaces[k].top
  {
  }

  /** An area taken for rescanning: what it recorded is now still to be scanned. */
  lemma RangeTaken(G: Graph, visited: set<nat>, m: Marks, k: nat)
    requires AllCovered(G, visited, m, {}) && k < |G.spaces|
    ensures AllCovered(G, visited, m.(starts := m.starts[k := G.spaces[k].top], ends := m.ends[k := G.spaces[k].bottom]),
                       Region(G, m.starts[k], m.ends[k]))
  {
    hide Done;
    var m' := m.(starts := m.starts[k := G.spaces[k].top], ends := m.ends[k := G.spaces[k].bottom]);
    forall o | o in m'.marked + visited
      ensures o in G.objs && ObjectOk(G, o) && Covered(G, m', Region(G, m.starts[k], m.ends[k]), o)
    {
      assert Covered(G, m, {}, o);
      if InRange(G, m, o) {
        var j :| 0 <= j < |G.spaces| && m.starts[j] < o && o + Size(G, o) <= m.ends[j];
        assert j != k ==> m'.starts[j] < o && o + Size(G, o) <= m'.ends[j];
      }
    }
  }

  lemma SmallerSet(s: set<nat>, s': set<nat>)
    requires s' <= s
    ensures |s'| < |s| || s' == s
  {
    assert s == s' + (s - s');
  }

  lemma EntryIsObject(G: Graph, m: Marks, i: nat)
    requires i < |m.stack| && EntryOk(G, m, i)
    ensures m.stack[i] > 0
  {
  }

  lemma PoppedKnown(G: Graph, visited: set<nat>, m: Marks, extra: set<nat>)
    requires AllCovered(G, visited, m, extra) && |m.stack| > 0
    ensures m.stack[|m.stack| - 1] in m.marked + visited
  {
  }

  /** The object just scanned is complete once its first target is marked, which is scanned next. */
  lemma FirstTaken(G: Graph, visited: set<nat>, m: Marks, extra: set<nat>, cur: nat, first: nat, second: nat, more: bool)
    requires CoveredBut(G, visited, m, extra, cur) && ObjectOk(G, cur) && TargetOk(G, first)
    requires if more then Covered(G, m, extra, cur) else Done(G, m.marked + {first, second}, cur)
    requires !more && second != 0 ==> second in m.marked
    requires !Local(G, 0)
    ensures AllCovered(G, visited, m.(marked := m.marked + {first}), extra + {first})
  {
    hide InRange, Local, Done;
    var m' := m.(marked := m.marked + {first});
    forall o | o in m'.marked + visited
      ensures o in G.objs && ObjectOk(G, o) && Covered(G, m', extra + {first}, o)
    {
      if o == cur && !more {
        DoneWithoutZero(G, m'.marked, second, cur);
        assert m'.marked + {second} == m.marked + {first, second};
      } else if o != first {
        CoveredGrows(G, m, m', extra, extra + {first}, o);
      }
    }
  }

  lemma DoneWithoutZero(G: Graph, s: set<nat>, second: nat, o: nat)
    requires ObjectOk(G, o) && !Local(G, 0) && (second == 0 || second in s)
    ensures Done(G, s + {second}, o) ==> Done(G, s, o)
  {
    hide Local;
    if !IsByte(G, o) && Done(G, s + {second}, o) {
      forall w | o <= w < o + Size(G, o)
        ensures FieldDone(G, s, w)
      {
        assert FieldDone(G, s + {second}, w);
      }
    }
  }

  lemma LastDone(G: Graph, visited: set<nat>, m: Marks, extra: set<nat>, cur: nat)
    requires CoveredBut(G, visited, m, extra, cur) && ObjectOk(G, cur) && !Local(G, 0) && Done(G, m.marked + {0, 0}, cur)
    ensures AllCovered(G, visited, m, extra)
  {
    hide Done, InRange, Local;
    assert m.marked + {0, 0} == m.marked + {0};
    DoneWithoutZero(G, m.marked, 0, cur);
  }

  lemma PopOk(G: Graph, m: Marks)
    requires MarksOk(G, m) && |m.stack| > 0
    ensures MarksOk(G, m.(stack := m.stack[..|m.stack| - 1])) && EntryOk(G, m, |m.stack| - 1)
  {
    hide RangeOk, Local;
    var m' := m.(stack := m.stack[..|m.stack| - 1]);
    forall i | 0 <= i < |m'.stack|
      ensures EntryOk(G, m', i)
    {
      assert EntryOk(G, m, i);
    }
  }

  lemma ByteCovered(G: Graph, visited: set<nat>, m: Marks, extra: set<nat>, obj: nat)
    requires AllCovered(G, visited, m, extra + {obj}) && obj in G.objs && ObjectOk(G, obj) && IsByte(G, obj)
    ensures AllCovered(G, visited, m, extra)
  {
  }

  /** Newly marked byte objects are not among those to be scanned. */
  lemma NotBytes(G: Graph, was: set<nat>, now: set<nat>, first: nat, second: nat)
    requires forall x :: x in now - was ==> x in G.objs && ObjectOk(G, x) && IsByte(G, x)
    requires first != 0 ==> TargetOk(G, first) && first !in was
    requires second != 0 ==> TargetOk(G, second) && second !in was
    ensures first != 0 ==> first !in now
    ensures second != 0 ==> second !in now
  {
  }

  lemma MarkedPointedTo(G: Graph, reach: set<nat>, was: set<nat>, now: set<nat>, w: nat, m: Marks)
    requires w < |G.mem| && FieldDone(G, reach, w) && was <= reach && MarksOk(G, m) && m.marked == now
    requires forall x :: x in now - was ==> G.mem[w] == Pointer(x)
    ensures now <= reach
  {
    hide Local;
    forall x | x in now
      ensures x in reach
    {
      assert x !in was ==> G.mem[w] == Pointer(x) && Local(G, x);
    }
  }

  lemma ScanTarget(G: Graph, reach: set<nat>, w: nat)
    requires w < |G.mem| && FieldDone(G, reach, w) && G.mem[w].Pointer? && TargetOk(G, G.mem[w].addr)
    ensures G.mem[w].addr in reach && G.mem[w].addr != 0
  {
  }

  lemma OneMoreDone(G: Graph, was: set<nat>, f: nat, s: nat, now: set<nat>, first: nat, second: nat, obj: nat, pt: nat)
    requires ObjectOk(G, obj) && obj <= pt < obj + Size(G, obj) && DoneTo(G, was + {f, s}, obj, pt) && was <= now
    requires f == first || f == 0
    requires s == second || s == 0
    requires FieldDone(G, now, pt) || (G.mem[pt].Pointer? && G.mem[pt].addr in {first, second})
    requires !Local(G, 0)
    ensures DoneTo(G, now + {first, second}, obj, pt + 1)
  {
    hide Local;
    forall w | obj <= w < pt + 1 && w < obj + Size(G, obj)
      ensures FieldDone(G, now + {first, second}, w)
    {
      assert w < pt ==> FieldDone(G, was + {f, s}, w);
    }
  }

  lemma ZeroNotLocal(G: Graph)
    requires GraphOk(G)
    ensures !Local(G, 0)
  {
  }

  /** A local object with fields. */
  predicate TargetOk(G: Graph, o: nat) {
    o in G.objs && ObjectOk(G, o) && Local(G, o) && !IsByte(G, o) && Size(G, o) > 0
  }

  lemma MarkedOk(G: Graph, m: Marks, o: nat)
    requires MarksOk(G, m) && o in G.objs && MarkOk(G, o)
    ensures MarksOk(G, m.(marked := m.marked + {o}))
  {
    hide RangeOk, Local, MarkOk;
    var m' := m.(marked := m.marked + {o});
    forall i | 0 <= i < |m'.stack|
      ensures EntryOk(G, m', i)
    {
      assert EntryOk(G, m, i);
    }
  }

  lemma RangesOk(G: Graph, m: Marks, m': Marks)
    requires MarksOk(G, m) && m'.marked == m.marked && m'.stack == m.stack && |m'.starts| == |m'.ends| == |G.spaces|
    requires forall k :: 0 <= k < |G.spaces| ==> RangeOk(G, k, m'.starts[k], m'.ends[k])
    ensures MarksOk(G, m')
  {
    hide RangeOk;
    forall i | 0 <= i < |m'.stack|
      ensures EntryOk(G, m', i)
    {
      assert EntryOk(G, m, i);
    }
  }

  /** An object found in a space at its header begins and ends at boundaries there. */
  lemma ObjectBounds(G: Graph, k: nat, o: nat)
    requires GraphOk(G) && k < |G.spaces| && o in G.objs && ObjectOk(G, o) && G.spaces[k].bottom <= o < G.spaces[k].top
    requires Size(G, o) > 0
    ensures Boundary(G, k, o - 1) && Boundary(G, k, o + Size(G, o))
    ensures G.spaces[k].bottom < o && o + Size(G, o) <= G.spaces[k].top
  {
    assert Inside(G.spaces[k], o, Size(G, o)) && EndsWell(G, k, o);
  }

  lemma PushedOk(G: Graph, m: Marks, obj: nat)
    requires MarksOk(G, m) && obj in G.objs && ObjectOk(G, obj) && !IsByte(G, obj) && (obj in m.marked || m.stack == [])
    ensures MarksOk(G, m.(stack := m.stack + [obj]))
  {
    hide RangeOk;
    var m' := m.(stack := m.stack + [obj]);
    forall i | 0 <= i < |m'.stack|
      ensures EntryOk(G, m', i)
    {
      assert i < |m.stack| ==> EntryOk(G, m, i);
    }
  }
}
