/** The object graph that is marked, which objects are live, and when an object's scan is complete. */
module MarkGraph {
  import opened Heap

  /** Memory, its local spaces and the addresses of all objects, local or permanent. */
  datatype Graph = Graph(mem: seq<Word>, spaces: seq<Space>, objs: set<nat>)

  function Size(G: Graph, o: nat): nat
    requires 0 < o <= |G.mem| && G.mem[o - 1].Length?
  {
    G.mem[o - 1].length
  }

  /** The object at o of n words does not cross into or out of a space. */
  predicate Inside(space: Space, o: nat, n: nat) {
    && (space.bottom < o <= space.top ==> o + n <= space.top)
    && (space.bottom <= o < space.top && n > 0 ==> space.bottom < o)
  }

  /** The header of an object, which lies within memory and, if local, within one space. */
  predicate ObjectOk(G: Graph, o: nat) {
    && 0 < o <= |G.mem| && G.mem[o - 1].Length? && o + Size(G, o) <= |G.mem|
    && forall k :: 0 <= k < |G.spaces| ==> Inside(G.spaces[k], o, Size(G, o))
  }

  predicate IsByte(G: Graph, o: nat)
    requires ObjectOk(G, o)
  {
    G.mem[o - 1].isByte
  }

  /** An address in one of the local spaces, which alone are marked. */
  predicate Local(G: Graph, p: nat) {
    !Outside(G.spaces, p)
  }

  /** A field: no address, or that of an object, which is never empty. */
  predicate FieldOk(G: Graph, v: Word) {
    v.Tagged? || v == Zero || (v.Pointer? && v.addr in G.objs && ObjectOk(G, v.addr) && Size(G, v.addr) > 0)
  }

  ghost predicate GraphOk(G: Graph) {
    && SpacesOk(G.spaces, |G.mem|)
    && (forall o :: o in G.objs ==> ObjectOk(G, o))
    && (forall o, w: nat :: o in G.objs && ObjectOk(G, o) && !IsByte(G, o) && o <= w < o + Size(G, o) ==> FieldOk(G, G.mem[w]))
    && Tiled(G)
  }

  /** A place where an object begins in space k, or its top. */
  predicate Boundary(G: Graph, k: nat, p: nat)
    requires k < |G.spaces|
  {
    p == G.spaces[k].top || (G.spaces[k].bottom <= p < G.spaces[k].top && p + 1 in G.objs)
  }

  /** Where an object of space k ends another begins, or the space ends. */
  predicate EndsWell(G: Graph, k: nat, o: nat)
    requires k < |G.spaces| && ObjectOk(G, o)
  {
    G.spaces[k].bottom < o <= G.spaces[k].top ==> Boundary(G, k, o + Size(G, o))
  }

  /** One of two objects ends before the header of the other. */
  predicate Separate(G: Graph, o: nat, o': nat)
    requires ObjectOk(G, o)
  {
    o < o' ==> o + Size(G, o) < o'
  }

  /** Local spaces hold objects end to end. */
  ghost predicate Tiled(G: Graph) {
    && (forall k :: 0 <= k < |G.spaces| ==> Boundary(G, k, G.spaces[k].bottom))
    && (forall o, k {:trigger EndsWell(G, k, o)} :: 0 <= k < |G.spaces| && o in G.objs && ObjectOk(G, o) ==> EndsWell(G, k, o))
    && (forall o, o' {:trigger Separate(G, o, o')} :: o in G.objs && o' in G.objs && ObjectOk(G, o) ==> Separate(G, o, o'))
  }

  /** The word w holds no address of a local object that is not in s. */
  predicate FieldDone(G: Graph, s: set<nat>, w: nat)
    requires w < |G.mem|
  {
    G.mem[w].Pointer? && Local(G, G.mem[w].addr) ==> G.mem[w].addr in s
  }

  /** All objects the object at o points to, up to but not including the field at w, are in s. */
  predicate DoneTo(G: Graph, s: set<nat>, o: nat, to: nat)
    requires ObjectOk(G, o)
  {
    forall w :: o <= w < to && w < o + Size(G, o) ==> FieldDone(G, s, w)
  }

  /** A byte object points to nothing; otherwise all an object points to is in s. */
  predicate Done(G: Graph, s: set<nat>, o: nat)
    requires ObjectOk(G, o)
  {
    IsByte(G, o) || DoneTo(G, s, o, o + Size(G, o))
  }

  // ---------- Liveness ----------

  /** The object at o has a field that is the address of the local object p. */
  predicate PointsTo(G: Graph, o: nat, p: nat)
    requires ObjectOk(G, o)
  {
    !IsByte(G, o) && Local(G, p) && exists w: nat :: o <= w < o + Size(G, o) && w < |G.mem| && G.mem[w] == Pointer(p)
  }

  /** A path from a root, or from a permanent mutable object, along fields. */
  predicate Path(G: Graph, roots: set<nat>, perms: set<nat>, path: seq<nat>)
    requires GraphOk(G) && perms <= G.objs
  {
    && |path| > 0 && (forall i :: 0 <= i < |path| ==> path[i] in G.objs && Local(G, path[i]))
    && (path[0] in roots || exists q :: q in perms && PointsTo(G, q, path[0]))
    && forall i :: 0 < i < |path| ==> PointsTo(G, path[i - 1], path[i])
  }

  /** The live objects: those some path leads to. */
  ghost predicate Reachable(G: Graph, roots: set<nat>, perms: set<nat>, o: nat)
    requires GraphOk(G) && perms <= G.objs
  {
    exists path: seq<nat> :: Path(G, roots, perms, path) && path[|path| - 1] == o
  }

  /** A set with all local roots, and with all that its members and the permanent objects point to. */
  ghost predicate ClosedUnder(G: Graph, roots: set<nat>, perms: set<nat>, s: set<nat>)
    requires GraphOk(G) && perms <= G.objs && s <= G.objs
  {
    && (forall o :: o in roots && Local(G, o) ==> o in s)
    && (forall o :: o in s + perms ==> ObjectOk(G, o) && Done(G, s, o))
  }

  /** A closed set has everything reachable in it. */
  lemma {:induction false} ClosedHasReachable(G: Graph, roots: set<nat>, perms: set<nat>, s: set<nat>, path: seq<nat>)
    requires GraphOk(G) && perms <= G.objs && s <= G.objs && ClosedUnder(G, roots, perms, s)
    requires Path(G, roots, perms, path)
    ensures path[|path| - 1] in s
    decreases |path|
  {
    hide GraphOk, Local;
    var last := |path| - 1;
    if last == 0 {
      if path[0] !in roots {
        var q :| q in perms && PointsTo(G, q, path[0]);
        DoneHas(G, s, q, path[0]);
      }
    } else {
      ClosedHasReachable(G, roots, perms, s, path[..last]);
      assert PointsTo(G, path[last - 1], path[last]);
      DoneHas(G, s, path[last - 1], path[last]);
    }
  }

  lemma DoneHas(G: Graph, s: set<nat>, o: nat, p: nat)
    requires ObjectOk(G, o) && Done(G, s, o) && PointsTo(G, o, p)
    ensures p in s
  {
    hide Local;
    var w: nat :| o <= w < o + Size(G, o) && w < |G.mem| && G.mem[w] == Pointer(p);
    assert FieldDone(G, s, w);
  }

  ghost function ReachableSet(G: Graph, roots: set<nat>, perms: set<nat>): set<nat>
    requires GraphOk(G) && perms <= G.objs
  {
    set o | o in G.objs && Reachable(G, roots, perms, o)
  }

  /** The reachable objects are themselves a closed set. */
  lemma ReachableIsClosed(G: Graph, roots: set<nat>, perms: set<nat>)
    requires GraphOk(G) && perms <= G.objs && roots <= G.objs
    ensures ClosedUnder(G, roots, perms, ReachableSet(G, roots, perms))
  {
    hide Local, ObjectOk, Tiled;
    var s := ReachableSet(G, roots, perms);
    forall o | o in roots && Local(G, o)
      ensures o in s
    {
      assert Path(G, roots, perms, [o]);
    }
    forall o | o in s + perms
      ensures ObjectOk(G, o) && Done(G, s, o)
    {
      ReachableDone(G, roots, perms, o);
    }
  }

  lemma ReachableDone(G: Graph, roots: set<nat>, perms: set<nat>, o: nat)
    requires GraphOk(G) && perms <= G.objs && o in ReachableSet(G, roots, perms) + perms
    ensures ObjectOk(G, o) && Done(G, ReachableSet(G, roots, perms), o)
  {
    hide Local, Tiled;
    var s := ReachableSet(G, roots, perms);
    assert ObjectOk(G, o);
    if !IsByte(G, o) {
      forall w | o <= w < o + Size(G, o)
        ensures FieldDone(G, s, w)
      {
        assert FieldOk(G, G.mem[w]);
        if G.mem[w].Pointer? && Local(G, G.mem[w].addr) {
          assert PointsTo(G, o, G.mem[w].addr);
          LongerPath(G, roots, perms, o, G.mem[w].addr);
        }
      }
    }
  }

  lemma LongerPath(G: Graph, roots: set<nat>, perms: set<nat>, o: nat, p: nat)
    requires GraphOk(G) && perms <= G.objs && o in ReachableSet(G, roots, perms) + perms
    requires ObjectOk(G, o) && PointsTo(G, o, p) && p in G.objs
    ensures Reachable(G, roots, perms, p)
  {
    hide GraphOk, Local, PointsTo;
    assert Local(G, p) by { PointsToLocal(G, o, p); }
    if o in perms {
      assert Path(G, roots, perms, [p]);
    } else {
      var path: seq<nat> :| Path(G, roots, perms, path) && path[|path| - 1] == o;
      assert Path(G, roots, perms, path + [p]);
      assert (path + [p])[|path + [p]| - 1] == p;
    }
  }

  lemma PointsToLocal(G: Graph, o: nat, p: nat)
    requires ObjectOk(G, o) && PointsTo(G, o, p)
    ensures Local(G, p)
  {
  }

  /** The live objects are exactly the least closed set. */
  lemma LeastClosedIsReachable(G: Graph, roots: set<nat>, perms: set<nat>, s: set<nat>)
    requires GraphOk(G) && perms <= G.objs && roots <= G.objs && s <= G.objs && ClosedUnder(G, roots, perms, s)
    requires forall o :: o in s ==> o in ReachableSet(G, roots, perms)
    ensures forall o :: o in G.objs ==> (o in s <==> Reachable(G, roots, perms, o))
  {
    hide GraphOk, ClosedUnder;
    forall o | o in G.objs && Reachable(G, roots, perms, o)
      ensures o in s
    {
      var path: seq<nat> :| |path| > 0 && Path(G, roots, perms, path) && path[|path| - 1] == o;
      ClosedHasReachable(G, roots, perms, s, path);
    }
  }
}
