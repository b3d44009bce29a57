/** The index from addresses to spaces: a tree whose nodes each decide one byte of an address. */
module SpaceTrees {
  import opened Arithmetic
  import opened Digits

  type SpaceId = nat

  /** An entry of a node: nothing, a space, or a further node. */
  datatype Tree = Null | Leaf(space: SpaceId) | Node(tree: seq<Tree>)

  datatype Option<T> = None | Some(value: T)

  /** The entries of a new node. */
  function NewEntries(): (ts: seq<Tree>)
    ensures |ts| == 256 && forall i :: 0 <= i < 256 ==> ts[i] == Null
  {
    seq(256, i => Null)
  }

  /** Nodes have 256 entries, and there are at most n of them on any path. */
  predicate WellFormed(t: Tree, n: nat) {
    t.Node? ==> n > 0 && |t.tree| == 256 && forall i :: 0 <= i < 256 ==> WellFormed(t.tree[i], n - 1)
  }

  /** The entries of a node; those of a node that is yet to be made are empty. */
  function Entries(t: Tree): seq<Tree> {
    if t.Node? then t.tree else NewEntries()
  }

  /** Following an address of n bytes from a node. */
  function Lookup(t: Tree, n: nat, x: nat): Option<SpaceId>
    requires WellFormed(t, n) && x < Pow256(n)
    decreases n
  {
    match t
    case Null => None
    case Leaf(space) => Some(space)
    case Node(ts) =>
      IndexBounds(n - 1, x);
      Lookup(ts[x / Pow256(n - 1)], n - 1, x % Pow256(n - 1))
  }

  lemma IndexBounds(n: nat, x: nat)
    requires x < Pow256(n + 1)
    ensures Pow256(n) > 0 && 0 <= x / Pow256(n) < 256 && 0 <= x % Pow256(n) < Pow256(n)
    ensures x == x / Pow256(n) * Pow256(n) + x % Pow256(n)
  {
    hide Pow256;
    Pow256Positive(n);
    Pow256Succ(n);
    DivMod(x, Pow256(n));
    DivNonNegative(x, Pow256(n));
    MulCancelStrict(x / Pow256(n), 256, Pow256(n));
  }

  lemma {:induction false} Pow256Positive(n: nat)
    ensures Pow256(n) > 0
  {
    if n > 0 { Pow256Positive(n - 1); }
  }

  /** Where entry i of a node begins, p addresses to an entry. */
  function Base(i: int, p: int): int {
    i * p
  }

  /** The part of the range from a to e that falls in an entry of p addresses beginning at k. */
  function Lo(k: int, a: int): int {
    if a > k then a - k else 0
  }

  function Hi(k: int, e: int, p: int): int {
    if e < k + p then e - k else p
  }

  /** The range misses the entry, fills it or covers part of it. */
  datatype Cover = Misses | Fills | Part(lo: nat, hi: nat)

  function CoverOf(k: int, p: int, a: int, e: int): (c: Cover)
    ensures c.Part? ==> c.lo < c.hi <= p && !(c.lo == 0 && c.hi == p)
  {
    if Lo(k, a) >= Hi(k, e, p) then Misses
    else if Lo(k, a) == 0 && Hi(k, e, p) == p then Fills
    else Part(Lo(k, a), Hi(k, e, p))
  }

  /** A place y within an entry is in the range exactly as its cover says. */
  lemma Covers(k: int, p: int, a: int, e: int, y: int)
    requires 0 <= y < p
    ensures CoverOf(k, p, a, e).Misses? ==> !(a <= k + y < e)
    ensures CoverOf(k, p, a, e).Fills? ==> a <= k + y < e
    ensures CoverOf(k, p, a, e).Part? ==> (a <= k + y < e <==> CoverOf(k, p, a, e).lo <= y < CoverOf(k, p, a, e).hi)
  {
  }

  // ---------- What adding and removing a range mean ----------

  /** How the range covers entry i of a node of n bytes. */
  function EntryCover(n: nat, a: int, e: int, i: int): (c: Cover)
    requires n > 0
  {
    CoverOf(Base(i, Pow256(n - 1)), Pow256(n - 1), a, e)
  }

  /** The tree with a space added for a range nothing in the tree has part of. */
  function Added(t: Tree, n: nat, space: SpaceId, a: int, e: int): (r: Tree)
    requires WellFormed(t, n) && n > 0
    ensures WellFormed(r, n) && r.Node?
    decreases n, 0
  {
    Node(seq(256, i requires 0 <= i < 256 => AddedEntry(Entries(t)[i], n - 1, space, EntryCover(n, a, e, i))))
  }

  function AddedEntry(t: Tree, n: nat, space: SpaceId, c: Cover): (r: Tree)
    requires WellFormed(t, n)
    ensures WellFormed(r, n)
    decreases n, 1
  {
    match c
    case Misses => t
    case Fills => Leaf(space)
    case Part(lo, hi) => if n > 0 then Added(t, n, space, lo, hi) else t
  }

  predicate AllNull(ts: seq<Tree>) {
    forall i :: 0 <= i < |ts| ==> ts[i].Null?
  }

  /** A node none of whose entries is in use is given back. */
  function Pruned(ts: seq<Tree>): Tree {
    if AllNull(ts) then Null else Node(ts)
  }

  /** The tree without what it holds for a range. */
  function Removed(t: Tree, n: nat, a: int, e: int): (r: Tree)
    requires WellFormed(t, n)
    ensures WellFormed(r, n)
    decreases n, 0
  {
    if !t.Node? then t
    else Pruned(seq(256, i requires 0 <= i < 256 => RemovedEntry(t.tree[i], n - 1, EntryCover(n, a, e, i))))
  }

  function RemovedEntry(t: Tree, n: nat, c: Cover): (r: Tree)
    requires WellFormed(t, n)
    ensures WellFormed(r, n)
    decreases n, 1
  {
    match c
    case Misses => t
    case Fills => Null
    case Part(lo, hi) => Removed(t, n, lo, hi)
  }

  /** No node is without an entry in use. */
  ghost predicate NoEmpty(t: Tree)
  {
    t.Node? ==> !AllNull(t.tree) && forall i :: 0 <= i < |t.tree| ==> NoEmpty(t.tree[i])
  }

  /** Nothing is found anywhere in the range. */
  ghost predicate Free(t: Tree, n: nat, a: int, e: int)
    requires WellFormed(t, n)
  {
    forall x: nat :: x < Pow256(n) && a <= x < e ==> Lookup(t, n, x) == None
  }

  /** The entry of an address within an entry. */
  lemma EntryAddress(n: nat, i: nat, y: nat)
    requires i < 256 && y < Pow256(n)
    ensures Base(i, Pow256(n)) + y < Pow256(n + 1) && Base(i, Pow256(n)) >= 0
    ensures (Base(i, Pow256(n)) + y) / Pow256(n) == i && (Base(i, Pow256(n)) + y) % Pow256(n) == y
  {
    hide Pow256;
    Pow256Succ(n);
    MulNonNegative(i, Pow256(n));
    MulMonotone(i + 1, 256, Pow256(n));
    MulDistribute(i, 1, Pow256(n));
    DivisionUnique(i * Pow256(n) + y, Pow256(n), i, y);
  }

  lemma LookupEntry(t: Tree, n: nat, i: nat, y: nat)
    requires WellFormed(t, n) && t.Node? && i < 256 && y < Pow256(n - 1)
    ensures 0 <= Base(i, Pow256(n - 1)) + y < Pow256(n)
    ensures Lookup(t, n, Base(i, Pow256(n - 1)) + y) == Lookup(t.tree[i], n - 1, y)
  {
    hide Pow256, Base;
    EntryAddress(n - 1, i, y);
  }

  /** What is free in a node is free in its entries. */
  lemma FreeEntry(t: Tree, n: nat, a: int, e: int, i: nat)
    requires WellFormed(t, n) && t.Node? && Free(t, n, a, e) && i < 256
    ensures EntryCover(n, a, e, i).Fills? ==> Free(t.tree[i], n - 1, 0, Pow256(n - 1))
    ensures EntryCover(n, a, e, i).Part? ==> Free(t.tree[i], n - 1, EntryCover(n, a, e, i).lo, EntryCover(n, a, e, i).hi)
  {
    hide Pow256, Base, CoverOf;
    var p, c := Pow256(n - 1), EntryCover(n, a, e, i);
    forall y: nat {:trigger Lookup(t.tree[i], n - 1, y)} | y < p && (c.Fills? || (c.Part? && c.lo <= y < c.hi))
      ensures Lookup(t.tree[i], n - 1, y) == None
    {
      Covers(Base(i, p), p, a, e, y);
      LookupEntry(t, n, i, y);
    }
  }

  /** A whole subtree that is free is not there: nothing empty is kept. */
  lemma {:induction false} FreeIsNull(t: Tree, n: nat)
    requires WellFormed(t, n) && NoEmpty(t) && Free(t, n, 0, Pow256(n))
    ensures t.Null?
    decreases n
  {
    hide Pow256, Base;
    Pow256Positive(n);
    assert Lookup(t, n, 0) == None;
    if t.Node? {
      var i :| 0 <= i < 256 && !t.tree[i].Null?;
      FreeEntry(t, n, 0, Pow256(n), i);
      FillsAll(n - 1, i);
      FreeIsNull(t.tree[i], n - 1);
    }
  }

  /** All of a node fills each of its entries. */
  lemma FillsAll(n: nat, i: nat)
    requires i < 256
    ensures EntryCover(n + 1, 0, Pow256(n + 1), i).Fills?
  {
    hide Pow256;
    Pow256Positive(n);
    Pow256Succ(n);
    MulNonNegative(i, Pow256(n));
    MulMonotone(i + 1, 256, Pow256(n));
    MulDistribute(i, 1, Pow256(n));
  }

  lemma CoverBound(n: nat, a: int, e: int, i: int)
    requires n > 0 && EntryCover(n, a, e, i).Part?
    ensures EntryCover(n, a, e, i).lo < EntryCover(n, a, e, i).hi <= Pow256(n - 1)
  {
    hide Pow256, Base;
  }

  /** An entry of one address is never covered in part. */
  lemma PartIsDeep(n: nat, a: int, e: int, i: int)
    requires n > 0 && EntryCover(n, a, e, i).Part?
    ensures n > 1
  {
    hide Base;
    assert Pow256(0) == 1;
  }

  lemma EntryOf(n: nat, x: nat)
    requires n > 0 && x < Pow256(n)
    ensures 0 <= x / Pow256(n - 1) < 256 && 0 <= x % Pow256(n - 1) < Pow256(n - 1)
    ensures x == Base(x / Pow256(n - 1), Pow256(n - 1)) + x % Pow256(n - 1)
  {
    hide Pow256;
    IndexBounds(n - 1, x);
  }

  /** An address of an entry is in the range exactly as the entry's cover says. */
  lemma InEntry(n: nat, a: int, e: int, x: nat)
    requires n > 0 && x < Pow256(n)
    ensures var c := EntryCover(n, a, e, x / Pow256(n - 1)); var y := x % Pow256(n - 1);
      if c.Misses? then !(a <= x < e) else if c.Fills? then a <= x < e else a <= x < e <==> c.lo <= y < c.hi
  {
    hide Pow256, Base;
    EntryOf(n, x);
    Covers(Base(x / Pow256(n - 1), Pow256(n - 1)), Pow256(n - 1), a, e, x % Pow256(n - 1));
  }

  /** Nothing found in a part of a tree means it is not a single space. */
  lemma FreeNotLeaf(t: Tree, n: nat, a: int, e: int)
    requires WellFormed(t, n) && Free(t, n, a, e) && 0 <= a < e <= Pow256(n)
    ensures !t.Leaf?
  {
    assert Lookup(t, n, a) == None;
  }

  lemma NewEntryFree(n: nat, a: int, e: int)
    ensures WellFormed(Null, n) && Free(Null, n, a, e)
  {
  }

  /** What is known of the entry an addition goes on to. */
  lemma AddedEntryOk(t: Tree, n: nat, a: int, e: int, i: nat)
    requires WellFormed(t, n) && n > 0 && !t.Leaf? && Free(t, n, a, e) && i < 256 && EntryCover(n, a, e, i).Part?
    ensures n > 1 && WellFormed(Entries(t)[i], n - 1) && !Entries(t)[i].Leaf?
    ensures Free(Entries(t)[i], n - 1, EntryCover(n, a, e, i).lo, EntryCover(n, a, e, i).hi)
  {
    hide Pow256, Base, Free;
    var c := EntryCover(n, a, e, i);
    PartIsDeep(n, a, e, i);
    if t.Node? {
      FreeEntry(t, n, a, e, i);
    } else {
      NewEntryFree(n - 1, c.lo, c.hi);
    }
    FreeNotLeaf(Entries(t)[i], n - 1, c.lo, c.hi);
  }

  /** After adding a range, it is found where it was added and all else is as it was. */
  lemma {:induction false} LookupAdded(t: Tree, n: nat, space: SpaceId, a: int, e: int, x: nat)
    requires WellFormed(t, n) && n > 0 && !t.Leaf? && Free(t, n, a, e) && x < Pow256(n)
    ensures Lookup(Added(t, n, space, a, e), n, x) == if a <= x < e then Some(space) else Lookup(t, n, x)
    decreases n
  {
    hide Pow256, Base, CoverOf, Free;
    IndexBounds(n - 1, x);
    InEntry(n, a, e, x);
    var i, y := x / Pow256(n - 1), x % Pow256(n - 1);
    var c := EntryCover(n, a, e, i);
    if c.Part? {
      AddedEntryOk(t, n, a, e, i);
      LookupAdded(Entries(t)[i], n - 1, space, c.lo, c.hi, y);
    }
  }

  /** Every node but perhaps the first has an entry in use. */
  ghost predicate NoEmptyBelow(t: Tree) {
    t.Node? ==> forall i :: 0 <= i < |t.tree| ==> NoEmpty(t.tree[i])
  }

  /** Adding leaves no empty node. */
  lemma {:induction false} AddedNoEmpty(t: Tree, n: nat, space: SpaceId, a: int, e: int)
    requires WellFormed(t, n) && n > 0 && !t.Leaf? && Free(t, n, a, e) && NoEmptyBelow(t) && 0 <= a < e <= Pow256(n)
    ensures NoEmpty(Added(t, n, space, a, e))
    decreases n
  {
    hide Pow256, Base, CoverOf, Free;
    var r := Added(t, n, space, a, e);
    forall i | 0 <= i < 256
      ensures NoEmpty(r.tree[i])
    {
      var c := EntryCover(n, a, e, i);
      assert r.tree[i] == AddedEntry(Entries(t)[i], n - 1, space, c) && NoEmpty(Entries(t)[i]);
      if c.Part? {
        AddedEntryOk(t, n, a, e, i);
        assert c.hi <= Pow256(n - 1) by { CoverBound(n, a, e, i); }
        AddedNoEmpty(Entries(t)[i], n - 1, space, c.lo, c.hi);
      }
    }
    EntryOf(n, a);
    InEntry(n, a, e, a);
    var k := a / Pow256(n - 1);
    if EntryCover(n, a, e, k).Part? { AddedEntryOk(t, n, a, e, k); }
    assert r.tree[k] == AddedEntry(Entries(t)[k], n - 1, space, EntryCover(n, a, e, k));
    assert !r.tree[k].Null?;
  }

  // ---------- Removing ----------

  /** What a range is removed from: whole entries hold that space or nothing, and no space covers part of an entry. */
  ghost predicate Removable(t: Tree, n: nat, space: SpaceId, a: int, e: int)
    requires WellFormed(t, n)
    decreases n, 0
  {
    !t.Leaf? && (t.Node? ==> forall i :: 0 <= i < 256 ==> RemovableEntry(t.tree[i], n - 1, space, EntryCover(n, a, e, i)))
  }

  ghost predicate RemovableEntry(t: Tree, n: nat, space: SpaceId, c: Cover)
    requires WellFormed(t, n)
    decreases n, 1
  {
    match c
    case Misses => true
    case Fills => t == Null || t == Leaf(space)
    case Part(lo, hi) => Removable(t, n, space, lo, hi)
  }

  /** After removing a range nothing is found there and all else is as it was. */
  lemma {:induction false} LookupRemoved(t: Tree, n: nat, space: SpaceId, a: int, e: int, x: nat)
    requires WellFormed(t, n) && Removable(t, n, space, a, e) && x < Pow256(n)
    ensures Lookup(Removed(t, n, a, e), n, x) == if a <= x < e then None else Lookup(t, n, x)
    decreases n
  {
    hide Pow256, Base, CoverOf;
    if t.Node? {
      IndexBounds(n - 1, x);
      InEntry(n, a, e, x);
      var i, y := x / Pow256(n - 1), x % Pow256(n - 1);
      var c := EntryCover(n, a, e, i);
      assert RemovableEntry(t.tree[i], n - 1, space, c);
      if c.Part? {
        LookupRemoved(t.tree[i], n - 1, space, c.lo, c.hi, y);
      }
      PrunedLookup(t, n, a, e, x);
    }
  }

  /** Giving back a node with no entry in use changes no answer. */
  lemma PrunedLookup(t: Tree, n: nat, a: int, e: int, x: nat)
    requires WellFormed(t, n) && t.Node? && x < Pow256(n)
    ensures 0 <= x / Pow256(n - 1) < 256 && x % Pow256(n - 1) < Pow256(n - 1)
    ensures Lookup(Removed(t, n, a, e), n, x)
      == Lookup(RemovedEntry(t.tree[x / Pow256(n - 1)], n - 1, EntryCover(n, a, e, x / Pow256(n - 1))), n - 1, x % Pow256(n - 1))
  {
    hide Pow256, Base, CoverOf, RemovedEntry;
    IndexBounds(n - 1, x);
    var ts := seq(256, i requires 0 <= i < 256 => RemovedEntry(t.tree[i], n - 1, EntryCover(n, a, e, i)));
    assert Removed(t, n, a, e) == Pruned(ts);
    var i := x / Pow256(n - 1);
    assert ts[i] == RemovedEntry(t.tree[i], n - 1, EntryCover(n, a, e, i));
    if AllNull(ts) { assert ts[i].Null?; }
  }

  lemma {:induction false} RemovedNoEmpty(t: Tree, n: nat, a: int, e: int)
    requires WellFormed(t, n) && NoEmptyBelow(t)
    ensures NoEmpty(Removed(t, n, a, e))
    decreases n
  {
    hide Pow256, Base, CoverOf;
    if t.Node? {
      forall i | 0 <= i < 256
        ensures NoEmpty(RemovedEntry(t.tree[i], n - 1, EntryCover(n, a, e, i)))
      {
        var c := EntryCover(n, a, e, i);
        if c.Part? {
          RemovedNoEmpty(t.tree[i], n - 1, c.lo, c.hi);
        }
      }
    }
  }

  // ---------- A range that has been added ----------

  /** A space is entered for the whole of a range. */
  ghost predicate Installed(t: Tree, n: nat, space: SpaceId, a: int, e: int)
    requires WellFormed(t, n)
    decreases n, 0
  {
    t.Node? && forall i :: 0 <= i < 256 ==> InstalledEntry(t.tree[i], n - 1, space, EntryCover(n, a, e, i))
  }

  ghost predicate InstalledEntry(t: Tree, n: nat, space: SpaceId, c: Cover)
    requires WellFormed(t, n)
    decreases n, 1
  {
    match c
    case Misses => true
    case Fills => t == Leaf(space)
    case Part(lo, hi) => Installed(t, n, space, lo, hi)
  }

  lemma {:induction false} AddedInstalled(t: Tree, n: nat, space: SpaceId, a: int, e: int)
    requires WellFormed(t, n) && n > 0
    ensures Installed(Added(t, n, space, a, e), n, space, a, e)
    decreases n
  {
    hide Pow256, Base, CoverOf;
    forall i | 0 <= i < 256
      ensures InstalledEntry(AddedEntry(Entries(t)[i], n - 1, space, EntryCover(n, a, e, i)), n - 1, space, EntryCover(n, a, e, i))
    {
      var c := EntryCover(n, a, e, i);
      if c.Part? {
        PartIsDeep(n, a, e, i);
        AddedInstalled(Entries(t)[i], n - 1, space, c.lo, c.hi);
      }
    }
  }

  lemma {:induction false} LookupInstalled(t: Tree, n: nat, space: SpaceId, a: int, e: int, x: nat)
    requires WellFormed(t, n) && Installed(t, n, space, a, e) && x < Pow256(n) && a <= x < e
    ensures Lookup(t, n, x) == Some(space)
    decreases n
  {
    hide Pow256, Base, CoverOf;
    IndexBounds(n - 1, x);
    InEntry(n, a, e, x);
    var i, y := x / Pow256(n - 1), x % Pow256(n - 1);
    var c := EntryCover(n, a, e, i);
    assert InstalledEntry(t.tree[i], n - 1, space, c);
    if c.Part? {
      LookupInstalled(t.tree[i], n - 1, space, c.lo, c.hi, y);
    }
  }

  lemma {:induction false} InstalledRemovable(t: Tree, n: nat, space: SpaceId, a: int, e: int)
    requires WellFormed(t, n) && Installed(t, n, space, a, e)
    ensures Removable(t, n, space, a, e)
    decreases n
  {
    hide Pow256, Base, CoverOf;
    forall i | 0 <= i < 256
      ensures RemovableEntry(t.tree[i], n - 1, space, EntryCover(n, a, e, i))
    {
      var c := EntryCover(n, a, e, i);
      assert InstalledEntry(t.tree[i], n - 1, space, c);
      if c.Part? {
        InstalledRemovable(t.tree[i], n - 1, space, c.lo, c.hi);
      }
    }
  }

  /** Ranges that share no address. */
  predicate Disjoint(a: int, e: int, a': int, e': int) {
    e <= a' || e' <= a
  }

  /** Of two disjoint ranges at most one fills an entry, and what they cover of it is disjoint. */
  lemma DisjointCovers(k: int, p: int, a: int, e: int, a': int, e': int)
    requires p > 0 && Disjoint(a, e, a', e')
    ensures var c, c' := CoverOf(k, p, a, e), CoverOf(k, p, a', e');
      && (c.Fills? ==> c'.Misses?) && (c'.Fills? ==> c.Misses?)
      && (c.Part? && c'.Part? ==> Disjoint(c.lo, c.hi, c'.lo, c'.hi))
  {
  }

  lemma DisjointEntry(n: nat, a: int, e: int, a': int, e': int, i: int)
    requires n > 0 && Disjoint(a, e, a', e')
    ensures var c, c' := EntryCover(n, a, e, i), EntryCover(n, a', e', i);
      && (c.Fills? ==> c'.Misses?) && (c'.Fills? ==> c.Misses?)
      && (c.Part? && c'.Part? ==> Disjoint(c.lo, c.hi, c'.lo, c'.hi))
  {
    hide Pow256, Base, CoverOf;
    Pow256Positive(n - 1);
    DisjointCovers(Base(i, Pow256(n - 1)), Pow256(n - 1), a, e, a', e');
  }

  lemma {:induction false} AddedKeeps(t: Tree, n: nat, space: SpaceId, a: int, e: int, space': SpaceId, a': int, e': int)
    requires WellFormed(t, n) && n > 0 && Installed(t, n, space, a, e) && Disjoint(a, e, a', e')
    ensures Installed(Added(t, n, space', a', e'), n, space, a, e)
    decreases n
  {
    hide Pow256, Base, CoverOf;
    var r := Added(t, n, space', a', e');
    forall i | 0 <= i < 256
      ensures InstalledEntry(r.tree[i], n - 1, space, EntryCover(n, a, e, i))
    {
      var c, c' := EntryCover(n, a, e, i), EntryCover(n, a', e', i);
      assert r.tree[i] == AddedEntry(t.tree[i], n - 1, space', c');
      assert InstalledEntry(t.tree[i], n - 1, space, c);
      DisjointEntry(n, a, e, a', e', i);
      if c.Part? && c'.Part? {
        PartIsDeep(n, a, e, i);
        AddedKeeps(t.tree[i], n - 1, space, c.lo, c.hi, space', c'.lo, c'.hi);
      }
    }
  }

  lemma {:induction false} RemovedKeeps(t: Tree, n: nat, space: SpaceId, a: int, e: int, a': int, e': int)
    requires WellFormed(t, n) && Installed(t, n, space, a, e) && Disjoint(a, e, a', e') && 0 <= a < e <= Pow256(n)
    ensures Installed(Removed(t, n, a', e'), n, space, a, e)
    decreases n
  {
    hide Pow256, Base, CoverOf;
    var ts := seq(256, i requires 0 <= i < 256 => RemovedEntry(t.tree[i], n - 1, EntryCover(n, a', e', i)));
    forall i | 0 <= i < 256
      ensures InstalledEntry(ts[i], n - 1, space, EntryCover(n, a, e, i))
    {
      RemovedKeepsEntry(t, n, space, a, e, a', e', i);
    }
    EntryOf(n, a);
    InEntry(n, a, e, a);
    assert InstalledEntry(ts[a / Pow256(n - 1)], n - 1, space, EntryCover(n, a, e, a / Pow256(n - 1)));
    assert !ts[a / Pow256(n - 1)].Null?;
    assert Removed(t, n, a', e') == Node(ts);
  }

  lemma {:induction false} RemovedKeepsEntry(t: Tree, n: nat, space: SpaceId, a: int, e: int, a': int, e': int, i: nat)
    requires WellFormed(t, n) && Installed(t, n, space, a, e) && Disjoint(a, e, a', e') && i < 256
    ensures InstalledEntry(RemovedEntry(t.tree[i], n - 1, EntryCover(n, a', e', i)), n - 1, space, EntryCover(n, a, e, i))
    decreases n, 0
  {
    hide Pow256, Base, CoverOf;
    var c, c' := EntryCover(n, a, e, i), EntryCover(n, a', e', i);
    assert InstalledEntry(t.tree[i], n - 1, space, c);
    DisjointEntry(n, a, e, a', e', i);
    if c.Part? && c'.Part? {
      RemovedKeeps(t.tree[i], n - 1, space, c.lo, c.hi, c'.lo, c'.hi);
    }
  }

  // ---------- An addition that runs out of memory ----------

  /** The tree after part of an addition: some whole entries are set, some parts of entries begun. */
  ghost predicate PartlyAdded(t: Tree, t': Tree, n: nat, space: SpaceId, a: int, e: int)
    requires WellFormed(t, n) && WellFormed(t', n)
    decreases n, 0
  {
    t' == t
    || (t'.Node? && forall i :: 0 <= i < 256 ==>
          PartlyEntry(EntryOrNull(t, n, i), t'.tree[i], n - 1, space, EntryCover(n, a, e, i)))
  }

  /** Entry i of a node, or nothing if there is no node. */
  function EntryOrNull(t: Tree, n: nat, i: int): (r: Tree)
    requires WellFormed(t, n)
    ensures n > 0 ==> WellFormed(r, n - 1)
  {
    if t.Node? && 0 <= i < 256 then t.tree[i] else Null
  }

  ghost predicate PartlyEntry(t: Tree, t': Tree, n: nat, space: SpaceId, c: Cover)
    requires WellFormed(t, n) && WellFormed(t', n)
    decreases n, 1
  {
    match c
    case Misses => t' == t
    case Fills => t' == t || t' == Leaf(space)
    case Part(lo, hi) => PartlyAdded(t, t', n, space, lo, hi)
  }

  /** The tree without an empty first node. */
  function Normal(t: Tree): Tree {
    if t.Node? then Pruned(t.tree) else t
  }

  lemma NoEmptyNormal(t: Tree)
    requires NoEmpty(t)
    ensures Normal(t) == t && NoEmptyBelow(t)
  {
  }

  /** Removing a range from an entry that was not touched, or touched in part, gives the entry back. */
  lemma {:induction false} EntryRestored(t: Tree, t': Tree, n: nat, space: SpaceId, c: Cover)
    requires WellFormed(t, n) && WellFormed(t', n) && NoEmpty(t) && PartlyEntry(t, t', n, space, c)
    requires c.Fills? ==> Free(t, n, 0, Pow256(n))
    requires c.Part? ==> Free(t, n, c.lo, c.hi) && c.lo < c.hi <= Pow256(n)
    ensures RemovedEntry(t', n, c) == t
    decreases n, 1
  {
    hide Pow256, Free;
    NoEmptyNormal(t);
    if c.Fills? {
      FreeIsNull(t, n);
    } else if c.Part? {
      Restored(t, t', n, space, c.lo, c.hi);
    }
  }

  /** Removing a range after all or part of it has been added gives back the tree exactly as it was. */
  lemma {:induction false} Restored(t: Tree, t': Tree, n: nat, space: SpaceId, a: int, e: int)
    requires WellFormed(t, n) && WellFormed(t', n) && PartlyAdded(t, t', n, space, a, e)
    requires NoEmptyBelow(t) && Free(t, n, a, e) && 0 <= a < e <= Pow256(n)
    ensures Removed(t', n, a, e) == Normal(t)
    decreases n, 0
  {
    hide Pow256, Base, CoverOf, Free;
    FreeNotLeaf(t, n, a, e);
    if t'.Node? {
      var ts := seq(256, i requires 0 <= i < 256 => RemovedEntry(t'.tree[i], n - 1, EntryCover(n, a, e, i)));
      assert Removed(t', n, a, e) == Pruned(ts);
      forall i | 0 <= i < 256
        ensures ts[i] == EntryOrNull(t, n, i)
      {
        assert PartlyEntry(EntryOrNull(t, n, i), t'.tree[i], n - 1, space, EntryCover(n, a, e, i)) by {
          SameIsPartly(t, n, space, a, e, i);
        }
        RestoredEntry(t, n, a, e, i);
        EntryRestored(EntryOrNull(t, n, i), t'.tree[i], n - 1, space, EntryCover(n, a, e, i));
      }
      if t.Node? {
        assert ts == t.tree;
      }
    }
  }

  lemma SameIsPartly(t: Tree, n: nat, space: SpaceId, a: int, e: int, i: nat)
    requires WellFormed(t, n) && i < 256 && n > 0
    ensures PartlyEntry(EntryOrNull(t, n, i), EntryOrNull(t, n, i), n - 1, space, EntryCover(n, a, e, i))
  {
    hide Pow256, Base, CoverOf;
  }

  lemma RestoredEntry(t: Tree, n: nat, a: int, e: int, i: nat)
    requires WellFormed(t, n) && n > 0 && !t.Leaf? && NoEmptyBelow(t) && Free(t, n, a, e) && i < 256
    ensures NoEmpty(EntryOrNull(t, n, i))
    ensures EntryCover(n, a, e, i).Fills? ==> Free(EntryOrNull(t, n, i), n - 1, 0, Pow256(n - 1))
    ensures var c := EntryCover(n, a, e, i);
      c.Part? ==> Free(EntryOrNull(t, n, i), n - 1, c.lo, c.hi) && c.lo < c.hi <= Pow256(n - 1)
  {
    hide Pow256, Base, CoverOf, Free;
    var c := EntryCover(n, a, e, i);
    if c.Part? { CoverBound(n, a, e, i); }
    if t.Node? {
      FreeEntry(t, n, a, e, i);
    } else {
      NewEntryFree(n - 1, 0, Pow256(n - 1));
      if c.Part? { NewEntryFree(n - 1, c.lo, c.hi); }
    }
  }

  /** A complete addition is one way of adding in part. */
  lemma {:induction false} AddedPartly(t: Tree, n: nat, space: SpaceId, a: int, e: int)
    requires WellFormed(t, n) && n > 0 && !t.Leaf? && Free(t, n, a, e)
    ensures PartlyAdded(t, Added(t, n, space, a, e), n, space, a, e)
    decreases n
  {
    hide Pow256, Base, CoverOf, Free;
    var r := Added(t, n, space, a, e);
    forall i | 0 <= i < 256
      ensures PartlyEntry(EntryOrNull(t, n, i), r.tree[i], n - 1, space, EntryCover(n, a, e, i))
    {
      var c := EntryCover(n, a, e, i);
      assert r.tree[i] == AddedEntry(Entries(t)[i], n - 1, space, c) && Entries(t)[i] == EntryOrNull(t, n, i);
      if c.Part? {
        AddedEntryOk(t, n, a, e, i);
        AddedPartly(Entries(t)[i], n - 1, space, c.lo, c.hi);
      }
    }
  }

  /** What recovery removes is a partial addition. */
  lemma {:induction false} PartlyRemovable(t: Tree, t': Tree, n: nat, space: SpaceId, a: int, e: int)
    requires WellFormed(t, n) && WellFormed(t', n) && PartlyAdded(t, t', n, space, a, e)
    requires NoEmptyBelow(t) && Free(t, n, a, e) && 0 <= a < e <= Pow256(n)
    ensures Removable(t', n, space, a, e)
    decreases n, 0
  {
    hide Pow256, Base, CoverOf, Free;
    FreeNotLeaf(t, n, a, e);
    if t'.Node? {
      forall i | 0 <= i < 256
        ensures RemovableEntry(t'.tree[i], n - 1, space, EntryCover(n, a, e, i))
      {
        assert PartlyEntry(EntryOrNull(t, n, i), t'.tree[i], n - 1, space, EntryCover(n, a, e, i)) by {
          SameIsPartly(t, n, space, a, e, i);
        }
        RestoredEntry(t, n, a, e, i);
        var c := EntryCover(n, a, e, i);
        if c.Part? {
          NoEmptyNormal(EntryOrNull(t, n, i));
          PartlyRemovable(EntryOrNull(t, n, i), t'.tree[i], n - 1, space, c.lo, c.hi);
        } else if c.Fills? {
          FreeIsNull(EntryOrNull(t, n, i), n - 1);
        }
      }
    }
  }
}
