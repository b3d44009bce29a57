/** One level of sharing: bring addresses up to date, put off cells that are not ready, and merge the others. */
module ShareLevels {
  import opened ShareLists
  import opened ShareSort
  import opened ShareMeaning

  const BUCKETS: nat := 256

  /** The hash of a cell depends only on its contents. */
  function Hash(c: Contents): (r: nat)
    ensures r < BUCKETS
    decreases |c|
  {
    if |c| == 0 then 0 else (Code(c[0]) + Hash(c[1..])) % BUCKETS
  }

  /** No word is the address of a cell that is still linked in a list or has been merged. */
  predicate Settled(h: seq<Header>, c: Contents) {
    forall i :: 0 <= i < |c| ==> SettledWord(h, c[i])
  }

  predicate SettledWord(h: seq<Header>, v: Value) {
    v.Ptr? && v.addr < |h| ==> h[v.addr] == LengthWord
  }

  /** Some word is the address of a cell that is still linked in a list. */
  ghost predicate Waits(h: seq<Header>, c: Contents) {
    exists i :: 0 <= i < |c| && c[i].Ptr? && c[i].addr < |h| && h[c[i].addr].Chain?
  }

  /** Word i is the first that is the address of a cell still linked in a list; from it on the cell is as it was. */
  predicate StopsAt(h: seq<Header>, was: Contents, c: Contents, i: nat) {
    && i < |c| == |was| && c[i].Ptr? && c[i].addr < |h| && h[c[i].addr].Chain?
    && (forall j :: 0 <= j < i ==> SettledWord(h, c[j]))
    && (forall j :: i <= j < |c| ==> c[j] == was[j])
  }

  // ---------- The words of one cell ----------

  /** Word i of cell a is not what it was. */
  predicate Differs(c0: seq<Contents>, c: seq<Contents>, a: nat, i: nat) {
    a < |c0| && a < |c| && i < |c0[a]| && i < |c[a]| && c[a][i] != c0[a][i]
  }

  /** The words of the cells of s, each with its cell, that are not what they were. */
  ghost function Rewritten(c0: seq<Contents>, c: seq<Contents>, s: set<nat>): set<(nat, nat)> {
    set a: nat, i: nat | a in s && a < |c0| && i < |c0[a]| && Differs(c0, c, a, i) :: (a, i)
  }

  lemma NoneRewritten(c: seq<Contents>, s: set<nat>)
    ensures Rewritten(c, c, s) == {}
  {
  }

  /** A word that was as before is given another value. */
  lemma OneRewritten(c0: seq<Contents>, c: seq<Contents>, s: set<nat>, x: nat, i: nat, v: Value)
    requires x in s && x < |c0| == |c| && i < |c[x]| == |c0[x]| && c[x][i] == c0[x][i] && v != c[x][i]
    ensures |Rewritten(c0, c[x := c[x][i := v]], s)| == |Rewritten(c0, c, s)| + 1
  {
    var c' := c[x := c[x][i := v]];
    forall a: nat, j: nat
      ensures Differs(c0, c', a, j) <==> Differs(c0, c, a, j) || (a == x && j == i)
    {
    }
    assert Rewritten(c0, c', s) == Rewritten(c0, c, s) + {(x, i)};
  }

  /** Words rewritten in a cell that was as before add to those rewritten before. */
  lemma CellRewritten(c0: seq<Contents>, c: seq<Contents>, c': seq<Contents>, s: set<nat>, x: nat)
    requires x in s && x < |c0| == |c| == |c'| && c[x] == c0[x]
    requires forall a :: 0 <= a < |c| && a != x ==> c'[a] == c[a]
    ensures |Rewritten(c0, c', s)| == |Rewritten(c0, c, s)| + |Rewritten(c, c', {x})|
  {
    forall a: nat, j: nat
      ensures Differs(c0, c', a, j) <==> if a == x then Differs(c, c', a, j) else Differs(c0, c, a, j)
    {
    }
    assert Rewritten(c0, c', s) == Rewritten(c0, c, s) + Rewritten(c, c', {x});
    assert Rewritten(c0, c, s) !! Rewritten(c, c', {x});
  }

  /** Rewriting one word of one cell. */
  lemma OneWord(h: seq<Header>, cells: seq<Contents>, lengths: seq<int>, x: nat, i: nat)
    requires |h| == |cells| == |lengths| && Direct(h) && x < |cells| && i < |cells[x]|
    requires cells[x][i].Ptr? && cells[x][i].addr < |h| && h[cells[x][i].addr].Forward?
    ensures var cells' := cells[x := cells[x][i := Ptr(h[cells[x][i].addr].dest)]];
      SameMeaning(h, cells, h, cells', lengths) && SettledWord(h, cells'[x][i]) && SameSizes(cells, cells')
  {
    hide SameMeaning;
    var cells' := cells[x := cells[x][i := Ptr(h[cells[x][i].addr].dest)]];
    RewritesKeepMeaning(h, cells, cells', lengths);
  }

  lemma NoChange(h: seq<Header>, cells: seq<Contents>, lengths: seq<int>)
    requires |cells| == |lengths|
    ensures SameMeaning(h, cells, h, cells, lengths)
  {
    hide Unfold;
  }

  /**
   Bring the addresses in a cell up to date, as far as the first that is still to be shared. A cell
   that has one is deferred; otherwise all its words are settled.
   */
  method UpdateWords(h: array<Header>, cells: array<Contents>, x: nat, carry: nat, ghost lengths: seq<int>)
    returns (deferred: bool, carryOver: nat)
    requires h.Length == cells.Length == |lengths| && x < cells.Length && Direct(h[..])
    modifies cells
    ensures forall a :: 0 <= a < cells.Length && a != x ==> cells[a] == old(cells[a])
    ensures SameSizes(old(cells[..]), cells[..]) && SameMeaning(h[..], old(cells[..]), h[..], cells[..], lengths)
    ensures !deferred ==> Settled(h[..], cells[x])
    ensures deferred ==> Waits(h[..], cells[x]) && exists i :: StopsAt(h[..], old(cells[x]), cells[x], i)
    ensures carryOver == carry + |Rewritten(old(cells[..]), cells[..], {x})|
    ensures h[..] == old(h[..])
  {
    hide SameMeaning, Direct, Rewritten;
    ghost var hs, start := h[..], cells[..];
    deferred, carryOver := false, carry;
    NoChange(hs, start, lengths);
    NoneRewritten(start, {x});
    var i := 0;
    while i < |cells[x]|
      invariant 0 <= i <= |cells[x]| && h[..] == hs
      invariant forall a :: 0 <= a < cells.Length && a != x ==> cells[a] == start[a]
      invariant SameSizes(start, cells[..]) && SameMeaning(hs, start, hs, cells[..], lengths)
      invariant forall j :: 0 <= j < i ==> SettledWord(hs, cells[x][j])
      invariant |cells[x]| == |start[x]| && forall j :: i <= j < |cells[x]| ==> cells[x][j] == start[x][j]
      invariant carryOver == carry + |Rewritten(start, cells[..], {x})|
    {
      var w := cells[x][i];
      if w.Ptr? && w.addr < h.Length {
        var p := w.addr;
        if h[p].Forward? {
          ghost var was := cells[..];
          OneWord(hs, was, lengths, x, i);
          OneRewritten(start, was, {x}, x, i, Ptr(hs[p].dest));
          cells[x] := cells[x][i := Ptr(h[p].dest)];
          assert cells[..] == was[x := was[x][i := Ptr(hs[p].dest)]];
          SameMeaningTwice(hs, start, hs, was, hs, cells[..], lengths);
          carryOver := carryOver + 1;
        } else if h[p].Chain? {
          assert StopsAt(hs, start[x], cells[x], i);
          return true, carryOver;
        }
      }
      i := i + 1;
    }
  }

  // ---------- The deferred list and the hash table ----------

  /** The lists of the hash table hold cells of their own hash. */
  ghost predicate BucketOk(h: seq<Header>, cells: seq<Contents>, head: nat, xs: seq<nat>, j: nat) {
    && ListOf(h, cells, head, xs)
    && forall x :: x in Cells(xs) && x < |cells| ==> Hash(cells[x]) == j
  }

  ghost predicate TableOk(h: seq<Header>, cells: seq<Contents>, heads: seq<nat>, lists: seq<seq<nat>>) {
    && |heads| == |lists| == BUCKETS
    && (forall j :: 0 <= j < BUCKETS ==> BucketOk(h, cells, heads[j], lists[j], j))
    && (forall j, k :: 0 <= j < k < BUCKETS ==> Cells(lists[j]) !! Cells(lists[k]))
  }

  /** The cells of the first n lists. */
  ghost function CellsOf(lists: seq<seq<nat>>, n: nat): set<nat>
    requires n <= |lists|
  {
    if n == 0 then {} else CellsOf(lists, n - 1) + Cells(lists[n - 1])
  }

  lemma {:induction false} InCellsOf(lists: seq<seq<nat>>, n: nat)
    requires n <= |lists|
    ensures forall x :: x in CellsOf(lists, n) <==> exists j :: 0 <= j < n && x in Cells(lists[j])
  {
    if n > 0 { InCellsOf(lists, n - 1); }
  }

  lemma {:induction false} NoLists(lists: seq<seq<nat>>, n: nat)
    requires n <= |lists| && forall j :: 0 <= j < |lists| ==> lists[j] == []
    ensures CellsOf(lists, n) == {}
  {
    if n > 0 { NoLists(lists, n - 1); }
  }

  lemma {:induction false} CellsOfUpdate(lists: seq<seq<nat>>, n: nat, j: nat, xs: seq<nat>, x: nat)
    requires j < |lists| && n <= |lists| && Cells(xs) == Cells(lists[j]) + {x}
    ensures CellsOf(lists[j := xs], n) == if j < n then CellsOf(lists, n) + {x} else CellsOf(lists, n)
  {
    if n > 0 { CellsOfUpdate(lists, n - 1, j, xs, x); }
  }

  /** A cell is settled or not by which cells have their length word. */
  lemma SettledSame(h: seq<Header>, h': seq<Header>, c: Contents)
    requires Settled(h, c) && |h'| == |h| && forall a :: 0 <= a < |h| && h[a] == LengthWord ==> h'[a] == LengthWord
    ensures Settled(h', c)
  {
    forall i | 0 <= i < |c|
      ensures SettledWord(h', c[i])
    {
      assert SettledWord(h, c[i]);
    }
  }

  /** Cells waiting in a list, put off, or in the hash table; none twice. */
  ghost predicate Split(h: seq<Header>, cells: seq<Contents>, whole: set<nat>, head: nat, zs: seq<nat>, later: nat, ds: seq<nat>,
                        heads: seq<nat>, lists: seq<seq<nat>>) {
    && ListOf(h, cells, head, zs) && ListOf(h, cells, later, ds) && TableOk(h, cells, heads, lists)
    && Parts(whole, Cells(zs), Cells(ds), CellsOf(lists, BUCKETS), {})
  }

  /** The cells of s hold only addresses of cells with their length word. */
  ghost predicate AllSettled(h: seq<Header>, cells: seq<Contents>, s: set<nat>) {
    forall x :: x in s && x < |cells| ==> Settled(h, cells[x])
  }

  /** Cells stay settled when others are rewritten or linked, and while they are merged. */
  lemma SettledKept(h: seq<Header>, h': seq<Header>, cells: seq<Contents>, cells': seq<Contents>, s: set<nat>)
    requires AllSettled(h, cells, s) && |h'| == |h| && |cells'| == |cells|
    requires forall a :: 0 <= a < |h| && h[a] == LengthWord ==> h'[a] == LengthWord
    requires forall a :: 0 <= a < |cells| && a in s ==> cells'[a] == cells[a]
    ensures AllSettled(h', cells', s)
  {
    hide Settled;
    forall x | x in s && x < |cells'|
      ensures Settled(h', cells'[x])
    {
      SettledSame(h, h', cells[x]);
    }
  }

  /** The cells of s hold an address of a cell that was to be shared. */
  ghost predicate AllWait(h: seq<Header>, cells: seq<Contents>, s: set<nat>) {
    forall x :: x in s && x < |cells| ==> Waits(h, cells[x])
  }

  lemma NoneWait(h: seq<Header>, cells: seq<Contents>)
    ensures AllWait(h, cells, Cells([]))
  {
  }

  /** A cell that waits now waited at the start, for no cell is linked that was not linked then. */
  lemma OneMoreWaits(h0: seq<Header>, c0: seq<Contents>, h: seq<Header>, cells: seq<Contents>, lengths: seq<int>,
                     head: nat, xs: seq<nat>, ds: seq<nat>, x: nat)
    requires x < |cells| && AllWait(h0, cells, Cells(ds)) && Waits(h, cells[x]) && Kept(h0, c0, h, cells, lengths, Cells(xs))
    requires ListOf(h0, c0, head, xs)
    ensures AllWait(h0, cells, Cells([x] + ds))
  {
    hide SameMeaning, Direct;
    ListInBounds(h0, head, xs);
    var i :| 0 <= i < |cells[x]| && cells[x][i].Ptr? && cells[x][i].addr < |h| && h[cells[x][i].addr].Chain?;
    assert h0[cells[x][i].addr].Chain?;
    assert Waits(h0, cells[x]);
  }

  lemma WaitKept(h0: seq<Header>, cells: seq<Contents>, cells': seq<Contents>, s: set<nat>)
    requires AllWait(h0, cells, s) && |cells'| == |cells| && forall a :: 0 <= a < |cells| && a in s ==> cells'[a] == cells[a]
    ensures AllWait(h0, cells', s)
  {
    hide Waits;
  }

  lemma SplitStart(h: seq<Header>, cells: seq<Contents>, head: nat, xs: seq<nat>, heads: seq<nat>, lists: seq<seq<nat>>)
    requires ListOf(h, cells, head, xs) && |heads| == |lists| == BUCKETS
    requires forall j :: 0 <= j < BUCKETS ==> heads[j] == 0 && lists[j] == []
    ensures Split(h, cells, Cells(xs), head, xs, 0, [], heads, lists)
  {
    NoLists(lists, BUCKETS);
    assert forall j :: 0 <= j < BUCKETS ==> Cells(lists[j]) == {};
  }

  /** Nothing changes for the hash table when a cell that is not in it is given other contents or a link. */
  lemma TableFrame(h: seq<Header>, h': seq<Header>, cells: seq<Contents>, cells': seq<Contents>, heads: seq<nat>,
                   lists: seq<seq<nat>>, x: nat)
    requires TableOk(h, cells, heads, lists) && |h'| == |h| && |cells'| == |cells| && x !in CellsOf(lists, BUCKETS)
    requires forall a :: 0 <= a < |h| && a != x ==> h'[a] == h[a]
    requires forall a :: 0 <= a < |cells| && a != x ==> cells'[a] == cells[a]
    ensures TableOk(h', cells', heads, lists)
  {
    InCellsOf(lists, BUCKETS);
    hide IsList, Hash, NoRepeats;
    forall j | 0 <= j < BUCKETS
      ensures BucketOk(h', cells', heads[j], lists[j], j)
    {
      assert BucketOk(h, cells, heads[j], lists[j], j) && x !in Cells(lists[j]);
      ListFrame(h, h', heads[j], lists[j]);
    }
  }

  lemma TableSizes(h: seq<Header>, cells: seq<Contents>, heads: seq<nat>, lists: seq<seq<nat>>)
    requires TableOk(h, cells, heads, lists)
    ensures |heads| == |lists| == BUCKETS
  {
  }

  /** The next cell is put off. */
  lemma PutOff(h: seq<Header>, cells: seq<Contents>, cells': seq<Contents>, whole: set<nat>, head: nat, zs: seq<nat>,
               later: nat, ds: seq<nat>, heads: seq<nat>, lists: seq<seq<nat>>)
    requires Split(h, cells, whole, head, zs, later, ds, heads, lists) && head != 0
    requires |cells'| == |cells| && forall a :: 0 <= a < |cells| && a != head ==> cells'[a] == cells[a]
    ensures zs != [] && 0 < head < |h| && h[head].Chain?
    ensures Split(h[head := Chain(later)], cells', whole, h[head].next, zs[1..], head, [head] + ds, heads, lists)
  {
    hide Hash, Settled, IsList, NoRepeats, CellsOf, TableOk;
    assert |lists| == BUCKETS by { TableSizes(h, cells, heads, lists); }
    Unlinked(h, head, zs);
    var h' := h[head := Chain(later)];
    FrameList(h, cells, h[head].next, zs[1..], head, Chain(later));
    Linked(h, later, ds, head);
    TableFrame(h, h', cells, cells', heads, lists, head);
  }

  /** The next cell goes to the hash table. */
  lemma PutInTable(h: seq<Header>, cells: seq<Contents>, cells': seq<Contents>, whole: set<nat>, head: nat, zs: seq<nat>,
                   later: nat, ds: seq<nat>, heads: seq<nat>, lists: seq<seq<nat>>)
    requires Split(h, cells, whole, head, zs, later, ds, heads, lists) && head != 0
    requires |cells'| == |cells| && forall a :: 0 <= a < |cells| && a != head ==> cells'[a] == cells[a]
    ensures zs != [] && 0 < head < |h| == |cells'| && h[head].Chain?
    ensures |heads| == |lists| == BUCKETS
    ensures var j := Hash(cells'[head]);
      && Split(h[head := Chain(heads[j])], cells', whole, h[head].next, zs[1..], later, ds,
            heads[j := head], lists[j := [head] + lists[j]])
      && CellsOf(lists[j := [head] + lists[j]], BUCKETS) == CellsOf(lists, BUCKETS) + {head}
  {
    hide Hash, Settled, IsList, NoRepeats, CellsOf;
    Unlinked(h, head, zs);
    var j := Hash(cells'[head]);
    var h' := h[head := Chain(heads[j])];
    assert BucketOk(h, cells, heads[j], lists[j], j);
    InCellsOf(lists, BUCKETS);
    assert forall k :: 0 <= k < BUCKETS ==> head !in Cells(lists[k]);
    Linked(h, heads[j], lists[j], head);
    CellsOfUpdate(lists, BUCKETS, j, [head] + lists[j], head);
    FrameList(h, cells, h[head].next, zs[1..], head, Chain(heads[j]));
    FrameList(h, cells, later, ds, head, Chain(heads[j]));
    TableGrows(h, cells, cells', heads, lists, head);
  }

  lemma TableGrows(h: seq<Header>, cells: seq<Contents>, cells': seq<Contents>, heads: seq<nat>, lists: seq<seq<nat>>, x: nat)
    requires TableOk(h, cells, heads, lists) && 0 < x < |h| == |cells| == |cells'| && x !in CellsOf(lists, BUCKETS)
    requires forall a :: 0 <= a < |cells| && a != x ==> cells'[a] == cells[a]
    ensures var j := Hash(cells'[x]);
      TableOk(h[x := Chain(heads[j])], cells', heads[j := x], lists[j := [x] + lists[j]])
  {
    hide Hash, IsList, NoRepeats;
    InCellsOf(lists, BUCKETS);
    var j := Hash(cells'[x]);
    var h', heads', lists' := h[x := Chain(heads[j])], heads[j := x], lists[j := [x] + lists[j]];
    forall k | 0 <= k < BUCKETS
      ensures BucketOk(h', cells', heads'[k], lists'[k], k)
      ensures Cells(lists'[k]) == if k == j then Cells(lists[k]) + {x} else Cells(lists[k])
    {
      assert BucketOk(h, cells, heads[k], lists[k], k) && x !in Cells(lists[k]);
      if k == j {
        Linked(h, heads[j], lists[j], x);
      } else {
        FrameList(h, cells, heads[k], lists[k], x, Chain(heads[j]));
      }
    }
    hide BucketOk, Cells;
  }

  /** Linking a cell into another list merges nothing. */
  lemma Relinked(h: seq<Header>, cells: seq<Contents>, lengths: seq<int>, x: nat, next: nat)
    requires x < |h| == |cells| == |lengths| && h[x].Chain? && Direct(h)
    ensures SameMeaning(h, cells, h[x := Chain(next)], cells, lengths) && Direct(h[x := Chain(next)])
  {
    hide SameMeaning;
    MergesKeepMeaning(h, h[x := Chain(next)], cells, lengths);
  }

  /** All cells of a set have the same length word and contents of one length. */
  ghost predicate OneKind(cells: seq<Contents>, lengths: seq<int>, s: set<nat>) {
    && |cells| == |lengths| && OneLength(cells, s)
    && forall x, y :: x in s && y in s && x < |lengths| && y < |lengths| ==> lengths[x] == lengths[y]
  }

  /** What scattering a list guarantees of headers and contents: same meaning, and nothing else touched. */
  ghost predicate Kept(h0: seq<Header>, c0: seq<Contents>, h: seq<Header>, c: seq<Contents>, lengths: seq<int>, whole: set<nat>) {
    && SameBut(h0, h, whole) && SameSizes(c0, c) && (forall a :: 0 <= a < |c| && a !in whole ==> c[a] == c0[a])
    && SameMeaning(h0, c0, h, c, lengths) && Direct(h)
  }

  lemma KeptStart(h: seq<Header>, c: seq<Contents>, lengths: seq<int>, whole: set<nat>)
    requires |c| == |lengths| && Direct(h)
    ensures Kept(h, c, h, c, lengths, whole)
  {
    hide SameMeaning;
    NoChange(h, c, lengths);
  }

  lemma KeptUpdate(h0: seq<Header>, c0: seq<Contents>, h: seq<Header>, c: seq<Contents>, c': seq<Contents>, lengths: seq<int>,
                   whole: set<nat>, x: nat)
    requires Kept(h0, c0, h, c, lengths, whole) && x in whole && |h| == |c| == |c'| == |lengths|
    requires SameSizes(c, c') && SameMeaning(h, c, h, c', lengths) && forall a :: 0 <= a < |c| && a != x ==> c'[a] == c[a]
    ensures Kept(h0, c0, h, c', lengths, whole)
  {
    hide SameMeaning, Direct;
    SameMeaningTwice(h0, c0, h, c, h, c', lengths);
  }

  /** One cell rewritten and linked elsewhere. */
  lemma KeptStep(h0: seq<Header>, c0: seq<Contents>, h: seq<Header>, c: seq<Contents>, c': seq<Contents>, lengths: seq<int>,
                 whole: set<nat>, x: nat, next: nat)
    requires Kept(h0, c0, h, c, lengths, whole) && x in whole && x < |h| == |c| == |c'| == |lengths| && h[x].Chain?
    requires SameSizes(c, c') && SameMeaning(h, c, h, c', lengths) && forall a :: 0 <= a < |c| && a != x ==> c'[a] == c[a]
    ensures Kept(h0, c0, h[x := Chain(next)], c', lengths, whole)
  {
    hide SameMeaning, Direct;
    Relinked(h, c', lengths, x, next);
    SameMeaningTwice(h0, c0, h, c, h, c', lengths);
    SameMeaningTwice(h0, c0, h, c', h[x := Chain(next)], c', lengths);
  }

  lemma SplitHead(h: seq<Header>, cells: seq<Contents>, whole: set<nat>, head: nat, zs: seq<nat>, later: nat, ds: seq<nat>,
                  heads: seq<nat>, lists: seq<seq<nat>>)
    requires Split(h, cells, whole, head, zs, later, ds, heads, lists)
    ensures head == 0 <==> zs == []
    ensures head != 0 ==> 0 < head < |h| == |cells| && h[head].Chain? && head in whole
    ensures |heads| == |lists| == BUCKETS
  {
    ListStarts(h, cells, head, zs);
    TableSizes(h, cells, heads, lists);
  }

  lemma NoneSettled(h: seq<Header>, cells: seq<Contents>)
    ensures AllSettled(h, cells, {})
  {
  }

  lemma OneMoreSettled(h: seq<Header>, cells: seq<Contents>, s: set<nat>, x: nat)
    requires AllSettled(h, cells, s) && x < |cells| && Settled(h, cells[x])
    ensures AllSettled(h, cells, s + {x})
  {
  }

  lemma HeadApart(h: seq<Header>, cells: seq<Contents>, whole: set<nat>, head: nat, zs: seq<nat>, later: nat, ds: seq<nat>,
                  heads: seq<nat>, lists: seq<seq<nat>>)
    requires Split(h, cells, whole, head, zs, later, ds, heads, lists) && head != 0
    ensures |lists| == BUCKETS && head !in CellsOf(lists, BUCKETS) && head !in Cells(ds)
  {
    TableSizes(h, cells, heads, lists);
    ListStarts(h, cells, head, zs);
  }

  /** These cells are as they were. */
  ghost predicate Unread(c0: seq<Contents>, c: seq<Contents>, zs: seq<nat>) {
    |c| == |c0| && forall a :: a in zs && a < |c| ==> c[a] == c0[a]
  }

  lemma RestUnread(h: seq<Header>, c0: seq<Contents>, cells: seq<Contents>, cells': seq<Contents>, whole: set<nat>, head: nat,
                   zs: seq<nat>, later: nat, ds: seq<nat>, heads: seq<nat>, lists: seq<seq<nat>>)
    requires Split(h, cells, whole, head, zs, later, ds, heads, lists) && head != 0 && Unread(c0, cells, zs)
    requires |cells'| == |cells| && forall a :: 0 <= a < |cells| && a != head ==> cells'[a] == cells[a]
    ensures |zs| > 0 && head < |cells| == |c0| && cells[head] == c0[head] && Unread(c0, cells', zs[1..])
  {
    hide TableOk, CellsOf;
    Unlinked(h, head, zs);
  }

  /** The hash table is empty. */
  predicate Cleared(heads: array<nat>, counts: array<nat>)
    reads heads, counts
  {
    && heads != counts && heads.Length == counts.Length == BUCKETS
    && forall j :: 0 <= j < BUCKETS ==> heads[j] == 0 && counts[j] == 0
  }

  ghost predicate Counts(counts: seq<nat>, lists: seq<seq<nat>>) {
    |counts| == |lists| && forall j :: 0 <= j < |lists| ==> counts[j] == |lists[j]|
  }

  /**
   Go through a list of word cells. Those that have an address of a cell still to be shared are put
   off; the others, their addresses brought up to date, go to the hash table.
   */
  method ScatterWords(h: array<Header>, cells: array<Contents>, first: nat, heads: array<nat>, counts: array<nat>,
                      ghost xs: seq<nat>, ghost lengths: seq<int>)
    returns (later: nat, laterCount: nat, carryOver: nat, ghost ds: seq<nat>, ghost lists: seq<seq<nat>>)
    requires ListOf(h[..], cells[..], first, xs) && cells.Length == |lengths| && Direct(h[..])
    requires Cleared(heads, counts)
    modifies h, cells, heads, counts
    ensures Split(h[..], cells[..], Cells(xs), 0, [], later, ds, heads[..], lists) && laterCount == |ds|
    ensures |lists| == BUCKETS && AllSettled(h[..], cells[..], CellsOf(lists, BUCKETS)) && Counts(counts[..], lists)
    ensures Kept(old(h[..]), old(cells[..]), h[..], cells[..], lengths, Cells(xs))
    ensures AllWait(old(h[..]), cells[..], Cells(ds))
    ensures carryOver == |Rewritten(old(cells[..]), cells[..], Cells(xs))|
  {
    hide Split, Kept, ListOf, Hash, Settled, SameMeaning, Direct, CellsOf, AllSettled, AllWait, Waits, Cells, Rewritten;
    ghost var h0, c0 := h[..], cells[..];
    NoneWait(h0, c0);
    ghost var whole, zs := Cells(xs), xs;
    later, laterCount, carryOver, ds, lists := 0, 0, 0, [], seq(BUCKETS, j => []);
    var head := first;
    SplitStart(h0, c0, first, xs, heads[..], lists);
    KeptStart(h0, c0, lengths, whole);
    NoLists(lists, BUCKETS);
    NoneRewritten(c0, whole);
    assert AllSettled(h0, c0, CellsOf(lists, BUCKETS)) by { NoneSettled(h0, c0); }
    while head != 0
      invariant Split(h[..], cells[..], whole, head, zs, later, ds, heads[..], lists) && laterCount == |ds|
      invariant |lists| == BUCKETS && AllSettled(h[..], cells[..], CellsOf(lists, BUCKETS)) && Counts(counts[..], lists)
      invariant Kept(h0, c0, h[..], cells[..], lengths, whole) && AllWait(h0, cells[..], Cells(ds))
      invariant Unread(c0, cells[..], zs) && carryOver == |Rewritten(c0, cells[..], whole)|
      decreases |zs|
    {
      ghost var hs, cs, ts := h[..], cells[..], heads[..];
      SplitHead(hs, cs, whole, head, zs, later, ds, ts, lists);
      assert Direct(hs) by { KeptDirect(h0, c0, hs, cs, lengths, whole); }
      var next := h[head].next;
      var deferred;
      deferred, carryOver := UpdateWords(h, cells, head, carryOver, lengths);
      RestUnread(hs, c0, cs, cells[..], whole, head, zs, later, ds, ts, lists);
      CellRewritten(c0, cs, cells[..], whole, head);
      assert head !in CellsOf(lists, BUCKETS) && head !in Cells(ds) by {
        HeadApart(hs, cs, whole, head, zs, later, ds, ts, lists);
      }
      WaitKept(h0, cs, cells[..], Cells(ds));
      if deferred {
        SettledKept(hs, hs[head := Chain(later)], cs, cells[..], CellsOf(lists, BUCKETS));
        KeptUpdate(h0, c0, hs, cs, cells[..], lengths, whole, head);
        OneMoreWaits(h0, c0, hs, cells[..], lengths, first, xs, ds, head);
        KeptStep(h0, c0, hs, cs, cells[..], lengths, whole, head, later);
        PutOff(hs, cs, cells[..], whole, head, zs, later, ds, ts, lists);
        h[head] := Chain(later);
        assert h[..] == hs[head := Chain(later)];
        ds, later, laterCount := [head] + ds, head, laterCount + 1;
      } else {
        var hash := Hash(cells[head]);
        SettledKept(hs, hs, cs, cells[..], CellsOf(lists, BUCKETS));
        OneMoreSettled(hs, cells[..], CellsOf(lists, BUCKETS), head);
        SettledKept(hs, hs[head := Chain(ts[hash])], cells[..], cells[..], CellsOf(lists, BUCKETS) + {head});
        KeptStep(h0, c0, hs, cs, cells[..], lengths, whole, head, ts[hash]);
        PutInTable(hs, cs, cells[..], whole, head, zs, later, ds, ts, lists);
        h[head] := Chain(heads[hash]);
        assert h[..] == hs[head := Chain(ts[hash])];
        heads[hash] := head;
        assert heads[..] == ts[hash := head];
        counts[hash] := counts[hash] + 1;
        lists := lists[hash := [head] + lists[hash]];
      }
      zs := zs[1..];
      head := next;
    }
    SplitHead(h[..], cells[..], whole, head, zs, later, ds, heads[..], lists);
  }

  lemma KeptDirect(h0: seq<Header>, c0: seq<Contents>, h: seq<Header>, c: seq<Contents>, lengths: seq<int>, whole: set<nat>)
    requires Kept(h0, c0, h, c, lengths, whole)
    ensures Direct(h) && |h| == |h0| && |c| == |c0|
  {
  }

  // ---------- Sorting the hash table ----------

  /** The lists before j have been sorted; those from j on are as they were. */
  ghost predicate SortedTo(h: seq<Header>, cells: seq<Contents>, heads: seq<nat>, lists: seq<seq<nat>>, j: nat, sharing: int) {
    && |heads| == |lists| == BUCKETS && j <= BUCKETS
    && Shared(h, cells, CellsOf(lists, j), sharing)
    && (forall k :: 0 <= k < BUCKETS ==> HashesTo(cells, lists[k], k))
    && (forall k :: j <= k < BUCKETS ==> ListOf(h, cells, heads[k], lists[k]))
    && (forall i, k :: 0 <= i < k < BUCKETS ==> Cells(lists[i]) !! Cells(lists[k]))
  }

  ghost predicate HashesTo(cells: seq<Contents>, xs: seq<nat>, j: nat) {
    forall x :: x in Cells(xs) && x < |cells| ==> Hash(cells[x]) == j
  }

  lemma SortStart(h: seq<Header>, cells: seq<Contents>, heads: seq<nat>, lists: seq<seq<nat>>)
    requires TableOk(h, cells, heads, lists)
    ensures SortedTo(h, cells, heads, lists, 0, 0)
  {
    NothingShared(h, cells);
    forall k | 0 <= k < BUCKETS
      ensures HashesTo(cells, lists[k], k) && ListOf(h, cells, heads[k], lists[k])
    {
      assert BucketOk(h, cells, heads[k], lists[k], k);
    }
  }

  /** Cells of different lists have different contents, for their hashes differ. */
  lemma BucketsDiffer(cells: seq<Contents>, lists: seq<seq<nat>>, j: nat)
    requires j < |lists| == BUCKETS && forall k :: 0 <= k < BUCKETS ==> HashesTo(cells, lists[k], k)
    requires forall i, k :: 0 <= i < k < BUCKETS ==> Cells(lists[i]) !! Cells(lists[k])
    ensures Different(cells, CellsOf(lists, j), Cells(lists[j])) && CellsOf(lists, j) !! Cells(lists[j])
  {
    InCellsOf(lists, j);
    hide Hash;
  }

  lemma BucketSorted(h: seq<Header>, h': seq<Header>, cells: seq<Contents>, heads: seq<nat>, lists: seq<seq<nat>>, j: nat,
                     sharing: int, n: int)
    requires SortedTo(h, cells, heads, lists, j, sharing) && j < BUCKETS
    requires Shared(h', cells, Cells(lists[j]), n) && SameBut(h, h', Cells(lists[j]))
    ensures SortedTo(h', cells, heads, lists, j + 1, sharing + n)
  {
    hide Merged, ContentsOf, IsList, NoRepeats, HashesTo;
    BucketsDiffer(cells, lists, j);
    FrameShared(h, h', cells, CellsOf(lists, j), Cells(lists[j]), sharing);
    SharedUnion(h', cells, CellsOf(lists, j), Cells(lists[j]), sharing, n);
    forall k | j < k < BUCKETS
      ensures ListOf(h', cells, heads[k], lists[k])
    {
      assert Cells(lists[j]) !! Cells(lists[k]);
      FrameLists(h, h', cells, Cells(lists[j]), heads[k], lists[k]);
    }
  }

  /** The cells of one list are of the kind of the whole table. */
  lemma BucketKind(cells: seq<Contents>, lengths: seq<int>, lists: seq<seq<nat>>, j: nat)
    requires j < |lists| == BUCKETS && OneKind(cells, lengths, CellsOf(lists, BUCKETS))
    ensures OneLength(cells, Cells(lists[j]))
    ensures forall x, y :: x in lists[j] && y in lists[j] && x < |lengths| && y < |lengths| ==> lengths[x] == lengths[y]
    ensures Cells(lists[j]) <= CellsOf(lists, BUCKETS)
  {
    InCellsOf(lists, BUCKETS);
    assert forall x :: x in lists[j] ==> x in Cells(lists[j]);
  }

  lemma KeptSort(h0: seq<Header>, c0: seq<Contents>, h: seq<Header>, h': seq<Header>, c: seq<Contents>, lengths: seq<int>,
                 whole: set<nat>, head: nat, xs: seq<nat>, n: int)
    requires Kept(h0, c0, h, c, lengths, whole) && ListOf(h, c, head, xs) && |lengths| == |c| && Cells(xs) <= whole
    requires Shared(h', c, Cells(xs), n) && SameBut(h, h', Cells(xs))
    requires forall x, y :: x in xs && y in xs && x < |lengths| && y < |lengths| ==> lengths[x] == lengths[y]
    ensures Kept(h0, c0, h', c, lengths, whole)
  {
    hide SameMeaning, Shared, ListOf, Direct;
    SortKeepsMeaning(h, h', c, lengths, head, xs, n);
    SameMeaningTwice(h0, c0, h, c, h', c, lengths);
  }

  /** A cell once given its length word keeps it while others are sorted. */
  lemma SettledSort(h: seq<Header>, h': seq<Header>, cells: seq<Contents>, head: nat, xs: seq<nat>, s: set<nat>)
    requires AllSettled(h, cells, s) && ListOf(h, cells, head, xs) && SameBut(h, h', Cells(xs))
    ensures AllSettled(h', cells, s)
  {
    ListInBounds(h, head, xs);
    SettledKept(h, h', cells, cells, s);
  }

  /** Sort every list of the hash table; the lists share no cell, so the order does not matter. */
  method SortData(h: array<Header>, cells: seq<Contents>, heads: array<nat>, counts: array<nat>, shareCount: int,
                  ghost lists: seq<seq<nat>>, ghost lengths: seq<int>,
                  ghost h0: seq<Header>, ghost c0: seq<Contents>, ghost whole: set<nat>, ghost settled: set<nat>)
    returns (count: int)
    requires TableOk(h[..], cells, heads[..], lists) && |lists| == BUCKETS && Counts(counts[..], lists)
    requires OneKind(cells, lengths, CellsOf(lists, BUCKETS)) && CellsOf(lists, BUCKETS) <= whole
    requires Kept(h0, c0, h[..], cells, lengths, whole) && AllSettled(h[..], cells, settled)
    modifies h
    ensures Shared(h[..], cells, CellsOf(lists, BUCKETS), count - shareCount)
    ensures Kept(h0, c0, h[..], cells, lengths, whole) && AllSettled(h[..], cells, settled)
    ensures SameBut(old(h[..]), h[..], CellsOf(lists, BUCKETS))
  {
    hide Kept, ListOf, Shared, AllSettled, OneKind, CellsOf, HashesTo;
    SortStart(h[..], cells, heads[..], lists);
    count := shareCount;
    assert |lengths| == |cells| by { KindSizes(cells, lengths, CellsOf(lists, BUCKETS)); }
    var j := 0;
    while j < BUCKETS
      invariant 0 <= j <= BUCKETS && SortedTo(h[..], cells, heads[..], lists, j, count - shareCount)
      invariant Kept(h0, c0, h[..], cells, lengths, whole) && AllSettled(h[..], cells, settled)
      invariant SameBut(old(h[..]), h[..], CellsOf(lists, BUCKETS))
    {
      ghost var s, before := h[..], count - shareCount;
      BucketKind(cells, lengths, lists, j);
      assert ListOf(s, cells, heads[j], lists[j]);
      if counts[j] <= 2 {
        count := SortFew(h, cells, heads[j], counts[j], count, lists[j]);
      } else {
        count := SortList(h, cells, heads[j], counts[j], count, lists[j]);
      }
      BucketSorted(s, h[..], cells, heads[..], lists, j, before, count - shareCount - before);
      KeptSort(h0, c0, s, h[..], cells, lengths, whole, heads[j], lists[j], count - shareCount - before);
      SettledSort(s, h[..], cells, heads[j], lists[j], settled);
      j := j + 1;
    }
  }

  lemma KindSizes(cells: seq<Contents>, lengths: seq<int>, s: set<nat>)
    requires OneKind(cells, lengths, s)
    ensures |cells| == |lengths|
  {
  }

  // ---------- The tasks ----------

  /** When no cell waits in the list, those put off and those in the table are the whole. */
  lemma SplitDone(h: seq<Header>, cells: seq<Contents>, whole: set<nat>, later: nat, ds: seq<nat>, heads: seq<nat>,
                  lists: seq<seq<nat>>)
    requires Split(h, cells, whole, 0, [], later, ds, heads, lists)
    ensures TableOk(h, cells, heads, lists) && |lists| == BUCKETS && ListOf(h, cells, later, ds)
    ensures whole == Cells(ds) + CellsOf(lists, BUCKETS) && Cells(ds) !! CellsOf(lists, BUCKETS)
  {
    hide BucketOk, ListOf, CellsOf;
    assert Cells([]) == {};
  }

  lemma KindPart(cells: seq<Contents>, cells': seq<Contents>, lengths: seq<int>, s: set<nat>, t: set<nat>)
    requires OneKind(cells, lengths, s) && SameSizes(cells, cells') && t <= s
    ensures OneKind(cells', lengths, t)
  {
  }

  lemma KeptParts(h0: seq<Header>, c0: seq<Contents>, h: seq<Header>, c: seq<Contents>, lengths: seq<int>, whole: set<nat>)
    requires Kept(h0, c0, h, c, lengths, whole)
    ensures SameBut(h0, h, whole) && SameSizes(c0, c) && SameMeaning(h0, c0, h, c, lengths) && Direct(h)
    ensures forall a :: 0 <= a < |c| && a !in whole ==> c[a] == c0[a]
  {
  }

  method ClearTable(heads: array<nat>, counts: array<nat>)
    requires heads != counts && heads.Length == counts.Length == BUCKETS
    modifies heads, counts
    ensures Cleared(heads, counts)
  {
    for i := 0 to BUCKETS
      invariant forall j :: 0 <= j < i ==> heads[j] == 0 && counts[j] == 0
    {
      heads[i] := 0;
      counts[i] := 0;
    }
  }

  /**
   One level of word cells of one length word. The cells are divided into those put off, back in a
   list, each of which held the address of a cell still to be shared, and the others, whose addresses
   are now all of cells with a length word and which are merged with their equals. The unfolding of
   every cell of the heap is what it was. The words rewritten are counted, but an empty list leaves the
   count carried over from the pass before.
   */
  method WordDataTask(h: array<Header>, cells: array<Contents>, first: nat, heads: array<nat>, counts: array<nat>, shareCount: int,
                      carried: nat, ghost xs: seq<nat>, ghost lengths: seq<int>)
    returns (later: nat, laterCount: nat, carryOver: nat, count: int, ghost ds: seq<nat>, ghost done: set<nat>)
    requires ListOf(h[..], cells[..], first, xs) && Direct(h[..]) && OneKind(cells[..], lengths, Cells(xs))
    requires heads != counts && heads.Length == counts.Length == BUCKETS
    modifies h, cells, heads, counts
    ensures Cells(xs) == Cells(ds) + done && Cells(ds) !! done
    ensures ListOf(h[..], cells[..], later, ds) && laterCount == |ds| && AllWait(old(h[..]), cells[..], Cells(ds))
    ensures AllSettled(h[..], cells[..], done) && Shared(h[..], cells[..], done, count - shareCount)
    ensures SameMeaning(old(h[..]), old(cells[..]), h[..], cells[..], lengths) && Direct(h[..])
    ensures SameBut(old(h[..]), h[..], Cells(xs)) && SameSizes(old(cells[..]), cells[..])
    ensures forall a :: 0 <= a < cells.Length && a !in Cells(xs) ==> cells[a] == old(cells[a])
    ensures carryOver == if first == 0 then carried else |Rewritten(old(cells[..]), cells[..], Cells(xs))|
  {
    hide Split, Kept, ListOf, SameMeaning, Direct, CellsOf, AllSettled, AllWait, Cells, Shared, OneKind, TableOk, SameBut;
    hide Rewritten;
    ghost var h0, c0 := h[..], cells[..];
    assert cells.Length == |lengths| by { KindSizes(c0, lengths, Cells(xs)); }
    if first == 0 {
      assert xs == [] by { ListStarts(h0, c0, first, xs); }
      later, laterCount, carryOver, count, ds, done := 0, 0, carried, shareCount, [], {};
      NothingShared(h0, c0);
      NoneSettled(h0, c0);
      NoneWait(h0, c0);
      KeptStart(h0, c0, lengths, Cells(xs));
      KeptParts(h0, c0, h0, c0, lengths, Cells(xs));
      return;
    }
    ClearTable(heads, counts);
    ghost var lists;
    later, laterCount, carryOver, ds, lists := ScatterWords(h, cells, first, heads, counts, xs, lengths);
    done := CellsOf(lists, BUCKETS);
    ghost var h1 := h[..];
    SplitDone(h1, cells[..], Cells(xs), later, ds, heads[..], lists);
    KeptParts(h0, c0, h1, cells[..], lengths, Cells(xs));
    KindPart(c0, cells[..], lengths, Cells(xs), done);
    count := SortData(h, cells[..], heads, counts, shareCount, lists, lengths, h0, c0, Cells(xs), done);
    KeptParts(h0, c0, h[..], cells[..], lengths, Cells(xs));
    FrameLists(h1, h[..], cells[..], done, later, ds);
  }

  /**
   Cells without addresses of cells to be shared, or the last pass: all are hashed and merged with
   their equals.
   */
  method HashAndSortAllTask(h: array<Header>, cells: seq<Contents>, first: nat, heads: array<nat>, counts: array<nat>,
                            shareCount: int, ghost xs: seq<nat>, ghost lengths: seq<int>)
    returns (count: int)
    requires ListOf(h[..], cells, first, xs) && Direct(h[..]) && OneKind(cells, lengths, Cells(xs))
    requires heads != counts && heads.Length == counts.Length == BUCKETS
    modifies h, heads, counts
    ensures Shared(h[..], cells, Cells(xs), count - shareCount)
    ensures SameMeaning(old(h[..]), cells, h[..], cells, lengths) && Direct(h[..])
    ensures SameBut(old(h[..]), h[..], Cells(xs))
  {
    hide Split, Kept, ListOf, Hash, SameMeaning, Direct, CellsOf, AllSettled, Shared, OneKind, TableOk, SameBut, Cells;
    ghost var h0, whole, zs := h[..], Cells(xs), xs;
    ghost var lists: seq<seq<nat>> := seq(BUCKETS, j => []);
    assert |lengths| == |cells| by { KindSizes(cells, lengths, whole); }
    ClearTable(heads, counts);
    SplitStart(h0, cells, first, xs, heads[..], lists);
    KeptStart(h0, cells, lengths, whole);
    NoChange(h0, cells, lengths);
    var head := first;
    while head != 0
      invariant Split(h[..], cells, whole, head, zs, 0, [], heads[..], lists)
      invariant |lists| == BUCKETS && Counts(counts[..], lists) && Kept(h0, cells, h[..], cells, lengths, whole)
      decreases |zs|
    {
      ghost var hs, ts := h[..], heads[..];
      SplitHead(hs, cells, whole, head, zs, 0, [], ts, lists);
      var next := h[head].next;
      var hash := Hash(cells[head]);
      NoChange(hs, cells, lengths);
      KeptStep(h0, cells, hs, cells, cells, lengths, whole, head, ts[hash]);
      PutInTable(hs, cells, cells, whole, head, zs, 0, [], ts, lists);
      h[head] := Chain(heads[hash]);
      assert h[..] == hs[head := Chain(ts[hash])];
      heads[hash] := head;
      assert heads[..] == ts[hash := head];
      counts[hash] := counts[hash] + 1;
      lists := lists[hash := [head] + lists[hash]];
      zs := zs[1..];
      head := next;
    }
    SplitHead(h[..], cells, whole, head, zs, 0, [], heads[..], lists);
    SplitDone(h[..], cells, whole, 0, [], heads[..], lists);
    NoneSettled(h[..], cells);
    ghost var h1 := h[..];
    KeptParts(h0, cells, h1, cells, lengths, whole);
    assert CellsOf(lists, BUCKETS) == whole by { assert Cells([]) == {} by { NoCells(); } }
    count := SortData(h, cells, heads, counts, shareCount, lists, lengths, h0, cells, whole, {});
    KeptParts(h0, cells, h[..], cells, lengths, whole);
  }

  lemma NoCells()
    ensures Cells([]) == {}
  {
  }
}
