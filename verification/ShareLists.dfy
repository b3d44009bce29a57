/** Lists of cells threaded through their headers, and the quicksort that merges cells with equal contents. */
module ShareLists {

  /** A header while sharing: the normal length word, a link to the next cell of a list, or a merged cell's forwarding. */
  datatype Header = LengthWord | Chain(next: nat) | Forward(dest: nat)

  /** A word of a cell: the address of a cell, or anything else. */
  datatype Value = Bits(n: int) | Ptr(addr: nat)

  type Contents = seq<Value>

  /** The order in which words are compared; only that it tells different words apart matters. */
  function Code(v: Value): int {
    match v
    case Bits(n) => 2 * n + 1
    case Ptr(addr) => 2 * addr
  }

  /** Negative, zero or positive as a comes before b, equals it or comes after it, for contents of one length. */
  function Compare(a: Contents, b: Contents): (r: int)
    ensures |a| == |b| ==> (r == 0 <==> a == b)
    decreases |a|
  {
    if |a| == 0 || |b| == 0 then 0
    else if Code(a[0]) != Code(b[0]) then Code(a[0]) - Code(b[0])
    else
      assert |a| == |b| ==> (a == b <==> a[1..] == b[1..]) by { FirstSame(a, b); }
      Compare(a[1..], b[1..])
  }

  lemma FirstSame(a: Contents, b: Contents)
    requires |a| > 0 && |b| > 0 && Code(a[0]) == Code(b[0])
    ensures a == b <==> a[1..] == b[1..]
  {
    assert a == [a[0]] + a[1..] && b == [b[0]] + b[1..];
  }

  // ---------- Lists ----------

  /** The cells xs, in order, are linked from head; zero ends a list. */
  predicate IsList(h: seq<Header>, head: nat, xs: seq<nat>)
    decreases |xs|
  {
    if xs == [] then head == 0
    else head == xs[0] && 0 < head < |h| && h[head].Chain? && IsList(h, h[head].next, xs[1..])
  }

  predicate NoRepeats(xs: seq<nat>) {
    forall i, j :: 0 <= i < j < |xs| ==> xs[i] != xs[j]
  }

  function Cells(xs: seq<nat>): set<nat> {
    set x | x in xs
  }

  /** A list does not depend on the headers of other cells. */
  lemma {:induction false} ListFrame(h: seq<Header>, h': seq<Header>, head: nat, xs: seq<nat>)
    requires IsList(h, head, xs) && |h'| == |h| && forall x :: x in xs && x < |h| ==> h'[x] == h[x]
    ensures IsList(h', head, xs)
    decreases |xs|
  {
    if xs != [] {
      assert xs[0] in xs;
      assert forall x :: x in xs[1..] ==> x in xs;
      ListFrame(h, h', h[head].next, xs[1..]);
    }
  }

  lemma {:induction false} ListInBounds(h: seq<Header>, head: nat, xs: seq<nat>)
    requires IsList(h, head, xs)
    ensures forall x :: x in xs ==> 0 < x < |h| && h[x].Chain?
    decreases |xs|
  {
    if xs != [] {
      ListInBounds(h, h[head].next, xs[1..]);
      assert forall x :: x in xs ==> x == xs[0] || x in xs[1..];
    }
  }

  /** Putting a cell in front of a list it is not in. */
  lemma Linked(h: seq<Header>, head: nat, xs: seq<nat>, x: nat)
    requires IsList(h, head, xs) && 0 < x < |h| && x !in xs
    ensures IsList(h[x := Chain(head)], x, [x] + xs)
    ensures NoRepeats(xs) ==> NoRepeats([x] + xs)
    ensures Cells([x] + xs) == Cells(xs) + {x}
  {
    ListFrame(h, h[x := Chain(head)], head, xs);
    assert ([x] + xs)[1..] == xs;
  }

  /** Taking the first cell from a list. */
  lemma Unlinked(h: seq<Header>, head: nat, xs: seq<nat>)
    requires IsList(h, head, xs) && head != 0 && NoRepeats(xs)
    ensures |xs| > 0 && head == xs[0] && 0 < head < |h| && h[head].Chain? && IsList(h, h[head].next, xs[1..])
    ensures NoRepeats(xs[1..]) && head !in xs[1..] && Cells(xs) == Cells(xs[1..]) + {head}
    ensures forall x :: x in xs[1..] ==> x in xs
  {
    assert xs == [xs[0]] + xs[1..];
  }

  lemma {:induction false} CellsCount(xs: seq<nat>)
    requires NoRepeats(xs)
    ensures |Cells(xs)| == |xs|
    decreases |xs|
  {
    if xs == [] {
      assert Cells(xs) == {};
    } else {
      CellsCount(xs[1..]);
      assert xs == [xs[0]] + xs[1..];
      assert Cells(xs) == Cells(xs[1..]) + {xs[0]};
    }
  }

  // ---------- Merged cells ----------

  /** Every cell has its length word or is forwarded directly to one that has, with the same contents. */
  predicate DirectIn(h: seq<Header>, cells: seq<Contents>, s: set<nat>, x: nat) {
    && x < |h| == |cells|
    && (h[x] == LengthWord
        || (h[x].Forward? && h[x].dest in s && h[x].dest < |h| && h[h[x].dest] == LengthWord
            && cells[h[x].dest] == cells[x]))
  }

  /** One representative for each contents among the cells of s, the others forwarded to it. */
  ghost predicate Merged(h: seq<Header>, cells: seq<Contents>, s: set<nat>) {
    && (forall x :: x in s ==> DirectIn(h, cells, s, x))
    && (forall x, y :: x in s && y in s && x != y && h[x] == LengthWord && h[y] == LengthWord ==> cells[x] != cells[y])
  }

  ghost function ContentsOf(cells: seq<Contents>, s: set<nat>): set<Contents> {
    set x | x in s && x < |cells| :: cells[x]
  }

  /** No contents of a cell of s is that of a cell of t. */
  ghost predicate Different(cells: seq<Contents>, s: set<nat>, t: set<nat>) {
    forall x, y :: x in s && y in t && x < |cells| && y < |cells| ==> cells[x] != cells[y]
  }

  lemma MergedFrame(h: seq<Header>, h': seq<Header>, cells: seq<Contents>, s: set<nat>)
    requires Merged(h, cells, s) && |h'| == |h| && forall x :: x in s && x < |h| ==> h'[x] == h[x]
    ensures Merged(h', cells, s)
  {
  }

  /** Two merged sets without a contents in common are merged together. */
  lemma MergedUnion(h: seq<Header>, cells: seq<Contents>, s: set<nat>, t: set<nat>)
    requires Merged(h, cells, s) && Merged(h, cells, t) && Different(cells, s, t)
    ensures Merged(h, cells, s + t)
    ensures s !! t && |s + t| == |s| + |t|
    ensures |ContentsOf(cells, s + t)| == |ContentsOf(cells, s)| + |ContentsOf(cells, t)|
  {
    forall x | x in s
      ensures x < |cells| && x !in t
    {
      assert DirectIn(h, cells, s, x);
    }
    assert s !! t;
    assert ContentsOf(cells, s) !! ContentsOf(cells, t);
    assert ContentsOf(cells, s + t) == ContentsOf(cells, s) + ContentsOf(cells, t);
    forall x | x in s + t
      ensures DirectIn(h, cells, s + t, x)
    {
      assert if x in s then DirectIn(h, cells, s, x) else DirectIn(h, cells, t, x);
    }
  }

  /** Cells all of one contents with one representative. */
  lemma MergedGroup(h: seq<Header>, cells: seq<Contents>, s: set<nat>, m: nat)
    requires m in s && m < |cells| == |h|
    requires forall x :: x in s ==> x < |h| && cells[x] == cells[m] && h[x] == if x == m then LengthWord else Forward(m)
    ensures Merged(h, cells, s) && |ContentsOf(cells, s)| == 1
  {
    assert ContentsOf(cells, s) == {cells[m]};
  }
}
