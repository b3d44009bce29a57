/** What a cell means: its unfolding to any depth, and why sharing leaves it unchanged. */
module ShareMeaning {
  import opened ShareLists
  import opened ShareSort

  /** An unfolding: cut off, a word that is no address, an address outside the cells shared, or a cell. */
  datatype Tree = Cut | Word(n: int) | Outside(addr: nat) | Cell(lengthWord: int, fields: seq<Tree>)

  /** Where an address leads: a merged cell's representative, or the cell itself. */
  function Resolved(h: seq<Header>, p: nat): nat {
    if p < |h| && h[p].Forward? then h[p].dest else p
  }

  /** The cell at a unfolded to depth n; cells may point round in circles. */
  function Unfold(h: seq<Header>, cells: seq<Contents>, lengths: seq<int>, n: nat, a: nat): Tree
    requires a < |cells| == |lengths|
    decreases n, 1
  {
    if n == 0 then Cut
    else Cell(lengths[a], seq(|cells[a]|, i requires 0 <= i < |cells[a]| => UnfoldField(h, cells, lengths, n - 1, cells[a][i])))
  }

  function UnfoldField(h: seq<Header>, cells: seq<Contents>, lengths: seq<int>, n: nat, v: Value): Tree
    requires |cells| == |lengths|
    decreases n, 2
  {
    match v
    case Bits(b) => Word(b)
    case Ptr(p) => if Resolved(h, p) < |cells| then Unfold(h, cells, lengths, n, Resolved(h, p)) else Outside(p)
  }

  /** Forwarding leads at once to a cell with its length word. */
  ghost predicate Direct(h: seq<Header>) {
    forall x :: 0 <= x < |h| && h[x].Forward? ==> h[x].dest < |h| && h[h[x].dest] == LengthWord
  }

  ghost predicate SameMeaning(h: seq<Header>, cells: seq<Contents>, h': seq<Header>, cells': seq<Contents>, lengths: seq<int>) {
    && |cells| == |cells'| == |lengths|
    && forall n: nat, a: nat :: a < |cells| ==> Unfold(h', cells', lengths, n, a) == Unfold(h, cells, lengths, n, a)
  }

  lemma SameMeaningTwice(h0: seq<Header>, c0: seq<Contents>, h1: seq<Header>, c1: seq<Contents>,
                         h2: seq<Header>, c2: seq<Contents>, lengths: seq<int>)
    requires SameMeaning(h0, c0, h1, c1, lengths) && SameMeaning(h1, c1, h2, c2, lengths)
    ensures SameMeaning(h0, c0, h2, c2, lengths)
  {
    hide Unfold;
  }

  // ---------- Merging ----------

  /** A chained cell is chained again, gets its length word, or is forwarded to a cell like it. */
  ghost predicate MergesAt(h: seq<Header>, h': seq<Header>, cells: seq<Contents>, lengths: seq<int>, x: nat)
    requires x < |h| == |h'| == |cells| == |lengths|
  {
    h'[x] == h[x]
    || (h[x].Chain? && (h'[x].Forward? ==>
          h'[x].dest < |h| && cells[h'[x].dest] == cells[x] && lengths[h'[x].dest] == lengths[x]))
  }

  ghost predicate Merges(h: seq<Header>, h': seq<Header>, cells: seq<Contents>, lengths: seq<int>) {
    && |h| == |h'| == |cells| == |lengths|
    && forall x :: 0 <= x < |h| ==> MergesAt(h, h', cells, lengths, x)
  }

  /** Cells with the same length word and contents have the same unfolding. */
  lemma LikeCells(h: seq<Header>, cells: seq<Contents>, lengths: seq<int>, n: nat, a: nat, b: nat)
    requires a < |cells| == |lengths| && b < |cells| && cells[a] == cells[b] && lengths[a] == lengths[b]
    ensures Unfold(h, cells, lengths, n, a) == Unfold(h, cells, lengths, n, b)
  {
  }

  lemma {:induction false} MergedField(h: seq<Header>, h': seq<Header>, cells: seq<Contents>, lengths: seq<int>, n: nat, v: Value)
    requires Merges(h, h', cells, lengths) && Direct(h)
    ensures UnfoldField(h', cells, lengths, n, v) == UnfoldField(h, cells, lengths, n, v)
    decreases n, 2
  {
    hide Unfold;
    if v.Ptr? && v.addr < |h| {
      var p := v.addr;
      assert MergesAt(h, h', cells, lengths, p);
      var r, r' := Resolved(h, p), Resolved(h', p);
      if r' < |cells| { MergedCell(h, h', cells, lengths, n, r'); }
      if r' != r { LikeCells(h, cells, lengths, n, r, r'); }
    }
  }

  /** Merging like cells leaves every unfolding as it was. */
  lemma {:induction false} MergedCell(h: seq<Header>, h': seq<Header>, cells: seq<Contents>, lengths: seq<int>, n: nat, a: nat)
    requires Merges(h, h', cells, lengths) && Direct(h) && a < |cells|
    ensures Unfold(h', cells, lengths, n, a) == Unfold(h, cells, lengths, n, a)
    decreases n, 1
  {
    hide Merges, Direct, UnfoldField;
    MergesSizes(h, h', cells, lengths);
    if n > 0 {
      forall i | 0 <= i < |cells[a]|
        ensures UnfoldField(h', cells, lengths, n - 1, cells[a][i]) == UnfoldField(h, cells, lengths, n - 1, cells[a][i])
      {
        MergedField(h, h', cells, lengths, n - 1, cells[a][i]);
      }
    }
  }

  lemma MergesKeepMeaning(h: seq<Header>, h': seq<Header>, cells: seq<Contents>, lengths: seq<int>)
    requires Merges(h, h', cells, lengths) && Direct(h)
    ensures SameMeaning(h, cells, h', cells, lengths)
  {
    hide Merges, Direct, Unfold;
    assert |cells| == |lengths| by { MergesSizes(h, h', cells, lengths); }
    forall n: nat, a: nat | a < |cells|
      ensures Unfold(h', cells, lengths, n, a) == Unfold(h, cells, lengths, n, a)
    {
      MergedCell(h, h', cells, lengths, n, a);
    }
  }

  lemma MergesSizes(h: seq<Header>, h': seq<Header>, cells: seq<Contents>, lengths: seq<int>)
    requires Merges(h, h', cells, lengths)
    ensures |h| == |h'| == |cells| == |lengths|
  {
  }

  // ---------- Rewriting ----------

  /** A word is as it was, or an address of a merged cell that has been brought up to date. */
  predicate RewritesWord(h: seq<Header>, v: Value, v': Value) {
    v' == v || (v.Ptr? && v.addr < |h| && h[v.addr].Forward? && v' == Ptr(h[v.addr].dest))
  }

  ghost predicate Rewrites(h: seq<Header>, cells: seq<Contents>, cells': seq<Contents>) {
    && |cells'| == |cells| == |h|
    && forall a, i: nat :: 0 <= a < |cells| && i < |cells[a]| ==>
      |cells'[a]| == |cells[a]| && RewritesWord(h, cells[a][i], cells'[a][i])
  }

  ghost predicate SameSizes(cells: seq<Contents>, cells': seq<Contents>) {
    |cells'| == |cells| && forall a :: 0 <= a < |cells| ==> |cells'[a]| == |cells[a]|
  }

  lemma RewrittenWord(h: seq<Header>, v: Value, v': Value, size: nat)
    requires RewritesWord(h, v, v') && Direct(h) && |h| == size
    ensures v.Ptr? ==> v'.Ptr? && Resolved(h, v'.addr) == Resolved(h, v.addr)
    ensures v.Ptr? && v' != v ==> Resolved(h, v.addr) < size
    ensures v.Bits? ==> v' == v
  {
  }

  lemma {:induction false} RewrittenField(h: seq<Header>, cells: seq<Contents>, cells': seq<Contents>, lengths: seq<int>,
                                          n: nat, v: Value, v': Value)
    requires Rewrites(h, cells, cells') && SameSizes(cells, cells') && Direct(h) && |cells| == |lengths|
    requires RewritesWord(h, v, v')
    ensures UnfoldField(h, cells', lengths, n, v') == UnfoldField(h, cells, lengths, n, v)
    decreases n, 2
  {
    hide Unfold, Resolved;
    RewrittenWord(h, v, v', |h|);
    hide RewritesWord, Direct;
    if v.Ptr? && Resolved(h, v.addr) < |cells| {
      RewrittenCell(h, cells, cells', lengths, n, Resolved(h, v.addr));
    }
  }

  /** Bringing addresses of merged cells up to date leaves every unfolding as it was. */
  lemma {:induction false} RewrittenCell(h: seq<Header>, cells: seq<Contents>, cells': seq<Contents>, lengths: seq<int>,
                                         n: nat, a: nat)
    requires Rewrites(h, cells, cells') && SameSizes(cells, cells') && Direct(h) && |cells| == |lengths| && a < |cells|
    ensures Unfold(h, cells', lengths, n, a) == Unfold(h, cells, lengths, n, a)
    decreases n, 1
  {
    hide Direct, UnfoldField, RewritesWord;
    if n > 0 {
      forall i | 0 <= i < |cells[a]|
        ensures UnfoldField(h, cells', lengths, n - 1, cells'[a][i]) == UnfoldField(h, cells, lengths, n - 1, cells[a][i])
      {
        RewrittenField(h, cells, cells', lengths, n - 1, cells[a][i], cells'[a][i]);
      }
    }
  }

  lemma RewritesKeepMeaning(h: seq<Header>, cells: seq<Contents>, cells': seq<Contents>, lengths: seq<int>)
    requires Rewrites(h, cells, cells') && SameSizes(cells, cells') && Direct(h) && |cells| == |lengths|
    ensures SameMeaning(h, cells, h, cells', lengths)
  {
    hide Rewrites, Direct, Unfold;
    forall n: nat, a: nat | a < |cells|
      ensures Unfold(h, cells', lengths, n, a) == Unfold(h, cells, lengths, n, a)
    {
      RewrittenCell(h, cells, cells', lengths, n, a);
    }
  }

  // ---------- Sorting a list ----------

  /** Sorting a list of cells with one length word only merges like cells. */
  lemma SortMerges(h: seq<Header>, h': seq<Header>, cells: seq<Contents>, lengths: seq<int>, head: nat, xs: seq<nat>, sharing: int)
    requires ListOf(h, cells, head, xs) && |lengths| == |cells| && Direct(h)
    requires Shared(h', cells, Cells(xs), sharing) && SameBut(h, h', Cells(xs))
    requires forall x, y :: x in xs && y in xs && x < |lengths| && y < |lengths| ==> lengths[x] == lengths[y]
    ensures Merges(h, h', cells, lengths) && Direct(h')
  {
    ListInBounds(h, head, xs);
    forall x | 0 <= x < |h|
      ensures MergesAt(h, h', cells, lengths, x)
      ensures h'[x].Forward? ==> h'[x].dest < |h'| && h'[h'[x].dest] == LengthWord
    {
      if x in Cells(xs) {
        assert DirectIn(h', cells, Cells(xs), x);
      }
    }
  }

  /** So it leaves every unfolding as it was. */
  lemma SortKeepsMeaning(h: seq<Header>, h': seq<Header>, cells: seq<Contents>, lengths: seq<int>, head: nat, xs: seq<nat>, sharing: int)
    requires ListOf(h, cells, head, xs) && |lengths| == |cells| && Direct(h)
    requires Shared(h', cells, Cells(xs), sharing) && SameBut(h, h', Cells(xs))
    requires forall x, y :: x in xs && y in xs && x < |lengths| && y < |lengths| ==> lengths[x] == lengths[y]
    ensures SameMeaning(h, cells, h', cells, lengths) && Direct(h')
  {
    hide SameMeaning, Shared, ListOf;
    SortMerges(h, h', cells, lengths, head, xs, sharing);
    MergesKeepMeaning(h, h', cells, lengths);
  }
}
