/** The quicksort of a list of cells of one length, which merges those with equal contents. */
module ShareSort {
  import opened ShareLists

  /** All cells of a set have contents of one length. */
  ghost predicate OneLength(cells: seq<Contents>, s: set<nat>) {
    forall x, y :: x in s && y in s && x < |cells| && y < |cells| ==> |cells[x]| == |cells[y]|
  }

  /** A list without repetitions whose cells have contents. */
  predicate ListOf(h: seq<Header>, cells: seq<Contents>, head: nat, xs: seq<nat>) {
    |h| == |cells| && IsList(h, head, xs) && NoRepeats(xs)
  }

  /** The cells of group are the median and those merged with it. */
  ghost predicate Grouped(h: seq<Header>, cells: seq<Contents>, median: nat, group: set<nat>) {
    && median in group && median < |cells| == |h|
    && forall x :: x in group ==> x < |h| && cells[x] == cells[median] && h[x] == if x == median then LengthWord else Forward(median)
  }

  /** All the cells of s come on one side of the median. */
  ghost predicate Side(cells: seq<Contents>, median: nat, s: set<nat>, before: bool)
    requires median < |cells|
  {
    forall x :: x in s ==> x < |cells| && if before then Compare(cells[median], cells[x]) < 0 else Compare(cells[median], cells[x]) > 0
  }

  /** Four sets without common members that make up a whole. */
  ghost predicate Parts(whole: set<nat>, a: set<nat>, b: set<nat>, c: set<nat>, d: set<nat>) {
    whole == a + b + c + d && a !! b && a !! c && a !! d && b !! c && b !! d && c !! d
  }

  /** The state of a partition: what is still to be compared, the two sides and what is merged. */
  ghost predicate Parted(h: seq<Header>, cells: seq<Contents>, xs: set<nat>, median: nat, head: nat, zs: seq<nat>,
                         left: nat, ls: seq<nat>, right: nat, rs: seq<nat>, group: set<nat>) {
    && ListOf(h, cells, head, zs) && ListOf(h, cells, left, ls) && ListOf(h, cells, right, rs)
    && Parts(xs, Cells(zs), Cells(ls), Cells(rs), group)
    && Grouped(h, cells, median, group)
    && Side(cells, median, Cells(ls), true) && Side(cells, median, Cells(rs), false)
  }

  /** The headers of cells outside a set are as they were. */
  ghost predicate SameBut(h: seq<Header>, h': seq<Header>, s: set<nat>) {
    |h'| == |h| && forall a :: 0 <= a < |h| && a !in s ==> h'[a] == h[a]
  }

  lemma FrameList(h: seq<Header>, cells: seq<Contents>, head: nat, xs: seq<nat>, x: nat, v: Header)
    requires ListOf(h, cells, head, xs) && x < |h| && x !in Cells(xs)
    ensures ListOf(h[x := v], cells, head, xs)
  {
    ListFrame(h, h[x := v], head, xs);
  }

  /** The first cell is taken as the median. */
  lemma PartStart(h: seq<Header>, cells: seq<Contents>, head: nat, xs: seq<nat>)
    requires ListOf(h, cells, head, xs) && xs != []
    ensures 0 < head < |h| && h[head].Chain?
    ensures Parted(h[head := LengthWord], cells, Cells(xs), head, h[head].next, xs[1..], 0, [], 0, [], {head})
  {
    Unlinked(h, head, xs);
    FrameList(h, cells, h[head].next, xs[1..], head, LengthWord);
  }

  /** The next cell is equal: it is forwarded to the median. */
  lemma PartEqual(h: seq<Header>, cells: seq<Contents>, xs: set<nat>, median: nat, head: nat, zs: seq<nat>,
                  left: nat, ls: seq<nat>, right: nat, rs: seq<nat>, group: set<nat>)
    requires Parted(h, cells, xs, median, head, zs, left, ls, right, rs, group) && head != 0
    requires zs != [] && 0 < head < |h| && h[head].Chain? && cells[head] == cells[median]
    ensures Parted(h[head := Forward(median)], cells, xs, median, h[head].next, zs[1..], left, ls, right, rs, group + {head})
  {
    Unlinked(h, head, zs);
    FrameList(h, cells, h[head].next, zs[1..], head, Forward(median));
    FrameList(h, cells, left, ls, head, Forward(median));
    FrameList(h, cells, right, rs, head, Forward(median));
  }

  /** The next cell is put on one of the sides. */
  lemma LeftSide(h: seq<Header>, cells: seq<Contents>, xs: set<nat>, median: nat, head: nat, zs: seq<nat>,
                 left: nat, ls: seq<nat>, right: nat, rs: seq<nat>, group: set<nat>)
    requires Parted(h, cells, xs, median, head, zs, left, ls, right, rs, group) && head != 0
    requires zs != [] && 0 < head < |h| && h[head].Chain? && Compare(cells[median], cells[head]) < 0
    ensures Parted(h[head := Chain(left)], cells, xs, median, h[head].next, zs[1..], head, [head] + ls, right, rs, group)
  {
    hide Compare;
    Unlinked(h, head, zs);
    FrameList(h, cells, h[head].next, zs[1..], head, Chain(left));
    FrameList(h, cells, right, rs, head, Chain(left));
    Linked(h, left, ls, head);
  }

  lemma RightSide(h: seq<Header>, cells: seq<Contents>, xs: set<nat>, median: nat, head: nat, zs: seq<nat>,
                  left: nat, ls: seq<nat>, right: nat, rs: seq<nat>, group: set<nat>)
    requires Parted(h, cells, xs, median, head, zs, left, ls, right, rs, group) && head != 0
    requires zs != [] && 0 < head < |h| && h[head].Chain? && Compare(cells[median], cells[head]) > 0
    ensures Parted(h[head := Chain(right)], cells, xs, median, h[head].next, zs[1..], left, ls, head, [head] + rs, group)
  {
    hide Compare;
    Unlinked(h, head, zs);
    FrameList(h, cells, h[head].next, zs[1..], head, Chain(right));
    FrameList(h, cells, left, ls, head, Chain(right));
    Linked(h, right, rs, head);
  }

  lemma ListStarts(h: seq<Header>, cells: seq<Contents>, head: nat, xs: seq<nat>)
    requires ListOf(h, cells, head, xs)
    ensures head == 0 <==> xs == []
    ensures head != 0 ==> 0 < head < |h| && h[head].Chain? && head in Cells(xs)
  {
  }

  /** What is left of a partition once every cell has been compared. */
  ghost predicate Divided(h: seq<Header>, cells: seq<Contents>, xs: set<nat>, left: nat, ls: seq<nat>, right: nat, rs: seq<nat>,
                          group: set<nat>) {
    && ListOf(h, cells, left, ls) && ListOf(h, cells, right, rs)
    && xs == Cells(ls) + Cells(rs) + group && Cells(ls) !! Cells(rs) && Cells(ls) !! group && Cells(rs) !! group
    && Merged(h, cells, group) && |ContentsOf(cells, group)| == 1 && |group| > 0
    && Different(cells, Cells(ls), Cells(rs)) && Different(cells, Cells(ls), group) && Different(cells, Cells(rs), group)
  }

  lemma PartEnd(h: seq<Header>, cells: seq<Contents>, xs: set<nat>, median: nat,
                left: nat, ls: seq<nat>, right: nat, rs: seq<nat>, group: set<nat>)
    requires Parted(h, cells, xs, median, 0, [], left, ls, right, rs, group) && OneLength(cells, xs)
    ensures Divided(h, cells, xs, left, ls, right, rs, group)
  {
    hide Compare, IsList;
    MergedGroup(h, cells, group, median);
    SidesDiffer(cells, median, Cells(ls), Cells(rs));
    SideDiffers(cells, xs, median, Cells(ls), true, group);
    SideDiffers(cells, xs, median, Cells(rs), false, group);
  }

  lemma SidesDiffer(cells: seq<Contents>, median: nat, s: set<nat>, t: set<nat>)
    requires median < |cells| && Side(cells, median, s, true) && Side(cells, median, t, false)
    ensures Different(cells, s, t)
  {
    hide Compare;
  }

  lemma SideDiffers(cells: seq<Contents>, xs: set<nat>, median: nat, s: set<nat>, before: bool, group: set<nat>)
    requires median in group && median < |cells| && Side(cells, median, s, before)
    requires forall x :: x in group ==> x < |cells| && cells[x] == cells[median]
    ensures Different(cells, s, group)
  {
    SameCompares(cells[median]);
    hide Compare;
  }

  lemma SameCompares(a: Contents)
    ensures Compare(a, a) == 0
  {
  }

  /** Divide a list about its first cell, merging with that cell those that are equal to it. */
  method Partition(h: array<Header>, cells: seq<Contents>, first: nat, ghost xs: seq<nat>, shareCount: int)
    returns (left: nat, leftCount: nat, right: nat, rightCount: nat, count: int,
             ghost ls: seq<nat>, ghost rs: seq<nat>, ghost group: set<nat>)
    requires ListOf(h[..], cells, first, xs) && xs != [] && OneLength(cells, Cells(xs))
    modifies h
    ensures Divided(h[..], cells, Cells(xs), left, ls, right, rs, group)
    ensures leftCount == |ls| && rightCount == |rs| && count == shareCount + |group| - 1
    ensures SameBut(old(h[..]), h[..], Cells(xs))
  {
    hide ListOf, Compare, Parted, Divided;
    ghost var s := h[..];
    PartStart(s, cells, first, xs);
    var median := first;
    var head := h[first].next;
    h[median] := LengthWord;
    assert h[..] == s[median := LengthWord];
    ghost var zs := xs[1..];
    left, right, leftCount, rightCount, ls, rs, group, count := 0, 0, 0, 0, [], [], {median}, shareCount;
    assert SameBut(old(h[..]), h[..], Cells(xs)) by { ListStarts(s, cells, first, xs); }
    while head != 0
      invariant Parted(h[..], cells, Cells(xs), median, head, zs, left, ls, right, rs, group)
      invariant leftCount == |ls| && rightCount == |rs| && count == shareCount + |group| - 1
      invariant SameBut(old(h[..]), h[..], Cells(xs))
      decreases |zs|
    {
      s := h[..];
      PartedHead(s, cells, Cells(xs), median, head, zs, left, ls, right, rs, group);
      var next := h[head].next;
      var res := Compare(cells[median], cells[head]);
      if res == 0 {
        PartEqual(s, cells, Cells(xs), median, head, zs, left, ls, right, rs, group);
        h[head] := Forward(median);
        assert h[..] == s[head := Forward(median)];
        count := count + 1;
        group := group + {head};
      } else if res < 0 {
        LeftSide(s, cells, Cells(xs), median, head, zs, left, ls, right, rs, group);
        h[head] := Chain(left);
        assert h[..] == s[head := Chain(left)];
        ls := [head] + ls;
        left := head;
        leftCount := leftCount + 1;
      } else {
        RightSide(s, cells, Cells(xs), median, head, zs, left, ls, right, rs, group);
        h[head] := Chain(right);
        assert h[..] == s[head := Chain(right)];
        rs := [head] + rs;
        right := head;
        rightCount := rightCount + 1;
      }
      zs := zs[1..];
      head := next;
    }
    PartedDone(h[..], cells, Cells(xs), median, zs, left, ls, right, rs, group);
    PartEnd(h[..], cells, Cells(xs), median, left, ls, right, rs, group);
  }

  lemma PartedHead(h: seq<Header>, cells: seq<Contents>, xs: set<nat>, median: nat, head: nat, zs: seq<nat>,
                   left: nat, ls: seq<nat>, right: nat, rs: seq<nat>, group: set<nat>)
    requires Parted(h, cells, xs, median, head, zs, left, ls, right, rs, group) && head != 0
    requires OneLength(cells, xs)
    ensures zs != [] && 0 < head < |h| == |cells| && h[head].Chain? && median < |cells| && head in xs && head !in group
    ensures Compare(cells[median], cells[head]) == 0 <==> cells[head] == cells[median]
  {
    hide Compare;
    ListStarts(h, cells, head, zs);
    assert median in xs;
  }

  lemma PartedDone(h: seq<Header>, cells: seq<Contents>, xs: set<nat>, median: nat, zs: seq<nat>,
                   left: nat, ls: seq<nat>, right: nat, rs: seq<nat>, group: set<nat>)
    requires Parted(h, cells, xs, median, 0, zs, left, ls, right, rs, group)
    ensures zs == []
  {
    ListStarts(h, cells, 0, zs);
  }

  // ---------- The whole sort ----------

  /** The cells of s are merged, and sharing is the number of them that is forwarded. */
  ghost predicate Shared(h: seq<Header>, cells: seq<Contents>, s: set<nat>, sharing: int) {
    Merged(h, cells, s) && sharing == |s| - |ContentsOf(cells, s)|
  }

  /** What has been merged so far and the list that remains, with no contents in common. */
  ghost predicate Remaining(h: seq<Header>, cells: seq<Contents>, whole: set<nat>, done: set<nat>, sharing: int,
                            head: nat, ys: seq<nat>) {
    && ListOf(h, cells, head, ys) && Shared(h, cells, done, sharing)
    && whole == done + Cells(ys) && Different(cells, done, Cells(ys)) && done !! Cells(ys)
  }

  lemma FrameLists(h: seq<Header>, h': seq<Header>, cells: seq<Contents>, s: set<nat>, head: nat, xs: seq<nat>)
    requires SameBut(h, h', s) && ListOf(h, cells, head, xs) && Cells(xs) !! s
    ensures ListOf(h', cells, head, xs)
  {
    ListInBounds(h, head, xs);
    assert forall x :: x in xs ==> x in Cells(xs);
    ListFrame(h, h', head, xs);
  }

  lemma FrameShared(h: seq<Header>, h': seq<Header>, cells: seq<Contents>, s: set<nat>, t: set<nat>, sharing: int)
    requires SameBut(h, h', t) && Shared(h, cells, s, sharing) && s !! t
    ensures Shared(h', cells, s, sharing)
  {
    MergedFrame(h, h', cells, s);
  }

  lemma SharedUnion(h: seq<Header>, cells: seq<Contents>, s: set<nat>, t: set<nat>, m: int, n: int)
    requires Shared(h, cells, s, m) && Shared(h, cells, t, n) && Different(cells, s, t)
    ensures Shared(h, cells, s + t, m + n) && s !! t
  {
    hide Merged, Different, ContentsOf;
    MergedUnion(h, cells, s, t);
  }

  lemma NothingShared(h: seq<Header>, cells: seq<Contents>)
    ensures Shared(h, cells, {}, 0)
  {
    assert ContentsOf(cells, {}) == {};
  }

  /** The group joins what is merged; the two sides remain. */
  lemma GroupJoins(h0: seq<Header>, h: seq<Header>, cells: seq<Contents>, whole: set<nat>, done: set<nat>, sharing: int,
                   head: nat, ys: seq<nat>, left: nat, ls: seq<nat>, right: nat, rs: seq<nat>, group: set<nat>)
    requires Remaining(h0, cells, whole, done, sharing, head, ys) && SameBut(h0, h, Cells(ys))
    requires Divided(h, cells, Cells(ys), left, ls, right, rs, group)
    ensures Shared(h, cells, done + group, sharing + |group| - 1)
    ensures Different(cells, done + group, Cells(ls)) && Different(cells, done + group, Cells(rs))
    ensures (done + group) !! Cells(ls) && (done + group) !! Cells(rs) && whole == done + group + Cells(ls) + Cells(rs)
  {
    hide Merged, IsList, Cells, ContentsOf;
    FrameShared(h0, h, cells, done, Cells(ys), sharing);
    SharedUnion(h, cells, done, group, sharing, |group| - 1);
  }

  /** The smaller side, once sorted, joins what is merged; the larger remains. */
  lemma SideJoins(h0: seq<Header>, h: seq<Header>, cells: seq<Contents>, whole: set<nat>, done: set<nat>, sharing: int,
                  small: set<nat>, n: int, head: nat, ys: seq<nat>)
    requires Shared(h0, cells, done, sharing) && ListOf(h0, cells, head, ys) && SameBut(h0, h, small)
    requires Shared(h, cells, small, n) && whole == done + small + Cells(ys)
    requires done !! small && done !! Cells(ys) && small !! Cells(ys)
    requires Different(cells, done, small) && Different(cells, done, Cells(ys)) && Different(cells, small, Cells(ys))
    ensures Remaining(h, cells, whole, done + small, sharing + n, head, ys)
  {
    hide Merged, IsList, ContentsOf;
    FrameShared(h0, h, cells, done, small, sharing);
    FrameLists(h0, h, cells, small, head, ys);
    hide Cells;
    SharedUnion(h, cells, done, small, sharing, n);
  }

  lemma OneLengthPart(cells: seq<Contents>, s: set<nat>, t: set<nat>)
    requires OneLength(cells, s) && t <= s
    ensures OneLength(cells, t)
  {
  }

  /** A list of two cells: compare them at once. */
  method SortTwo(h: array<Header>, cells: seq<Contents>, head: nat, shareCount: int, ghost ys: seq<nat>) returns (count: int)
    requires ListOf(h[..], cells, head, ys) && |ys| == 2 && OneLength(cells, Cells(ys))
    modifies h
    ensures Shared(h[..], cells, Cells(ys), count - shareCount) && SameBut(old(h[..]), h[..], Cells(ys))
  {
    hide Compare, Merged;
    count := shareCount;
    Unlinked(h[..], head, ys);
    Unlinked(h[..], h[head].next, ys[1..]);
    var next := h[head].next;
    assert Cells(ys) == {head, next};
    h[head] := LengthWord;
    if Compare(cells[head], cells[next]) == 0 {
      h[next] := Forward(head);
      count := count + 1;
      MergedGroup(h[..], cells, {head, next}, head);
    } else {
      h[next] := LengthWord;
      SameCompares(cells[head]);
      TwoApart(h[..], cells, head, next);
    }
  }

  lemma TwoApart(h: seq<Header>, cells: seq<Contents>, x: nat, y: nat)
    requires x < |h| == |cells| && y < |h| && x != y && h[x] == LengthWord && h[y] == LengthWord && cells[x] != cells[y]
    ensures Shared(h, cells, {x, y}, 0)
  {
    hide Merged, ContentsOf;
    MergedGroup(h, cells, {x}, x);
    MergedGroup(h, cells, {y}, y);
    MergedUnion(h, cells, {x}, {y});
    assert {x} + {y} == {x, y};
  }

  /** A list of at most two cells. */
  method SortFew(h: array<Header>, cells: seq<Contents>, head: nat, nItems: nat, shareCount: int, ghost ys: seq<nat>)
    returns (count: int)
    requires ListOf(h[..], cells, head, ys) && nItems == |ys| <= 2 && OneLength(cells, Cells(ys))
    modifies h
    ensures Shared(h[..], cells, Cells(ys), count - shareCount) && SameBut(old(h[..]), h[..], Cells(ys))
  {
    count := shareCount;
    if nItems == 0 {
      assert Cells(ys) == {};
      NothingShared(h[..], cells);
    } else if nItems == 1 {
      Unlinked(h[..], head, ys);
      assert Cells(ys) == {head};
      h[head] := LengthWord;
      MergedGroup(h[..], cells, {head}, head);
    } else {
      count := SortTwo(h, cells, head, shareCount, ys);
    }
  }

  lemma SharedOneMore(h: seq<Header>, cells: seq<Contents>, whole: set<nat>, done: set<nat>, sharing: int,
                      head: nat, ys: seq<nat>, n: int)
    requires whole == done + Cells(ys) && Different(cells, done, Cells(ys))
    requires Shared(h, cells, done, sharing) && Shared(h, cells, Cells(ys), n)
    ensures Shared(h, cells, whole, sharing + n)
  {
    SharedUnion(h, cells, done, Cells(ys), sharing, n);
  }

  /**
   One turn: divide the list, drop the median and what is merged with it, sort the smaller side and
   leave the larger.
   */
  method SortTurn(h: array<Header>, cells: seq<Contents>, first: nat, shareCount: int,
                  ghost whole: set<nat>, ghost done: set<nat>, ghost sharing: int, ghost ys: seq<nat>)
    returns (head: nat, nItems: nat, count: int, ghost done': set<nat>, ghost ys': seq<nat>)
    requires Remaining(h[..], cells, whole, done, sharing, first, ys) && ys != [] && OneLength(cells, Cells(ys))
    modifies h
    ensures Remaining(h[..], cells, whole, done', sharing + (count - shareCount), head, ys')
    ensures nItems == |ys'| < |ys| && SameBut(old(h[..]), h[..], Cells(ys))
    decreases |ys|, 0
  {
    hide ListOf, Merged, ContentsOf, Divided, Different, Shared, OneLength, Cells;
    ghost var s0 := h[..];
    var left, leftCount, right, rightCount;
    ghost var ls, rs, group;
    left, leftCount, right, rightCount, count, ls, rs, group := Partition(h, cells, first, ys, shareCount);
    ghost var s1, before := h[..], count;
    GroupJoins(s0, s1, cells, whole, done, sharing, first, ys, left, ls, right, rs, group);
    SidesSmaller(s1, cells, ys, left, ls, right, rs, group);
    OneLengthPart(cells, Cells(ys), Cells(ls));
    OneLengthPart(cells, Cells(ys), Cells(rs));
    ghost var merged, n := done + group, sharing + |group| - 1;
    if leftCount < rightCount {
      count := SortList(h, cells, left, leftCount, count, ls);
      SideJoins(s1, h[..], cells, whole, merged, n, Cells(ls), count - before, right, rs);
      done', ys' := merged + Cells(ls), rs;
      head, nItems := right, rightCount;
    } else {
      count := SortList(h, cells, right, rightCount, count, rs);
      SideJoins(s1, h[..], cells, whole, merged, n, Cells(rs), count - before, left, ls);
      done', ys' := merged + Cells(rs), ls;
      head, nItems := left, leftCount;
    }
    SameButTwice(s0, s1, h[..], Cells(ys), Cells(ls) + Cells(rs));
  }

  lemma SameButTwice(h0: seq<Header>, h1: seq<Header>, h2: seq<Header>, s: set<nat>, t: set<nat>)
    requires SameBut(h0, h1, s) && t <= s && |h2| == |h1| && forall a :: 0 <= a < |h1| && a !in t ==> h2[a] == h1[a]
    ensures SameBut(h0, h2, s)
  {
  }

  /**
   Sort a list, merging cells with equal contents. In the end each contents has one cell with the
   normal length word, all others are forwarded directly to it, and the count goes up by the number
   of cells less the number of different contents.
   */
  method SortList(h: array<Header>, cells: seq<Contents>, first: nat, items: nat, shareCount: int, ghost xs: seq<nat>)
    returns (count: int)
    requires ListOf(h[..], cells, first, xs) && items == |xs| && OneLength(cells, Cells(xs))
    modifies h
    ensures Shared(h[..], cells, Cells(xs), count - shareCount) && SameBut(old(h[..]), h[..], Cells(xs))
    decreases |xs|, 1
  {
    hide ListOf, Merged, ContentsOf, Different, Shared, OneLength;
    ghost var whole := Cells(xs);
    ghost var done: set<nat>, ys := {}, xs;
    var head, nItems := first, items;
    count := shareCount;
    RemainingStart(h[..], cells, first, xs);
    while nItems > 2
      invariant Remaining(h[..], cells, whole, done, count - shareCount, head, ys)
      invariant nItems == |ys| <= |xs| && OneLength(cells, whole) && SameBut(old(h[..]), h[..], whole)
      decreases |ys|
    {
      OneLengthPart(cells, whole, Cells(ys));
      head, nItems, count, done, ys := SortTurn(h, cells, head, count, whole, done, count - shareCount, ys);
    }
    OneLengthPart(cells, whole, Cells(ys));
    ghost var s0, before := h[..], count - shareCount;
    count := SortFew(h, cells, head, nItems, count, ys);
    FrameShared(s0, h[..], cells, done, Cells(ys), before);
    SharedOneMore(h[..], cells, whole, done, before, head, ys, count - shareCount - before);
  }

  lemma RemainingStart(h: seq<Header>, cells: seq<Contents>, first: nat, xs: seq<nat>)
    requires ListOf(h, cells, first, xs)
    ensures Remaining(h, cells, Cells(xs), {}, 0, first, xs)
  {
    NothingShared(h, cells);
  }

  lemma SidesSmaller(h: seq<Header>, cells: seq<Contents>, ys: seq<nat>, left: nat, ls: seq<nat>, right: nat, rs: seq<nat>,
                     group: set<nat>)
    requires Divided(h, cells, Cells(ys), left, ls, right, rs, group)
    ensures |ls| < |ys| && |rs| < |ys| && ListOf(h, cells, left, ls) && ListOf(h, cells, right, rs)
    ensures Cells(ls) !! Cells(rs) && Different(cells, Cells(ls), Cells(rs)) && Different(cells, Cells(rs), Cells(ls))
  {
    hide Merged, ContentsOf, IsList;
    CellsCount(ls);
    CellsCount(rs);
    CellsAtMost(ys);
    assert |Cells(ys)| == |Cells(ls)| + |Cells(rs)| + |group|;
  }

  lemma {:induction false} CellsAtMost(ys: seq<nat>)
    ensures |Cells(ys)| <= |ys|
    decreases |ys|
  {
    if ys == [] {
      assert Cells(ys) == {};
    } else {
      CellsAtMost(ys[1..]);
      assert ys == [ys[0]] + ys[1..];
      assert Cells(ys) == Cells(ys[1..]) + {ys[0]};
    }
  }
}