/** Keeping the index of spaces: insertion and removal of ranges of machine addresses, and look-up. */
module SpaceIndex {
  import opened Arithmetic
  import opened Digits
  import opened PolyInts
  import opened SpaceTrees
  import opened SpaceNodes

  /** A machine address has this many values; as the end of a range, zero stands for all of them. */
  function Addresses(): nat {
    Pow256(WORD)
  }

  /** The words start and end hold, in their high-order bytes, the range from a to e of a node of n bytes. */
  ghost predicate Holds(n: nat, a: int, e: int, start: nat, end: nat) {
    && 0 < n <= WORD && 0 <= a < e <= Pow256(n)
    && start == a * Pow256(WORD - n) && end == if e == Pow256(n) then 0 else e * Pow256(WORD - n)
  }

  // ---------- Words and the ranges they hold ----------

  /** With a = r * p + b, the word a * q has r in its top byte and b * 256 * q below it. */
  lemma TopByte(r: int, b: int, p: int, q: int, u: int, w: int)
    requires p > 0 && q > 0 && p * q == u && 256 * u == w && 0 <= r <= 256 && 0 <= b < p
    requires r == 256 ==> b == 0
    ensures (r * p + b) * q == r * u + b * q && 0 <= b * q < u
    ensures (r * p + b) * q / u == r
    ensures (r * p + b) * q * 256 % w == b * (256 * q)
  {
    MulDistribute(r * p, b, q);
    MulAssoc(r, p, q);
    MulNonNegative(b, q);
    MulStrict(b, p, q);
    MulStrict(0, p, q);
    DivisionUnique((r * p + b) * q, u, r, b * q);
    Shifted256(r, b, q, u, w);
    DivisionUnique((r * u + b * q) * 256, w, r, b * (256 * q));
  }

  lemma Shifted256(r: int, b: int, q: int, u: int, w: int)
    requires 256 * u == w && 0 <= b * q < u
    ensures (r * u + b * q) * 256 == r * w + b * (256 * q) && 0 <= b * (256 * q) < w
  {
    MulAssoc(r, u, 256);
    MulAssoc(b, q, 256);
    assert u * 256 == w && q * 256 == 256 * q;
  }

  lemma WordParts(n: nat)
    requires 0 < n <= WORD
    ensures Pow256(n - 1) > 0 && Pow256(WORD - n) > 0
    ensures Pow256(n - 1) * Pow256(WORD - n) == Pow256(WORD - 1)
    ensures 256 * Pow256(WORD - 1) == Pow256(WORD) && Pow256(n) == 256 * Pow256(n - 1)
    ensures 256 * Pow256(WORD - n) == Pow256(WORD - (n - 1))
  {
    Pow256Positive(n - 1);
    Pow256Positive(WORD - n);
    PowSum(n - 1, WORD - n);
  }

  lemma {:induction false} PowSum(x: nat, y: nat)
    ensures Pow256(x) * Pow256(y) == Pow256(x + y)
  {
    if x > 0 {
      PowSum(x - 1, y);
      MulAssoc(256, Pow256(x - 1), Pow256(y));
    }
  }

  /** What the shifts of the source pick out of the start of a range. */
  lemma StartParts(n: nat, a: int, e: int, start: nat, end: nat)
    requires Holds(n, a, e, start, end)
    ensures Pow256(WORD - 1) > 0 && Pow256(n - 1) > 0
    ensures start / Pow256(WORD - 1) == a / Pow256(n - 1) && 0 <= a / Pow256(n - 1) < 256
    ensures start * 256 % Addresses() == a % Pow256(n - 1) * Pow256(WORD - (n - 1))
    ensures start == a / Pow256(n - 1) * Pow256(WORD - 1) <==> a % Pow256(n - 1) == 0
  {
    WordParts(n);
    hide Pow256;
    var p, q := Pow256(n - 1), Pow256(WORD - n);
    DivMod(a, p);
    DivNonNegative(a, p);
    MulCancelStrict(a / p, 256, p);
    MulStrict(0, p, q);
    TopByte(a / p, a % p, p, q, Pow256(WORD - 1), Pow256(WORD));
    ZeroProduct(a % p, q);
  }

  lemma ZeroProduct(b: int, q: int)
    requires q > 0
    ensures b * q == 0 <==> b == 0
  {
    if b > 0 { MulStrict(0, b, q); }
    if b < 0 { MulStrict(b, 0, q); }
  }

  /** The entry at which a range ends, as the source finds it. */
  function EndEntry(end: nat): int
    requires Pow256(WORD - 1) > 0
  {
    if end == 0 then 256 else end / Pow256(WORD - 1)
  }

  lemma NothingOver(n: nat)
    requires n > 0
    ensures 0 % n == 0 && n % n == 0
  {
    DivisionUnique(0, n, 0, 0);
    DivisionUnique(n, n, 1, 0);
  }

  lemma EndParts(n: nat, a: int, e: int, start: nat, end: nat)
    requires Holds(n, a, e, start, end)
    ensures Pow256(WORD - 1) > 0 && Pow256(n - 1) > 0
    ensures EndEntry(end) == e / Pow256(n - 1) && 0 <= e / Pow256(n - 1) <= 256
    ensures e % Pow256(n - 1) != 0 ==> e / Pow256(n - 1) < 256
    ensures end * 256 % Addresses() == e % Pow256(n - 1) * Pow256(WORD - (n - 1))
    ensures end == EndEntry(end) * Pow256(WORD - 1) % Addresses() <==> e % Pow256(n - 1) == 0
  {
    WordParts(n);
    hide Pow256;
    var p, q, u := Pow256(n - 1), Pow256(WORD - n), Pow256(WORD - 1);
    MulStrict(0, p, q);
    DivMod(e, p);
    DivNonNegative(e, p);
    if e == Pow256(n) {
      DivisionUnique(e, p, 256, 0);
      Pow256Succ(WORD - 1);
      NothingOver(Addresses());
    } else {
      MulCancelStrict(e / p, 256, p);
      TopByte(e / p, e % p, p, q, u, Pow256(WORD));
      MulStrict(0, e, q);
      ZeroProduct(e % p, q);
      EndWord(e / p, u, e % p * q);
    }
  }

  lemma EndWord(s: int, u: int, rest: int)
    requires 0 <= s < 256 && u > 0
    ensures s * u % (256 * u) == s * u
  {
    MulNonNegative(s, u);
    MulStrict(s, 256, u);
    DivisionUnique(s * u, 256 * u, 0, s * u);
  }

  /** How a range from a to e covers the entries of its node, in terms of where it begins and ends. */
  lemma CoverAt(n: nat, a: int, e: int, i: int)
    requires n > 0 && 0 <= a < e <= Pow256(n) && 0 <= i < 256
    ensures Pow256(n - 1) > 0
    ensures var p := Pow256(n - 1); var r, s, c := a / p, e / p, EntryCover(n, a, e, i);
      && 0 <= r <= s <= 256
      && (i < r || i > s ==> c.Misses?)
      && (r < i < s ==> c.Fills?)
      && (i == s && r < s ==> if e % p == 0 then c.Misses? else c == Part(0, e % p))
      && (i == r && r < s ==> if a % p == 0 then c.Fills? else c == Part(a % p, p))
      && (i == r == s ==> c == Part(a % p, e % p))
  {
    Pow256Positive(n - 1);
    Pow256Succ(n - 1);
    hide Pow256;
    var p := Pow256(n - 1);
    DivMod(a, p);
    DivMod(e, p);
    CoverArithmetic(i, p, a, e, a / p, a % p, e / p, e % p);
  }

  lemma CoverArithmetic(i: int, p: int, a: int, e: int, r: int, b: int, s: int, f: int)
    requires p > 0 && 0 <= a < e <= 256 * p && 0 <= i < 256
    requires a == r * p + b && 0 <= b < p && e == s * p + f && 0 <= f < p
    ensures 0 <= r <= s <= 256
    ensures i < r || i > s ==> CoverOf(i * p, p, a, e).Misses?
    ensures r < i < s ==> CoverOf(i * p, p, a, e).Fills?
    ensures i == s && r < s ==> if f == 0 then CoverOf(i * p, p, a, e).Misses? else CoverOf(i * p, p, a, e) == Part(0, f)
    ensures i == r && r < s ==> if b == 0 then CoverOf(i * p, p, a, e).Fills? else CoverOf(i * p, p, a, e) == Part(b, p)
    ensures i == r == s ==> CoverOf(i * p, p, a, e) == Part(b, f)
  {
    if r < 0 { MulMonotone(r + 1, 0, p); MulDistribute(r, 1, p); }
    if s < r { MulMonotone(s + 1, r, p); MulDistribute(s, 1, p); }
    if s > 256 { MulMonotone(257, s, p); MulDistribute(256, 1, p); }
    if i < r { MulMonotone(i + 1, r, p); MulDistribute(i, 1, p); }
    if i > r { MulMonotone(r + 1, i, p); MulDistribute(r, 1, p); }
    if i < s { MulMonotone(i + 1, s, p); MulDistribute(i, 1, p); }
    if i > s { MulMonotone(s + 1, i, p); MulDistribute(s, 1, p); }
  }

  // ---------- Insertion ----------

  /** Entries below r are those of the finished addition, the others as they were. */
  ghost predicate AddedBelow(tt: Tree, n: nat, space: SpaceId, a: int, e: int, ts: seq<Tree>, r: int)
    requires WellFormed(tt, n) && n > 0
  {
    && |ts| == 256 && (forall i :: 0 <= i < 256 && i < r ==> ts[i] == AddedEntry(Entries(tt)[i], n - 1, space, EntryCover(n, a, e, i)))
    && (forall i :: 0 <= i < 256 && r <= i ==> ts[i] == Entries(tt)[i])
  }

  lemma AddedAll(tt: Tree, n: nat, space: SpaceId, a: int, e: int, ts: seq<Tree>, r: int)
    requires WellFormed(tt, n) && n > 0 && AddedBelow(tt, n, space, a, e, ts, r)
    requires forall i :: 0 <= i < 256 && r <= i ==> EntryCover(n, a, e, i).Misses?
    ensures Node(ts) == Added(tt, n, space, a, e)
  {
    hide EntryCover;
    var t := Added(tt, n, space, a, e);
    forall i | 0 <= i < 256
      ensures ts[i] == t.tree[i]
    {
      assert t.tree[i] == AddedEntry(Entries(tt)[i], n - 1, space, EntryCover(n, a, e, i));
      if i >= r { assert EntryCover(n, a, e, i).Misses?; }
    }
  }

  /** Entry r set as the addition sets it. */
  lemma AddedOne(tt: Tree, n: nat, space: SpaceId, a: int, e: int, ts: seq<Tree>, r: int, entry: Tree)
    requires WellFormed(tt, n) && n > 0 && AddedBelow(tt, n, space, a, e, ts, r) && 0 <= r < 256
    requires entry == AddedEntry(Entries(tt)[r], n - 1, space, EntryCover(n, a, e, r))
    ensures AddedBelow(tt, n, space, a, e, ts[r := entry], r + 1)
  {
    hide AddedEntry, EntryCover;
  }

  lemma AddedNone(tt: Tree, n: nat, space: SpaceId, a: int, e: int, ts: seq<Tree>, r: int)
    requires WellFormed(tt, n) && n > 0 && ts == Entries(tt) && r >= 0
    requires forall i :: 0 <= i < 256 && i < r ==> EntryCover(n, a, e, i).Misses?
    ensures AddedBelow(tt, n, space, a, e, ts, r)
  {
    hide EntryCover;
  }

  /** An addition broken off with entries below r done and entry r done in part. */
  lemma BrokenOff(tt: Tree, n: nat, space: SpaceId, a: int, e: int, ts: seq<Tree>, r: int, entry: Tree)
    requires WellFormed(tt, n) && n > 0 && !tt.Leaf? && Free(tt, n, a, e)
    requires AddedBelow(tt, n, space, a, e, ts, r) && 0 <= r < 256 && WellFormed(entry, n - 1)
    requires PartlyEntry(Entries(tt)[r], entry, n - 1, space, EntryCover(n, a, e, r))
    ensures WellFormed(Node(ts[r := entry]), n) && PartlyAdded(tt, Node(ts[r := entry]), n, space, a, e)
  {
    hide EntryCover, Free;
    AddedPartly(tt, n, space, a, e);
    var t := Added(tt, n, space, a, e);
    forall i | 0 <= i < 256
      ensures WellFormed(ts[r := entry][i], n - 1)
      ensures PartlyEntry(EntryOrNull(tt, n, i), ts[r := entry][i], n - 1, space, EntryCover(n, a, e, i))
    {
      assert Entries(tt)[i] == EntryOrNull(tt, n, i);
      assert t.tree[i] == AddedEntry(Entries(tt)[i], n - 1, space, EntryCover(n, a, e, i));
      SameIsPartly(tt, n, space, a, e, i);
      AddedIsPartly(tt, n, space, a, e, i);
    }
  }

  lemma AddedIsPartly(tt: Tree, n: nat, space: SpaceId, a: int, e: int, i: nat)
    requires WellFormed(tt, n) && n > 0 && !tt.Leaf? && Free(tt, n, a, e) && i < 256
    ensures var entry := AddedEntry(Entries(tt)[i], n - 1, space, EntryCover(n, a, e, i));
      PartlyEntry(Entries(tt)[i], entry, n - 1, space, EntryCover(n, a, e, i))
  {
    hide Pow256, Base, CoverOf, Free;
    var c := EntryCover(n, a, e, i);
    if c.Part? {
      AddedEntryOk(tt, n, a, e, i);
      AddedPartly(Entries(tt)[i], n - 1, space, c.lo, c.hi);
    }
  }

  /** What a call on an entry is given and must do. */
  ghost predicate AddTask(tt: Tree, n: nat, a: int, e: int, start: nat, end: nat) {
    Holds(n, a, e, start, end) && WellFormed(tt, n) && !tt.Leaf? && Free(tt, n, a, e) && NoEmptyBelow(tt)
  }

  /** The part of a range that falls in an entry is held by the words the source passes down. */
  lemma SubTask(tt: Tree, n: nat, a: int, e: int, start: nat, end: nat, r: int, start': nat, end': nat)
    requires AddTask(tt, n, a, e, start, end) && 0 <= r < 256 && EntryCover(n, a, e, r).Part?
    requires start' == EntryCover(n, a, e, r).lo * Pow256(WORD - (n - 1))
    requires var hi := EntryCover(n, a, e, r).hi; end' == if hi == Pow256(n - 1) then 0 else hi * Pow256(WORD - (n - 1))
    ensures n > 1 && AddTask(Entries(tt)[r], n - 1, EntryCover(n, a, e, r).lo, EntryCover(n, a, e, r).hi, start', end')
  {
    hide Pow256, Base, CoverOf, Free;
    AddedEntryOk(tt, n, a, e, r);
    CoverBound(n, a, e, r);
  }

  /** A whole entry that a range fills holds nothing yet. */
  lemma WholeEntry(tt: Tree, n: nat, a: int, e: int, r: int)
    requires WellFormed(tt, n) && n > 0 && !tt.Leaf? && Free(tt, n, a, e) && NoEmptyBelow(tt) && 0 <= r < 256
    requires EntryCover(n, a, e, r).Fills?
    ensures Entries(tt)[r] == Null
  {
    hide Pow256, Base, CoverOf, Free;
    RestoredEntry(tt, n, a, e, r);
    FreeIsNull(EntryOrNull(tt, n, r), n - 1);
  }

  // ---------- The nodes an addition makes ----------

  /** A range of a node of n bytes, free in a tree with no empty nodes. */
  ghost predicate Addable(tt: Tree, n: nat, a: int, e: int) {
    WellFormed(tt, n) && n > 0 && !tt.Leaf? && Free(tt, n, a, e) && NoEmptyBelow(tt) && 0 <= a < e <= Pow256(n)
  }

  /** The most nodes an addition can need: two to each byte but the first, or one if the range begins or ends with the node. */
  function MostNodes(n: nat, a: int, e: int): int {
    if a == 0 || e == Pow256(n) then n else 2 * n - 1
  }

  /** An entry has as many nodes as before unless it is covered in part. */
  lemma {:induction false} EntryGrows(tt: Tree, n: nat, space: SpaceId, a: int, e: int, i: nat)
    requires Addable(tt, n, a, e) && i < 256
    ensures var c, entry := EntryCover(n, a, e, i), Entries(tt)[i];
      && WellFormed(entry, n - 1) && Nodes(entry) <= Nodes(AddedEntry(entry, n - 1, space, c))
      && Nodes(AddedEntry(entry, n - 1, space, c)) <= Nodes(entry) + MostIn(n, c)
      && (!c.Part? ==> Nodes(AddedEntry(entry, n - 1, space, c)) == Nodes(entry))
    decreases n, 0
  {
    hide Pow256, Base, CoverOf, Free, Nodes, EntryCover;
    var c := EntryCover(n, a, e, i);
    match c
    case Misses =>
    case Fills =>
      WholeEntry(tt, n, a, e, i);
      NoNode(Null);
      NoNode(Leaf(space));
    case Part(lo, hi) =>
      AddedEntryOk(tt, n, a, e, i);
      RestoredEntry(tt, n, a, e, i);
      assert Entries(tt)[i] == EntryOrNull(tt, n, i);
      AddedGrows(Entries(tt)[i], n - 1, space, lo, hi);
  }

  lemma NoNode(t: Tree)
    requires !t.Node?
    ensures Nodes(t) == 0
  {
  }

  lemma EntriesNodes(t: Tree)
    requires !t.Leaf? && |Entries(t)| == 256
    ensures Nodes(Node(Entries(t))) == Nodes(t) + if t == Null then 1 else 0
  {
    if t == Null { NoNodes(NewEntries(), 256); }
  }

  /** An addition gives back no node, and makes a limited number. */
  lemma {:induction false} AddedGrows(tt: Tree, n: nat, space: SpaceId, a: int, e: int)
    requires Addable(tt, n, a, e)
    ensures Nodes(tt) <= Nodes(Added(tt, n, space, a, e)) <= Nodes(tt) + MostNodes(n, a, e)
    decreases n, 1
  {
    hide Pow256, Base, CoverOf, Free, EntryCover, AddedEntry, NoEmptyBelow;
    var t, p := Added(tt, n, space, a, e), Pow256(n - 1);
    forall i: nat | i < 256
      ensures Nodes(Entries(tt)[i]) <= Nodes(t.tree[i])
      ensures !EntryCover(n, a, e, i).Part? ==> Nodes(Entries(tt)[i]) == Nodes(t.tree[i])
    {
      EntryGrows(tt, n, space, a, e, i);
    }
    EntriesNodes(tt);
    hide Nodes, MostNodes;
    NodesOrder(Entries(tt), t.tree, 256);
    assert p > 0 && 0 <= a / p <= e / p <= 256 && a / p < 256 by { AllCovers(n, a, e); CoverEnds(n, a, e); }
    assert forall i: nat :: i < 256 && i != a / p && i != e / p ==> Nodes(Entries(tt)[i]) == Nodes(t.tree[i]) by { AllCovers(n, a, e); }
    NodesOfTwo(Entries(tt), t.tree, a / p, e / p);
    EntryGrows(tt, n, space, a, e, a / p);
    if e / p < 256 { EntryGrows(tt, n, space, a, e, e / p); }
    MostInEntries(n, a, e);
    assert Nodes(t) == 1 + NodesIn(t.tree, 256) && Nodes(Node(Entries(tt))) == 1 + NodesIn(Entries(tt), 256) by {
      NodesAre(t);
      NodesAre(Node(Entries(tt)));
    }
  }

  lemma SomeNodes(t: Tree)
    requires t.Node?
    ensures Nodes(t) > 0
  {
  }

  lemma NodesAre(t: Tree)
    requires t.Node?
    ensures Nodes(t) == 1 + NodesIn(t.tree, |t.tree|)
  {
  }

  /** The most nodes for an entry that the range covers in this way. */
  function MostIn(n: nat, c: Cover): int
    requires n > 0
  {
    if c.Part? then MostNodes(n - 1, c.lo, c.hi) else 0
  }

  /** The two ends of a range, in the entries they fall in. */
  lemma MostInEntries(n: nat, a: int, e: int)
    requires n > 0 && 0 <= a < e <= Pow256(n)
    ensures Pow256(n - 1) > 0
    ensures var p := Pow256(n - 1); var r, s := a / p, e / p;
      1 + MostIn(n, EntryCover(n, a, e, r)) + (if r < s < 256 then MostIn(n, EntryCover(n, a, e, s)) else 0) <= MostNodes(n, a, e)
  {
    Pow256Positive(n - 1);
    Pow256Succ(n - 1);
    AllCovers(n, a, e);
    var p := Pow256(n - 1);
    if EntryCover(n, a, e, a / p).Part? { PartIsDeep(n, a, e, a / p); }
    if EntryCover(n, a, e, e / p).Part? { PartIsDeep(n, a, e, e / p); }
    hide Pow256, EntryCover;
    if a == 0 { DivisionUnique(0, p, 0, 0); }
    if e == Pow256(n) { DivisionUnique(e, p, 256, 0); }
  }

  /** Add the part of the range that falls in entry r. */
  method AddPart(ghost tt: Tree, ts: seq<Tree>, r: nat, space: SpaceId, start: nat, end: nat, budget: nat,
                 ghost n: nat, ghost a: int, ghost e: int, ghost startS: nat, ghost endS: nat)
    returns (ts': seq<Tree>, left: nat, ok: bool)
    requires AddTask(tt, n, a, e, startS, endS) && r < 256 && AddedBelow(tt, n, space, a, e, ts, r)
    requires EntryCover(n, a, e, r).Part? && start == EntryCover(n, a, e, r).lo * Pow256(WORD - (n - 1))
    requires var hi := EntryCover(n, a, e, r).hi; end == if hi == Pow256(n - 1) then 0 else hi * Pow256(WORD - (n - 1))
    ensures |ts'| == 256 && WellFormed(Node(ts'), n)
    ensures if ok then AddedBelow(tt, n, space, a, e, ts', r + 1) else PartlyAdded(tt, Node(ts'), n, space, a, e)
    ensures left + Nodes(Node(ts')) == budget + Nodes(Node(ts))
    ensures !ok ==> left == 0 && Nodes(Node(ts')) < Nodes(Added(tt, n, space, a, e))
    decreases n, 0
  {
    hide Pow256, Base, CoverOf, EntryCover, AddedBelow, Nodes, Added, AddedEntry;
    SubTask(tt, n, a, e, startS, endS, r, start, end);
    ghost var c := EntryCover(n, a, e, r);
    assert |ts| == 256 && ts[r] == Entries(tt)[r] by { EntryAt(tt, n, space, a, e, ts, r); }
    var entry;
    entry, left, ok := AddTreeRange(ts[r], space, start, end, budget, n - 1, c.lo, c.hi);
    ts' := ts[r := entry];
    EntryNodes(ts, r, entry);
    assert AddedEntry(ts[r], n - 1, space, c) == Added(ts[r], n - 1, space, c.lo, c.hi) by { PartAdded(ts[r], n - 1, space, c); }
    if ok {
      AddedOne(tt, n, space, a, e, ts, r, entry);
      AddedFormed(tt, n, space, a, e, ts', r + 1);
    } else {
      BrokenOff(tt, n, space, a, e, ts, r, entry);
      FewerNodes(tt, n, space, a, e, ts, r, entry);
    }
  }

  lemma PartAdded(t: Tree, n: nat, space: SpaceId, c: Cover)
    requires WellFormed(t, n) && n > 0 && c.Part?
    ensures AddedEntry(t, n, space, c) == Added(t, n, space, c.lo, c.hi)
  {
  }

  lemma EntryNodes(ts: seq<Tree>, r: nat, entry: Tree)
    requires r < |ts|
    ensures Nodes(Node(ts[r := entry])) + Nodes(ts[r]) == Nodes(Node(ts)) + Nodes(entry)
  {
    hide Nodes;
    NodesUpdate(ts, |ts|, r, entry);
    NodesAre(Node(ts));
    NodesAre(Node(ts[r := entry]));
  }

  /** A tree whose entry r is not finished has fewer nodes than the finished one. */
  lemma FewerNodes(tt: Tree, n: nat, space: SpaceId, a: int, e: int, ts: seq<Tree>, r: nat, entry: Tree)
    requires Addable(tt, n, a, e) && r < 256 && AddedBelow(tt, n, space, a, e, ts, r)
    requires Nodes(entry) < Nodes(AddedEntry(Entries(tt)[r], n - 1, space, EntryCover(n, a, e, r)))
    ensures Nodes(Node(ts[r := entry])) < Nodes(Added(tt, n, space, a, e))
  {
    hide Pow256, Base, CoverOf, Free, EntryCover, AddedEntry, NoEmptyBelow, Nodes;
    var t, ts' := Added(tt, n, space, a, e), ts[r := entry];
    forall i: nat | i < 256
      ensures Nodes(ts'[i]) <= Nodes(t.tree[i]) && (i == r ==> Nodes(ts'[i]) < Nodes(t.tree[i]))
    {
      EntryGrows(tt, n, space, a, e, i);
    }
    assert |ts'| == 256 && Nodes(ts'[r]) < Nodes(t.tree[r]);
    hide Added, AddedBelow, Entries;
    NodesOrder(ts', t.tree, 256);
    NodesAre(Node(ts'));
    NodesAre(t);
  }

  lemma EntryAt(tt: Tree, n: nat, space: SpaceId, a: int, e: int, ts: seq<Tree>, r: nat)
    requires WellFormed(tt, n) && n > 0 && AddedBelow(tt, n, space, a, e, ts, r) && r < 256
    ensures |ts| == 256 && ts[r] == Entries(tt)[r]
  {
  }

  lemma AddedFormed(tt: Tree, n: nat, space: SpaceId, a: int, e: int, ts: seq<Tree>, r: int)
    requires WellFormed(tt, n) && n > 0 && AddedBelow(tt, n, space, a, e, ts, r)
    ensures |ts| == 256 && WellFormed(Node(ts), n)
  {
    hide EntryCover;
  }

  /** Set the whole entries from r up to s, all of them empty until now. */
  method AddWhole(ghost tt: Tree, ts: seq<Tree>, first: nat, s: nat, space: SpaceId, ghost n: nat, ghost a: int, ghost e: int)
    returns (ts': seq<Tree>)
    requires WellFormed(tt, n) && n > 0 && !tt.Leaf? && Free(tt, n, a, e) && NoEmptyBelow(tt)
    requires first <= s <= 256 && AddedBelow(tt, n, space, a, e, ts, first)
    requires forall i :: first <= i < s ==> EntryCover(n, a, e, i).Fills?
    ensures AddedBelow(tt, n, space, a, e, ts', s) && Nodes(Node(ts')) == Nodes(Node(ts))
  {
    hide Pow256, Base, CoverOf, EntryCover, AddedBelow, Free, WellFormed, NoEmptyBelow, Nodes;
    ts' := ts;
    var r := first;
    while r < s
      invariant first <= r <= s && AddedBelow(tt, n, space, a, e, ts', r) && Nodes(Node(ts')) == Nodes(Node(ts))
    {
      EntryAt(tt, n, space, a, e, ts', r);
      WholeEntry(tt, n, a, e, r);
      assert ts'[r] == Null;
      AddedOne(tt, n, space, a, e, ts', r, Leaf(space));
      EntryNodes(ts', r, Leaf(space));
      NoNode(Null);
      NoNode(Leaf(space));
      ts' := ts'[r := Leaf(space)];
      r := r + 1;
    }
  }

  /**
   Enter a space for a range. Each new node takes one from the budget; without any left the addition
   is broken off with what has been done so far. It is finished exactly if the budget covers the nodes that
   are missing, and what is left is the budget less the nodes made.
   */
  method AddTreeRange(tt: Tree, space: SpaceId, startS: nat, endS: nat, budget: nat, ghost n: nat, ghost a: int, ghost e: int)
    returns (t: Tree, left: nat, ok: bool)
    requires AddTask(tt, n, a, e, startS, endS)
    ensures WellFormed(t, n) && PartlyAdded(tt, t, n, space, a, e)
    ensures ok ==> t == Added(tt, n, space, a, e)
    ensures left == budget - (Nodes(t) - Nodes(tt)) && (!ok ==> left == 0 && Nodes(t) < Nodes(Added(tt, n, space, a, e)))
    ensures ok <==> budget >= Nodes(Added(tt, n, space, a, e)) - Nodes(tt)
    decreases n, 1
  {
    hide Pow256, Base, CoverOf, EntryCover, AddedBelow, Free, NoEmptyBelow, Nodes, Added;
    t, left := tt, budget;
    if t == Null {
      NoNode(tt);
      if left == 0 {
        SomeNodes(Added(tt, n, space, a, e));
        return tt, 0, false;
      }
      left := left - 1;
      t := Node(NewEntries());
    }
    EntriesNodes(tt);
    StartParts(n, a, e, startS, endS);
    EndParts(n, a, e, startS, endS);
    AllCovers(n, a, e);
    AddedPartly(tt, n, space, a, e);
    hide WellFormed, PartlyAdded;
    var ts := t.tree;
    var r := startS / Pow256(WORD - 1);
    var s := EndEntry(endS);
    AddedNone(tt, n, space, a, e, ts, r);
    if r == s {
      ts, left, ok := AddPart(tt, ts, r, space, startS * 256 % Addresses(), endS * 256 % Addresses(), left, n, a, e, startS, endS);
      if ok { AddedAll(tt, n, space, a, e, ts, r + 1); }
      return Node(ts), left, ok;
    }
    if r * Pow256(WORD - 1) != startS {
      ts, left, ok := AddPart(tt, ts, r, space, startS * 256 % Addresses(), 0, left, n, a, e, startS, endS);
      if !ok {
        return Node(ts), left, false;
      }
      r := r + 1;
    }
    ts := AddWhole(tt, ts, r, s, space, n, a, e);
    ok := true;
    if s * Pow256(WORD - 1) % Addresses() != endS {
      ts, left, ok := AddPart(tt, ts, s, space, 0, endS * 256 % Addresses(), left, n, a, e, startS, endS);
      if ok { AddedAll(tt, n, space, a, e, ts, s + 1); }
    } else {
      AddedAll(tt, n, space, a, e, ts, s);
    }
    t := Node(ts);
  }

  /** All the entries of a node, as a range covers them. */
  lemma AllCovers(n: nat, a: int, e: int)
    requires n > 0 && 0 <= a < e <= Pow256(n)
    ensures Pow256(n - 1) > 0
    ensures var p := Pow256(n - 1); var r, s := a / p, e / p;
      && 0 <= r <= s <= 256
      && (forall i :: 0 <= i < 256 && (i < r || i > s) ==> EntryCover(n, a, e, i).Misses?)
      && (forall i :: 0 <= i < 256 && r < i < s ==> EntryCover(n, a, e, i).Fills?)
      && (r < s < 256 ==> if e % p == 0 then EntryCover(n, a, e, s).Misses? else EntryCover(n, a, e, s) == Part(0, e % p))
      && (r < s ==> if a % p == 0 then EntryCover(n, a, e, r).Fills? else EntryCover(n, a, e, r) == Part(a % p, p))
      && (r == s ==> r < 256 && EntryCover(n, a, e, r) == Part(a % p, e % p))
  {
    CoverEnds(n, a, e);
    hide Pow256, EntryCover;
    forall i | 0 <= i < 256
      ensures var p := Pow256(n - 1); var r, s, c := a / p, e / p, EntryCover(n, a, e, i);
        && (i < r || i > s ==> c.Misses?) && (r < i < s ==> c.Fills?)
    {
      CoverAt(n, a, e, i);
    }
    CoverAt(n, a, e, a / Pow256(n - 1));
    if e / Pow256(n - 1) < 256 { CoverAt(n, a, e, e / Pow256(n - 1)); }
  }

  lemma CoverEnds(n: nat, a: int, e: int)
    requires n > 0 && 0 <= a < e <= Pow256(n)
    ensures Pow256(n - 1) > 0 && 0 <= a / Pow256(n - 1) < 256 && 0 <= e / Pow256(n - 1)
  {
    Pow256Positive(n - 1);
    Pow256Succ(n - 1);
    hide Pow256;
    DivMod(a, Pow256(n - 1));
    DivNonNegative(a, Pow256(n - 1));
    DivNonNegative(e, Pow256(n - 1));
    MulCancelStrict(a / Pow256(n - 1), 256, Pow256(n - 1));
  }

  // ---------- Removal ----------

  ghost predicate RemovedBelow(tt: Tree, n: nat, a: int, e: int, ts: seq<Tree>, r: int)
    requires WellFormed(tt, n) && tt.Node?
  {
    && |ts| == 256 && (forall i :: 0 <= i < 256 && i < r ==> ts[i] == RemovedEntry(tt.tree[i], n - 1, EntryCover(n, a, e, i)))
    && (forall i :: 0 <= i < 256 && r <= i ==> ts[i] == tt.tree[i])
  }

  lemma RemovedAll(tt: Tree, n: nat, a: int, e: int, ts: seq<Tree>, r: int)
    requires WellFormed(tt, n) && tt.Node? && RemovedBelow(tt, n, a, e, ts, r)
    requires forall i :: 0 <= i < 256 && r <= i ==> EntryCover(n, a, e, i).Misses?
    ensures Pruned(ts) == Removed(tt, n, a, e)
  {
    hide EntryCover;
    assert ts == seq(256, i requires 0 <= i < 256 => RemovedEntry(tt.tree[i], n - 1, EntryCover(n, a, e, i)));
  }

  lemma RemovedOne(tt: Tree, n: nat, a: int, e: int, ts: seq<Tree>, r: int, entry: Tree)
    requires WellFormed(tt, n) && tt.Node? && RemovedBelow(tt, n, a, e, ts, r) && 0 <= r < 256
    requires entry == RemovedEntry(tt.tree[r], n - 1, EntryCover(n, a, e, r))
    ensures RemovedBelow(tt, n, a, e, ts[r := entry], r + 1)
  {
    hide RemovedEntry, EntryCover;
  }

  lemma RemovedNone(tt: Tree, n: nat, a: int, e: int, r: int)
    requires WellFormed(tt, n) && tt.Node? && r >= 0
    requires forall i :: 0 <= i < 256 && i < r ==> EntryCover(n, a, e, i).Misses?
    ensures RemovedBelow(tt, n, a, e, tt.tree, r)
  {
    hide EntryCover;
  }

  lemma UntouchedAt(tt: Tree, n: nat, a: int, e: int, ts: seq<Tree>, r: nat)
    requires WellFormed(tt, n) && tt.Node? && RemovedBelow(tt, n, a, e, ts, r) && r < 256
    ensures |ts| == 256 && |tt.tree| == 256 && ts[r] == tt.tree[r] && WellFormed(tt.tree[r], n - 1)
  {
    hide EntryCover;
  }

  /** What a call that removes a range is given. */
  ghost predicate RemoveTask(tt: Tree, n: nat, space: SpaceId, a: int, e: int, start: nat, end: nat) {
    Holds(n, a, e, start, end) && WellFormed(tt, n) && Removable(tt, n, space, a, e)
  }

  lemma SubRemoval(tt: Tree, n: nat, space: SpaceId, a: int, e: int, start: nat, end: nat, r: int, start': nat, end': nat)
    requires RemoveTask(tt, n, space, a, e, start, end) && tt.Node? && 0 <= r < 256 && EntryCover(n, a, e, r).Part?
    requires start' == EntryCover(n, a, e, r).lo * Pow256(WORD - (n - 1))
    requires var hi := EntryCover(n, a, e, r).hi; end' == if hi == Pow256(n - 1) then 0 else hi * Pow256(WORD - (n - 1))
    ensures n > 1 && RemoveTask(tt.tree[r], n - 1, space, EntryCover(n, a, e, r).lo, EntryCover(n, a, e, r).hi, start', end')
  {
    hide Pow256, Base, CoverOf;
    PartIsDeep(n, a, e, r);
    CoverBound(n, a, e, r);
    assert RemovableEntry(tt.tree[r], n - 1, space, EntryCover(n, a, e, r));
  }

  method RemovePart(tt: Tree, ts: seq<Tree>, r: nat, space: SpaceId, start: nat, end: nat,
                    ghost n: nat, ghost a: int, ghost e: int, ghost startS: nat, ghost endS: nat)
    returns (ts': seq<Tree>)
    requires RemoveTask(tt, n, space, a, e, startS, endS) && tt.Node? && r < 256 && RemovedBelow(tt, n, a, e, ts, r)
    requires EntryCover(n, a, e, r).Part? && start == EntryCover(n, a, e, r).lo * Pow256(WORD - (n - 1))
    requires var hi := EntryCover(n, a, e, r).hi; end == if hi == Pow256(n - 1) then 0 else hi * Pow256(WORD - (n - 1))
    ensures RemovedBelow(tt, n, a, e, ts', r + 1)
    decreases n, 0
  {
    hide Pow256, Base, CoverOf, EntryCover, RemovedBelow;
    SubRemoval(tt, n, space, a, e, startS, endS, r, start, end);
    ghost var c := EntryCover(n, a, e, r);
    UntouchedAt(tt, n, a, e, ts, r);
    var entry := RemoveTreeRange(ts[r], space, start, end, n - 1, c.lo, c.hi);
    RemovedOne(tt, n, a, e, ts, r, entry);
    ts' := ts[r := entry];
  }

  /** Clear the whole entries from r up to s; each holds the space or, in recovery, nothing. */
  method RemoveWhole(tt: Tree, ts: seq<Tree>, first: nat, s: nat, space: SpaceId, ghost n: nat, ghost a: int, ghost e: int)
    returns (ts': seq<Tree>)
    requires WellFormed(tt, n) && tt.Node? && Removable(tt, n, space, a, e) && first <= s <= 256
    requires RemovedBelow(tt, n, a, e, ts, first) && forall i :: first <= i < s ==> EntryCover(n, a, e, i).Fills?
    ensures RemovedBelow(tt, n, a, e, ts', s)
  {
    hide Pow256, Base, CoverOf, EntryCover, RemovedBelow;
    ts' := ts;
    var r := first;
    while r < s
      invariant first <= r <= s && RemovedBelow(tt, n, a, e, ts', r)
    {
      UntouchedAt(tt, n, a, e, ts', r);
      assert RemovableEntry(tt.tree[r], n - 1, space, EntryCover(n, a, e, r));
      assert ts'[r] == Leaf(space) || ts'[r] == Null;
      RemovedOne(tt, n, a, e, ts', r, Null);
      ts' := ts'[r := Null];
      r := r + 1;
    }
  }

  /** The node, unless the whole vector is now empty. */
  method GiveBackIfEmpty(ts: seq<Tree>) returns (t: Tree)
    ensures t == Pruned(ts)
  {
    var j := 0;
    while j < |ts|
      invariant 0 <= j <= |ts| && forall i :: 0 <= i < j ==> ts[i].Null?
    {
      if ts[j] != Null {
        return Node(ts);
      }
      j := j + 1;
    }
    return Null;
  }

  /** Remove a range, or what an addition that was broken off has left of it, and every node that is then empty. */
  method RemoveTreeRange(tt: Tree, space: SpaceId, startS: nat, endS: nat, ghost n: nat, ghost a: int, ghost e: int)
    returns (t: Tree)
    requires RemoveTask(tt, n, space, a, e, startS, endS)
    ensures t == Removed(tt, n, a, e)
    decreases n, 1
  {
    hide Pow256, Base, CoverOf, EntryCover, RemovedBelow;
    if tt == Null {
      return Null;
    }
    StartParts(n, a, e, startS, endS);
    EndParts(n, a, e, startS, endS);
    AllCovers(n, a, e);
    hide WellFormed, Removable, Removed;
    var ts := tt.tree;
    var r := startS / Pow256(WORD - 1);
    var s := EndEntry(endS);
    RemovedNone(tt, n, a, e, r);
    if r == s {
      ts := RemovePart(tt, ts, r, space, startS * 256 % Addresses(), endS * 256 % Addresses(), n, a, e, startS, endS);
      RemovedAll(tt, n, a, e, ts, r + 1);
    } else {
      if r * Pow256(WORD - 1) != startS {
        ts := RemovePart(tt, ts, r, space, startS * 256 % Addresses(), 0, n, a, e, startS, endS);
        r := r + 1;
      }
      ts := RemoveWhole(tt, ts, r, s, space, n, a, e);
      if s * Pow256(WORD - 1) % Addresses() != endS {
        ts := RemovePart(tt, ts, s, space, 0, endS * 256 % Addresses(), n, a, e, startS, endS);
        RemovedAll(tt, n, a, e, ts, s + 1);
      } else {
        RemovedAll(tt, n, a, e, ts, s);
      }
    }
    t := GiveBackIfEmpty(ts);
  }

  // ---------- Look-up ----------

  /** One more byte of an address. */
  lemma NextByte(x: int, p: int, w: int)
    requires p > 0 && 0 <= x && w == 256 * p
    ensures 0 <= x / p % 256 < 256 && x / p % 256 == x % w / p && x % w % p == x % p
  {
    DivMod(x, w);
    DivMod(x % w, p);
    DivMod(x, p);
    var k, r := x / w, x % w;
    MulAssoc(k, 256, p);
    MulDistribute(256 * k, r / p, p);
    assert k * w == 256 * k * p by { MulAssoc(256, k, p); assert k * 256 == 256 * k; }
    DivisionUnique(x, p, 256 * k + r / p, r % p);
    DivNonNegative(r, p);
    MulCancelStrict(r / p, 256, p);
    TopRemainder(k, r / p);
  }

  lemma TopRemainder(k: int, q: int)
    requires 0 <= q < 256
    ensures (256 * k + q) % 256 == q
  {
  }

  /** Follow an address through the tree, a byte at a time from the top. */
  method SpaceForAddress(spaceTree: Tree, t: nat) returns (r: Option<SpaceId>)
    requires WellFormed(spaceTree, WORD) && t < Addresses()
    ensures r == Lookup(spaceTree, WORD, t)
  {
    hide Pow256;
    var tr, j := spaceTree, WORD as nat;
    Pow256Positive(WORD);
    DivisionUnique(t, Pow256(WORD), 0, t);
    while tr.Node?
      invariant 0 <= j <= WORD && WellFormed(tr, j) && Pow256(j) > 0 && t % Pow256(j) < Pow256(j)
      invariant Lookup(tr, j, t % Pow256(j)) == Lookup(spaceTree, WORD, t)
      decreases j
    {
      Pow256Positive(j - 1);
      Pow256Succ(j - 1);
      NextByte(t, Pow256(j - 1), Pow256(j));
      DivMod(t, Pow256(j - 1));
      j := j - 1;
      tr := tr.tree[t / Pow256(j) % 256];
    }
    r := if tr.Leaf? then Some(tr.space) else None;
  }
}
