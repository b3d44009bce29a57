/** How many nodes a tree of spaces has, and how that changes with its entries. */
module SpaceNodes {
  import opened SpaceTrees

  function Nodes(t: Tree): nat {
    if t.Node? then 1 + NodesIn(t.tree, |t.tree|) else 0
  }

  /** The nodes of the first k entries. */
  function NodesIn(ts: seq<Tree>, k: nat): nat
    requires k <= |ts|
  {
    if k == 0 then 0 else NodesIn(ts, k - 1) + Nodes(ts[k - 1])
  }

  lemma {:induction false} NoNodes(ts: seq<Tree>, k: nat)
    requires k <= |ts| && forall i :: 0 <= i < k ==> !ts[i].Node?
    ensures NodesIn(ts, k) == 0
  {
    if k > 0 { NoNodes(ts, k - 1); }
  }

  /** Setting one entry. */
  lemma {:induction false} NodesUpdate(ts: seq<Tree>, k: nat, r: nat, t: Tree)
    requires k <= |ts| && r < |ts|
    ensures NodesIn(ts[r := t], k) + (if r < k then Nodes(ts[r]) else 0) == NodesIn(ts, k) + if r < k then Nodes(t) else 0
  {
    hide Nodes;
    if k > 0 { NodesUpdate(ts, k - 1, r, t); }
  }

  /** Entries with no fewer nodes than others have no fewer in all, and more if one of them has more. */
  lemma {:induction false} NodesOrder(ts: seq<Tree>, ts': seq<Tree>, k: nat)
    requires k <= |ts| == |ts'| && forall i :: 0 <= i < k ==> Nodes(ts[i]) <= Nodes(ts'[i])
    ensures NodesIn(ts, k) <= NodesIn(ts', k)
    ensures (exists i :: 0 <= i < k && Nodes(ts[i]) < Nodes(ts'[i])) ==> NodesIn(ts, k) < NodesIn(ts', k)
  {
    hide Nodes;
    if k > 0 { NodesOrder(ts, ts', k - 1); }
  }

  /** If only the entries r and s differ in their nodes they make the whole difference. */
  lemma NodesOfTwo(ts: seq<Tree>, ts': seq<Tree>, r: nat, s: nat)
    requires r <= s && r < |ts| == |ts'|
    requires forall i :: 0 <= i < |ts| && i != r && i != s ==> Nodes(ts[i]) == Nodes(ts'[i])
    ensures NodesIn(ts', |ts|) == NodesIn(ts, |ts|) + Nodes(ts'[r]) - Nodes(ts[r])
      + if r < s < |ts| then Nodes(ts'[s]) - Nodes(ts[s]) else 0
  {
    hide Nodes, NodesIn;
    var one := ts[r := ts'[r]];
    var two := if s < |ts| then one[s := ts'[s]] else one;
    NodesUpdate(ts, |ts|, r, ts'[r]);
    if s < |ts| { NodesUpdate(one, |ts|, s, ts'[s]); }
    NodesOrder(two, ts', |ts|);
    NodesOrder(ts', two, |ts|);
  }
}
