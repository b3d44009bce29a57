/** Counting the words of a set of objects. */
module Counting {
  import opened Heap

  /** The words taken by the objects of s, headers included. */
  ghost function Total(g: Shape, s: set<nat>): nat
    requires s <= g.Keys
  {
    if s == {} then 0 else
      var a :| a in s;
      g[a].size + 1 + Total(g, s - {a})
  }

  /** The order in which objects are counted does not matter. */
  lemma {:induction false} TotalWithout(g: Shape, s: set<nat>, a: nat)
    requires s <= g.Keys && a in s
    ensures Total(g, s) == g[a].size + 1 + Total(g, s - {a})
    decreases |s|
  {
    var b :| b in s && Total(g, s) == g[b].size + 1 + Total(g, s - {b});
    if b != a {
      TotalWithout(g, s - {b}, a);
      TotalWithout(g, s - {a}, b);
      assert s - {a} - {b} == s - {b} - {a};
    }
  }

  lemma {:induction false} TotalUnion(g: Shape, s: set<nat>, t: set<nat>)
    requires s <= g.Keys && t <= g.Keys && s !! t
    ensures Total(g, s + t) == Total(g, s) + Total(g, t)
    decreases |s|
  {
    if s == {} {
      assert s + t == t;
    } else {
      var a :| a in s;
      TotalWithout(g, s, a);
      TotalWithout(g, s + t, a);
      TotalUnion(g, s - {a}, t);
      assert s + t - {a} == (s - {a}) + t;
    }
  }

  /** Objects that stay apart take as many words at their final places as they did before. */
  lemma {:induction false} TotalMoved(g: Shape, s: set<nat>, finals: set<nat>)
    requires s <= g.Keys && finals <= g.Keys
    requires forall o :: o in s ==> g[o].final in finals && g[g[o].final].size == g[o].size
    requires forall f :: f in finals ==> exists o :: o in s && g[o].final == f
    requires forall o, o' :: o in s && o' in s && o != o' ==> g[o].final != g[o'].final
    ensures Total(g, s) == Total(g, finals)
    decreases |s|
  {
    if s == {} {
      assert finals == {};
    } else {
      var a :| a in s;
      TotalWithout(g, s, a);
      TotalWithout(g, finals, g[a].final);
      TotalMoved(g, s - {a}, finals - {g[a].final});
    }
  }
}
