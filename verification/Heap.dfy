/** The heap as the full collection sees it: words, headers, spaces and the objects in them. */
module Heap {

  /** A word of memory. A header is a length word or, once a cell has moved, a tombstone. */
  datatype Word =
    | Length(length: nat, isMutable: bool, isByte: bool, isNoOverwrite: bool)
    | Tombstone(dest: nat)
    | Tagged(n: int)
    | Pointer(addr: nat)
    | Data(bits: int)

  const Zero: Word := Data(0)

  /** An area of the heap, by word address; an object's address is that of the word after its header. */
  datatype Space = Space(bottom: nat, top: nat, isMutable: bool, isAllocation: bool)

  datatype Option<T> = None | Some(value: T)

  /** Spaces are separate areas within memory, and address zero is in none of them. */
  predicate SpacesOk(spaces: seq<Space>, words: nat) {
    && (forall k :: 0 <= k < |spaces| ==> 0 < spaces[k].bottom <= spaces[k].top <= words)
    && (forall j, k :: 0 <= j < k < |spaces| ==> spaces[j].top <= spaces[k].bottom || spaces[k].top <= spaces[j].bottom)
  }

  /** What is known of an object: its size, the space it is in and where its contents are now. */
  datatype Obj = Obj(size: nat, space: nat, final: nat)

  /** All the objects there are, by address: those marked and every copy made of them. */
  type Shape = map<nat, Obj>

  /** The words of the object at a, header included, overlap those from p to p + n - 1. */
  predicate Overlaps(a: nat, size: nat, p: int, n: nat) {
    a - 1 < p + n && p < a + size
  }

  predicate InSpace(spaces: seq<Space>, a: nat, obj: Obj) {
    && a > 0 && obj.space < |spaces|
    && spaces[obj.space].bottom <= a - 1 && a + obj.size <= spaces[obj.space].top
  }

  /** Objects lie within their spaces and apart from each other. */
  ghost predicate ShapeOk(spaces: seq<Space>, g: Shape) {
    && (forall a :: a in g ==> InSpace(spaces, a, g[a]))
    && (forall a, b :: a in g && b in g && a != b ==> !Overlaps(a, g[a].size, b - 1, g[b].size + 1))
  }

  /** Exactly the words of objects are allocated. */
  ghost predicate BitsOk(bits: set<nat>, g: Shape) {
    && (forall a, w: nat :: a in g && a - 1 <= w < a + g[a].size ==> w in bits)
    && (forall w :: w in bits ==> exists a :: a in g && a - 1 <= w < a + g[a].size)
  }

  /** The order in which cells move: to an earlier space or up within the same space. */
  predicate Above(d: nat, ds: nat, a: nat, as_: nat) {
    ds < as_ || (ds == as_ && d > a)
  }

  /** A tombstone leads on towards the object's final place. */
  predicate LeadsOn(g: Shape, a: nat, d: nat)
    requires a in g
  {
    d in g && g[d].final == g[a].final && g[a].final != a && Above(d, g[d].space, a, g[a].space)
  }

  /** A header is the length word of an object in its final place, or a tombstone. */
  predicate HeaderOk(g: Shape, a: nat, header: Word)
    requires a in g
  {
    match header
    case Length(n, _, _, _) => n == g[a].size && g[a].final == a
    case Tombstone(d) => LeadsOn(g, a, d)
    case _ => false
  }

  /** An object's final place is an object of the same size that stays where it is. */
  predicate FinalOk(g: Shape, a: nat)
    requires a in g
  {
    g[a].final in g && g[g[a].final].size == g[a].size && g[g[a].final].final == g[a].final
  }

  ghost predicate HeadersOk(mem: seq<Word>, g: Shape) {
    && (forall a :: a in g ==> 0 < a <= |mem| && HeaderOk(g, a, mem[a - 1]))
    && (forall a :: a in g ==> FinalOk(g, a))
  }

  /** A word in none of the spaces. */
  predicate Outside(spaces: seq<Space>, w: int) {
    forall k :: 0 <= k < |spaces| ==> !(spaces[k].bottom <= w < spaces[k].top)
  }

  /** Memory outside the spaces is as it was. */
  ghost predicate OutsideKept(spaces: seq<Space>, mem0: seq<Word>, mem: seq<Word>) {
    |mem| == |mem0| && forall w :: 0 <= w < |mem| && Outside(spaces, w) ==> mem[w] == mem0[w]
  }

  /** The object at f holds what the object at o held in the original memory. */
  ghost predicate SameObject(mem0: seq<Word>, o: nat, mem: seq<Word>, f: nat, size: nat) {
    && 0 < o && o + size <= |mem0| && 0 < f && f + size <= |mem|
    && mem[f - 1] == mem0[o - 1]
    && forall w :: f <= w < f + size ==> mem[w] == mem0[o + (w - f)]
  }

  /** Each marked object is intact at its final place, and no two share a place. */
  ghost predicate ContentsOk(mem0: seq<Word>, marked: set<nat>, mem: seq<Word>, g: Shape) {
    && (forall o :: o in marked ==> o in g && SameObject(mem0, o, mem, g[o].final, g[o].size))
    && (forall o, o' :: o in marked && o' in marked && o != o' ==> g[o].final != g[o'].final)
  }

  /** Mutable objects are only ever in mutable spaces. */
  ghost predicate MutablesOk(spaces: seq<Space>, mem: seq<Word>, g: Shape)
    requires ShapeOk(spaces, g) && HeadersOk(mem, g)
  {
    forall a :: a in g && mem[a - 1].Length? && mem[a - 1].isMutable ==> spaces[g[a].space].isMutable
  }

  /** Following tombstones from a; the order of the moves makes this terminate. */
  function Resolve(mem: seq<Word>, g: Shape, a: nat): (f: nat)
    requires HeadersOk(mem, g) && a in g
    ensures f == g[a].final && 0 < f <= |mem| && mem[f - 1].Length?
    decreases g[a].space, |mem| - a
  {
    var header := mem[a - 1];
    assert HeaderOk(g, a, header);
    if header.Tombstone? then Resolve(mem, g, header.dest) else a
  }
}
