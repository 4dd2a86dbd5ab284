/**
  The red-black tree of project/common/src/rbtree.cpp, part 1: nodes, the shapes
  that nodes are linked into, and the value-level theory of those shapes.

  A `Shape` is the tree below a pointer, a `Path` is everything around it (the
  chain of ancestors, each with its other subtree).  `Rep` and `Holds` say that
  the pointers in the heap spell out a given shape or path, parent links included.
*/
module RedBlackShape {

  datatype Color = Red | Black

  // Keys and values are untyped pointers in the source.
  type Key(!new)
  type Value(!new)

  class Node {
    var color: Color
    var key: Key
    var value: Value
    var left: Node?
    var right: Node?
    var parent: Node?

    // new_node with its default arguments: red, no children, no parent.
    constructor (k: Key, v: Value)
      ensures key == k && value == v && color == Red
      ensures left == null && right == null && parent == null
    {
      key, value, color := k, v, Red;
      left, right, parent := null, null, null;
    }
  }

  datatype Shape =
    | Nil
    | Bin(l: Shape, n: Node, c: Color, k: Key, v: Value, r: Shape)

  datatype Path =
    | Top
    | InLeft(up: Path, n: Node, c: Color, k: Key, v: Value, other: Shape)
    | InRight(up: Path, n: Node, c: Color, k: Key, v: Value, other: Shape)

  ghost function Nodes(s: Shape): set<Node> {
    match s
    case Nil => {}
    case Bin(l, n, _, _, _, r) => Nodes(l) + {n} + Nodes(r)
  }

  ghost function PathNodes(p: Path): set<Node> {
    if p.Top? then {} else PathNodes(p.up) + {p.n} + Nodes(p.other)
  }

  function Above(p: Path): Node? {
    if p.Top? then null else p.n
  }

  /** The pointer `x`, whose parent link is `up`, leads to exactly the shape `s`. */
  ghost predicate Rep(s: Shape, x: Node?, up: Node?)
    reads Nodes(s)
  {
    match s
    case Nil => x == null
    case Bin(l, n, c, k, v, r) =>
      && x == n && n.parent == up
      && n.color == c && n.key == k && n.value == v
      && n !in Nodes(l) && n !in Nodes(r) && Nodes(l) !! Nodes(r)
      && Rep(l, n.left, n) && Rep(r, n.right, n)
  }

  /** Following the ancestors of `hole` up to `root` finds exactly the path `p`. */
  ghost predicate Holds(p: Path, root: Node?, hole: Node?)
    reads PathNodes(p)
  {
    if p.Top? then
      root == hole
    else
      && p.n.parent == Above(p.up)
      && p.n.color == p.c && p.n.key == p.k && p.n.value == p.v
      && p.n !in PathNodes(p.up) && p.n !in Nodes(p.other) && Nodes(p.other) !! PathNodes(p.up)
      && Holds(p.up, root, p.n)
      && (if p.InLeft? then p.n.left == hole && Rep(p.other, p.n.right, p.n)
          else p.n.right == hole && Rep(p.other, p.n.left, p.n))
  }

  // --- zipping a shape into its path ----------------------------------------

  function Plug(p: Path, s: Shape): Shape
    requires !p.Top?
  {
    if p.InLeft? then Bin(s, p.n, p.c, p.k, p.v, p.other)
    else Bin(p.other, p.n, p.c, p.k, p.v, s)
  }

  function Zip(p: Path, s: Shape): Shape
    decreases p
  {
    if p.Top? then s else Zip(p.up, Plug(p, s))
  }

  /** The pointer `n` sits in the tree with path `p` above it and shape `s` below it. */
  ghost predicate Focus(root: Node?, p: Path, s: Shape, n: Node?)
    reads PathNodes(p), Nodes(s)
  {
    Holds(p, root, n) && Rep(s, n, Above(p)) && PathNodes(p) !! Nodes(s)
  }

  /** Looking at the parent, at a child and at the sibling leaves the heap alone. */
  lemma FocusUp(root: Node?, p: Path, s: Shape, n: Node?)
    requires !p.Top? && Focus(root, p, s, n)
    ensures Focus(root, p.up, Plug(p, s), p.n)
    ensures PathNodes(p.up) + Nodes(Plug(p, s)) == PathNodes(p) + Nodes(s)
  {
  }

  lemma FocusDown(root: Node?, p: Path, s: Shape)
    requires !p.Top? && Focus(root, p.up, Plug(p, s), p.n)
    ensures Focus(root, p, s, if p.InLeft? then p.n.left else p.n.right)
    ensures PathNodes(p.up) + Nodes(Plug(p, s)) == PathNodes(p) + Nodes(s)
  {
  }

  function Swap(p: Path, s: Shape): Path
    requires !p.Top?
  {
    if p.InLeft? then InRight(p.up, p.n, p.c, p.k, p.v, s) else InLeft(p.up, p.n, p.c, p.k, p.v, s)
  }

  lemma FocusAcross(root: Node?, p: Path, s: Shape, n: Node?)
    requires !p.Top? && Focus(root, p, s, n)
    ensures Focus(root, Swap(p, s), p.other, if p.InLeft? then p.n.right else p.n.left)
    ensures PathNodes(Swap(p, s)) + Nodes(p.other) == PathNodes(p) + Nodes(s)
  {
  }

  lemma {:induction false} ZipRep(root: Node?, p: Path, s: Shape, n: Node?)
    requires Focus(root, p, s, n)
    ensures Rep(Zip(p, s), root, null)
    ensures Nodes(Zip(p, s)) == PathNodes(p) + Nodes(s)
    decreases p
  {
    if !p.Top? {
      FocusUp(root, p, s, n);
      ZipRep(root, p.up, Plug(p, s), p.n);
    }
  }

  /** Every node of a shape exists in the current heap. */
  lemma Allocated(s: Shape)
    ensures forall o :: o in Nodes(s) ==> allocated(o)
  {
    if s.Bin? {
      Allocated(s.l);
      Allocated(s.r);
    }
  }

  lemma AllocatedPath(p: Path)
    ensures forall o :: o in PathNodes(p) ==> allocated(o)
  {
    if !p.Top? {
      AllocatedPath(p.up);
      Allocated(p.other);
    }
  }

  // --- contents in key order -------------------------------------------------

  type Entries = seq<(Key, Value)>

  function InOrder(s: Shape): Entries {
    match s
    case Nil => []
    case Bin(l, _, _, k, v, r) => InOrder(l) + [(k, v)] + InOrder(r)
  }

  function Before(p: Path): Entries {
    match p
    case Top => []
    case InLeft(up, _, _, _, _, _) => Before(up)
    case InRight(up, _, _, k, v, other) => Before(up) + InOrder(other) + [(k, v)]
  }

  function After(p: Path): Entries {
    match p
    case Top => []
    case InLeft(up, _, _, k, v, other) => [(k, v)] + InOrder(other) + After(up)
    case InRight(up, _, _, _, _, _) => After(up)
  }

  function Contents(p: Path, s: Shape): Entries {
    Before(p) + InOrder(s) + After(p)
  }

  lemma PlugContents(p: Path, s: Shape)
    requires !p.Top?
    ensures Contents(p.up, Plug(p, s)) == Contents(p, s)
    ensures PathNodes(p.up) + Nodes(Plug(p, s)) == PathNodes(p) + Nodes(s)
  {
    if p.InLeft? {
      Regroup3(Before(p.up), InOrder(s), [(p.k, p.v)], InOrder(p.other), After(p.up));
    } else {
      Regroup3(Before(p.up), InOrder(p.other), [(p.k, p.v)], InOrder(s), After(p.up));
    }
  }

  lemma Regroup3(b: Entries, l: Entries, x: Entries, r: Entries, a: Entries)
    ensures b + (l + x + r) + a == b + l + (x + r + a) == (b + l + x) + r + a
  {
  }

  // The subtree after a rotation at its root.
  function RotatedLeft(s: Shape): Shape
    requires s.Bin? && s.r.Bin?
  {
    Bin(Bin(s.l, s.n, s.c, s.k, s.v, s.r.l), s.r.n, s.r.c, s.r.k, s.r.v, s.r.r)
  }

  function RotatedRight(s: Shape): Shape
    requires s.Bin? && s.l.Bin?
  {
    Bin(s.l.l, s.l.n, s.l.c, s.l.k, s.l.v, Bin(s.l.r, s.n, s.c, s.k, s.v, s.r))
  }

  /** Rotations move nodes but keep the set of nodes and the order of entries. */
  lemma RotatedContents(s: Shape)
    requires s.Bin?
    ensures s.r.Bin? ==> InOrder(RotatedLeft(s)) == InOrder(s) && Nodes(RotatedLeft(s)) == Nodes(s)
    ensures s.l.Bin? ==> InOrder(RotatedRight(s)) == InOrder(s) && Nodes(RotatedRight(s)) == Nodes(s)
  {
    if s.r.Bin? {
      Regroup(InOrder(s.l), [(s.k, s.v)], InOrder(s.r.l), [(s.r.k, s.r.v)], InOrder(s.r.r));
    }
    if s.l.Bin? {
      Regroup(InOrder(s.l.l), [(s.l.k, s.l.v)], InOrder(s.l.r), [(s.k, s.v)], InOrder(s.r));
    }
  }

  lemma Regroup(a: Entries, x: Entries, b: Entries, y: Entries, c: Entries)
    ensures (a + x + b) + y + c == a + x + (b + y + c)
  {
  }

  lemma {:induction false} ZipInOrder(p: Path, s: Shape)
    ensures InOrder(Zip(p, s)) == Contents(p, s)
    decreases p
  {
    if !p.Top? {
      ZipInOrder(p.up, Plug(p, s));
      PlugContents(p, s);
    }
  }

  // --- colours and black counts ------------------------------------------------

  function ColorOf(s: Shape): Color {
    if s.Nil? then Black else s.c
  }

  function Weight(c: Color): nat {
    if c.Black? then 1 else 0
  }

  /** Black nodes from here to the leftmost null, which counts as black. */
  function BlackHeight(s: Shape): (h: nat)
    ensures h >= Weight(ColorOf(s))
    ensures s.Nil? ==> h == 1
    ensures h >= 1
  {
    if s.Nil? then 1 else Weight(s.c) + BlackHeight(s.l)
  }

  /** Property 5: every way down to a null meets the same number of black nodes. */
  predicate Balanced(s: Shape) {
    s.Bin? ==> Balanced(s.l) && Balanced(s.r) && BlackHeight(s.l) == BlackHeight(s.r)
  }

  /** Property 4: no red node has a red child. */
  predicate NoRedRed(s: Shape) {
    s.Bin? ==>
      && NoRedRed(s.l) && NoRedRed(s.r)
      && (s.c.Red? ==> ColorOf(s.l).Black? && ColorOf(s.r).Black?)
  }

  /** Properties 2, 4 and 5 together. */
  predicate RedBlack(s: Shape) {
    ColorOf(s).Black? && NoRedRed(s) && Balanced(s)
  }

  function TopColor(p: Path): Color {
    if p.Top? then Black else p.c
  }

  /** Putting a balanced subtree of black height `h` in the hole gives a balanced tree. */
  predicate Fits(p: Path, h: nat) {
    !p.Top? ==> Balanced(p.other) && BlackHeight(p.other) == h && Fits(p.up, h + Weight(p.c))
  }

  /** No red node on the path or beside it has a red child; the hole is not looked at. */
  predicate CalmPath(p: Path) {
    !p.Top? ==>
      && NoRedRed(p.other) && CalmPath(p.up)
      && (p.c.Red? ==> ColorOf(p.other).Black? && TopColor(p.up).Black? && !p.up.Top?)
  }

  /** A path is part of a red-black tree whose hole has black height `h`. */
  predicate GoodPath(p: Path, h: nat) {
    Fits(p, h) && CalmPath(p)
  }

  lemma {:induction false} ZipRedBlack(p: Path, s: Shape)
    requires Balanced(s) && NoRedRed(s) && GoodPath(p, BlackHeight(s))
    requires ColorOf(s).Red? ==> !p.Top? && TopColor(p).Black?
    ensures RedBlack(Zip(p, s))
    decreases p
  {
    if !p.Top? {
      ZipRedBlack(p.up, Plug(p, s));
    }
  }

  lemma {:induction false} UnzipRedBlack(p: Path, s: Shape)
    requires RedBlack(Zip(p, s))
    ensures Balanced(s) && NoRedRed(s) && GoodPath(p, BlackHeight(s))
    ensures ColorOf(s).Red? ==> !p.Top? && TopColor(p).Black?
    decreases p
  {
    if !p.Top? {
      UnzipRedBlack(p.up, Plug(p, s));
    }
  }

  // --- search order ------------------------------------------------------------

  predicate Opposite(compare: (Key, Key) -> int, a: Key, b: Key) {
    compare(a, b) < 0 <==> compare(b, a) > 0
  }

  predicate Chained(compare: (Key, Key) -> int, a: Key, b: Key, c: Key) {
    compare(a, b) <= 0 && compare(b, c) <= 0 ==> compare(a, c) <= 0
  }

  /** What a caller's compare function has to be. */
  ghost predicate TotalPreorder(compare: (Key, Key) -> int) {
    (forall a, b :: Opposite(compare, a, b)) && (forall a, b, c :: Chained(compare, a, b, c))
  }

  ghost predicate Sorted(compare: (Key, Key) -> int, es: Entries) {
    forall i, j :: 0 <= i < j < |es| ==> compare(es[i].0, es[j].0) < 0
  }

  /** `key` sorts strictly between the entries before the hole and those after it. */
  ghost predicate Between(compare: (Key, Key) -> int, lo: Entries, key: Key, hi: Entries) {
    && (forall i :: 0 <= i < |lo| ==> compare(key, lo[i].0) > 0)
    && (forall i :: 0 <= i < |hi| ==> compare(key, hi[i].0) < 0)
  }

  /** Going left at an entry that sorts after `key` rules out everything from it on. */
  lemma StepLeft(compare: (Key, Key) -> int, lo: Entries, mid: Entries, e: (Key, Value), rest: Entries, hi: Entries,
                 key: Key)
    requires TotalPreorder(compare) && Between(compare, lo, key, hi)
    requires Sorted(compare, lo + (mid + [e] + rest) + hi)
    requires compare(key, e.0) < 0
    ensures Between(compare, lo, key, [e] + rest + hi)
  {
    var es := lo + (mid + [e] + rest) + hi;
    var at := |lo| + |mid|;
    assert es[at] == e;
    forall i | 0 <= i < |[e] + rest + hi| ensures compare(key, ([e] + rest + hi)[i].0) < 0 {
      assert es[at + i] == ([e] + rest + hi)[i];
      if i > 0 {
        assert compare(e.0, es[at + i].0) < 0;
        Transitive(compare, key, e.0, es[at + i].0);
      }
    }
  }

  lemma StepRight(compare: (Key, Key) -> int, lo: Entries, rest: Entries, e: (Key, Value), mid: Entries, hi: Entries,
                  key: Key)
    requires TotalPreorder(compare) && Between(compare, lo, key, hi)
    requires Sorted(compare, lo + (rest + [e] + mid) + hi)
    requires compare(key, e.0) > 0
    ensures Between(compare, lo + rest + [e], key, hi)
  {
    var es := lo + (rest + [e] + mid) + hi;
    var at := |lo| + |rest|;
    assert es[at] == e;
    forall i | 0 <= i < |lo + rest + [e]| ensures compare(key, (lo + rest + [e])[i].0) > 0 {
      assert es[i] == (lo + rest + [e])[i];
      if i < at {
        assert compare(es[i].0, e.0) < 0;
        assert Opposite(compare, e.0, key) && Opposite(compare, es[i].0, key);
        Transitive(compare, es[i].0, e.0, key);
      }
    }
  }

  lemma Transitive(compare: (Key, Key) -> int, a: Key, b: Key, c: Key)
    requires TotalPreorder(compare)
    requires compare(a, b) < 0 && compare(b, c) < 0
    ensures compare(a, c) < 0
  {
    assert Opposite(compare, a, b) && Opposite(compare, a, c) && Opposite(compare, b, c) && Opposite(compare, c, b);
    assert Chained(compare, c, a, b);
  }

  /** A key that sorts strictly between two halves fits there, and is equivalent to nothing else. */
  lemma InsertSorted(compare: (Key, Key) -> int, lo: Entries, e: (Key, Value), hi: Entries)
    requires TotalPreorder(compare) && Sorted(compare, lo + hi) && Between(compare, lo, e.0, hi)
    ensures Sorted(compare, lo + [e] + hi)
    ensures !Contains(compare, lo + hi, e.0)
  {
    var es := lo + [e] + hi;
    forall i, j | 0 <= i < j < |es| ensures compare(es[i].0, es[j].0) < 0 {
      if i < |lo| && j < |lo| {
        assert (lo + hi)[i] == es[i] && (lo + hi)[j] == es[j];
      } else if i < |lo| && j > |lo| {
        assert (lo + hi)[i] == es[i] && (lo + hi)[j - 1] == es[j];
      } else if i > |lo| {
        assert (lo + hi)[i - 1] == es[i] && (lo + hi)[j - 1] == es[j];
      } else if i < |lo| {
        assert es[i] == lo[i] && Opposite(compare, es[i].0, e.0);
      } else {
        assert es[j] == hi[j - |lo| - 1];
      }
    }
    forall i | 0 <= i < |lo + hi| ensures compare(e.0, (lo + hi)[i].0) != 0 {
      if i >= |lo| {
        assert (lo + hi)[i] == hi[i - |lo|];
      }
    }
  }

  ghost predicate Contains(compare: (Key, Key) -> int, es: Entries, key: Key) {
    exists i :: 0 <= i < |es| && compare(key, es[i].0) == 0
  }

  lemma RemoveSorted(compare: (Key, Key) -> int, lo: Entries, e: (Key, Value), hi: Entries)
    requires Sorted(compare, lo + [e] + hi)
    ensures Sorted(compare, lo + hi)
  {
    var es, fs := lo + [e] + hi, lo + hi;
    forall i, j | 0 <= i < j < |fs| ensures compare(fs[i].0, fs[j].0) < 0 {
      var i', j' := if i < |lo| then i else i + 1, if j < |lo| then j else j + 1;
      assert es[i'] == fs[i] && es[j'] == fs[j];
    }
  }
}
