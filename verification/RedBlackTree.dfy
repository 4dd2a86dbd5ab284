/**
  The red-black tree of project/common/src/rbtree.cpp, part 2: the pointer code.

  Methods carry the names of the source's functions.  Ghost parameters `p` and `s`
  name the path above and the shape below the node a method works on; they
  describe the heap and are not used by the code.
*/
module RedBlackTree {
  import opened RedBlackShape
  import opened RedBlackVerify

  class RBTree {
    var root: Node?
    ghost var shape: Shape

    /** Links are consistent, including parents: `root` is the only way in. */
    ghost predicate Linked()
      reads this, Nodes(shape)
    {
      Rep(shape, root, null)
    }

    ghost predicate Valid(compare: (Key, Key) -> int)
      reads this, Nodes(shape)
    {
      TotalPreorder(compare) && Linked() && RedBlack(shape) && Sorted(compare, InOrder(shape))
    }

    constructor ()
      ensures root == null && shape == Nil && Linked() && RedBlack(shape)
    {
      root, shape := null, Nil;
    }

    // --- restructuring -------------------------------------------------------

    method ReplaceNode(oldn: Node, newn: Node?, ghost p: Path, ghost s: Shape, ghost from: Node?)
      requires Holds(p, root, oldn) && oldn.parent == Above(p) && oldn !in PathNodes(p)
      requires Rep(s, newn, from) && PathNodes(p) !! Nodes(s)
      modifies this`root, PathNodes(p), newn
      ensures Holds(p, root, newn) && Rep(s, newn, Above(p))
    {
      if oldn.parent == null {
        root := newn;
      } else {
        if oldn == oldn.parent.left {
          oldn.parent.left := newn;
        } else {
          oldn.parent.right := newn;
        }
      }
      if newn != null {
        newn.parent := oldn.parent;
      }
    }

    method RotateLeft(n: Node, ghost p: Path, ghost s: Shape)
      requires s.Bin? && s.r.Bin? && Focus(root, p, s, n)
      modifies this`root, PathNodes(p), Nodes(s)
      ensures Focus(root, p, RotatedLeft(s), s.r.n)
    {
      Allocated(s);
      AllocatedPath(p);
      var r := n.right;
      assert Rep(s.r, r, n) && r in Nodes(s.r);
      ReplaceNode(n, r, p, s.r, n);
      SwingLeft(n, r, s);
    }

    // The last four statements of rotate_left.
    static method SwingLeft(n: Node, r: Node, ghost s: Shape)
      requires s.Bin? && s.r.Bin? && n == s.n && Rep(s.r, r, r.parent)
      requires n.color == s.c && n.key == s.k && n.value == s.v
      requires Rep(s.l, n.left, n) && n !in Nodes(s.l) + Nodes(s.r) && Nodes(s.l) !! Nodes(s.r)
      modifies n, Nodes(s.r)
      ensures Rep(RotatedLeft(s), r, old(r.parent))
    {
      n.right := r.left;
      if r.left != null {
        r.left.parent := n;
      }
      r.left := n;
      n.parent := r;
    }

    method RotateRight(n: Node, ghost p: Path, ghost s: Shape)
      requires s.Bin? && s.l.Bin? && Focus(root, p, s, n)
      modifies this`root, PathNodes(p), Nodes(s)
      ensures Focus(root, p, RotatedRight(s), s.l.n)
    {
      Allocated(s);
      AllocatedPath(p);
      var l := n.left;
      assert Rep(s.l, l, n) && l in Nodes(s.l);
      ReplaceNode(n, l, p, s.l, n);
      SwingRight(n, l, s);
    }

    // The last four statements of rotate_right.
    static method SwingRight(n: Node, l: Node, ghost s: Shape)
      requires s.Bin? && s.l.Bin? && n == s.n && Rep(s.l, l, l.parent)
      requires n.color == s.c && n.key == s.k && n.value == s.v
      requires Rep(s.r, n.right, n) && n !in Nodes(s.l) + Nodes(s.r) && Nodes(s.l) !! Nodes(s.r)
      modifies n, Nodes(s.l)
      ensures Rep(RotatedRight(s), l, old(l.parent))
    {
      n.left := l.right;
      if l.right != null {
        l.right.parent := n;
      }
      l.right := n;
      n.parent := l;
    }

    // --- insertion -----------------------------------------------------------

    /** The tree built from a path and a shape is in place, red-black, and has their entries. */
    ghost predicate Rebuilt(p: Path, s: Shape)
      reads this, Nodes(shape)
    {
      && Linked() && RedBlack(shape)
      && InOrder(shape) == Contents(p, s)
      && Nodes(shape) == PathNodes(p) + Nodes(s)
    }

    /**
      rbtree_insert.  `at` is the position of the key among the entries: an equivalent key
      keeps its entry's key and takes the new value, any other key becomes a new entry.
    */
    method Insert(x: Node, compare: (Key, Key) -> int) returns (ghost at: nat)
      requires Valid(compare) && x !in Nodes(shape)
      requires x.color == Red && x.left == null && x.right == null && x.parent == null
      modifies this, Nodes(shape), x
      ensures Valid(compare) && at <= |old(InOrder(shape))|
      ensures !Contains(compare, old(InOrder(shape)), old(x.key)) ==>
        && InOrder(shape) == old(InOrder(shape)[..at] + [(x.key, x.value)] + InOrder(shape)[at..])
        && Nodes(shape) == old(Nodes(shape)) + {x}
      ensures Contains(compare, old(InOrder(shape)), old(x.key)) ==>
        && at < |old(InOrder(shape))| && compare(old(x.key), old(InOrder(shape))[at].0) == 0
        && InOrder(shape) == old(InOrder(shape)[at := (InOrder(shape)[at].0, x.value)])
        && Nodes(shape) == old(Nodes(shape))
    {
      ghost var p, s := Top, Nil;
      if root == null {
        root := x;
      } else {
        var n, order;
        n, order, p, s := Descend(x.key, compare);
        if order == 0 {
          at := Overwrite(n, x.value, p, s, compare);
          return;
        } else if order < 0 {
          AttachLeft(n, x, p);
        } else {
          AttachRight(n, x, p);
        }
      }
      at := |Before(p)|;
      NilContents(p);
      Settle(x, p, compare);
    }

    // insert_case1 for the new leaf, with what it does to the entries.
    method Settle(x: Node, ghost p: Path, compare: (Key, Key) -> int)
      requires Focus(root, p, Bin(Nil, x, Red, x.key, x.value, Nil), x) && RedBlack(Zip(p, Nil))
      requires TotalPreorder(compare) && Sorted(compare, Before(p) + After(p))
      requires Between(compare, Before(p), x.key, After(p))
      modifies this, PathNodes(p), x
      ensures Valid(compare) && !Contains(compare, Before(p) + After(p), old(x.key))
      ensures InOrder(shape) == Before(p) + [old((x.key, x.value))] + After(p)
      ensures Nodes(shape) == PathNodes(p) + {x}
    {
      InsertSorted(compare, Before(p), (x.key, x.value), After(p));
      UnzipRedBlack(p, Nil);
      ghost var leaf := Bin(Nil, x, Red, x.key, x.value, Nil);
      assert InOrder(leaf) == [(x.key, x.value)];
      InsertCase1(x, p, leaf);
    }

    // The search loop of rbtree_insert: it ends on an equivalent key or above a free place.
    method Descend(key: Key, compare: (Key, Key) -> int)
      returns (n: Node, order: int, ghost p: Path, ghost s: Shape)
      requires Valid(compare) && root != null
      ensures Valid(compare) && n in Nodes(shape) && Zip(p, s) == shape && PathNodes(p) + Nodes(s) == Nodes(shape)
      ensures order == 0 ==> s.Bin? && Focus(root, p, s, n) && compare(key, s.k) == 0
      ensures order < 0 ==> p.InLeft? && p.n == n
      ensures order > 0 ==> p.InRight? && p.n == n
      ensures order != 0 ==> s == Nil && Focus(root, p, Nil, null) && Between(compare, Before(p), key, After(p))
    {
      n, p, s := root, Top, shape;
      while true
        invariant Focus(root, p, s, n) && Zip(p, s) == shape
        invariant Between(compare, Before(p), key, After(p))
        decreases s
      {
        ZipInOrder(p, s);
        ZipRep(root, p, s, n);
        order := compare(key, n.key);
        if order == 0 {
          return;
        } else if order < 0 {
          StepLeft(compare, Before(p), InOrder(s.l), (s.k, s.v), InOrder(s.r), After(p), key);
          p, s := InLeft(p, s.n, s.c, s.k, s.v, s.r), s.l;
          FocusDown(root, p, s);
          if n.left == null {
            return;
          }
          n := n.left;
        } else {
          StepRight(compare, Before(p), InOrder(s.l), (s.k, s.v), InOrder(s.r), After(p), key);
          p, s := InRight(p, s.n, s.c, s.k, s.v, s.l), s.r;
          FocusDown(root, p, s);
          if n.right == null {
            return;
          }
          n := n.right;
        }
      }
    }

    method AttachLeft(n: Node, x: Node, ghost p: Path)
      requires p.InLeft? && n == p.n && Focus(root, p, Nil, null) && x !in PathNodes(p)
      requires x.color == Red && x.left == null && x.right == null
      modifies n`left, x`parent
      ensures Focus(root, p, Bin(Nil, x, Red, x.key, x.value, Nil), x)
    {
      n.left := x;
      x.parent := n;
    }

    method AttachRight(n: Node, x: Node, ghost p: Path)
      requires p.InRight? && n == p.n && Focus(root, p, Nil, null) && x !in PathNodes(p)
      requires x.color == Red && x.left == null && x.right == null
      modifies n`right, x`parent
      ensures Focus(root, p, Bin(Nil, x, Red, x.key, x.value, Nil), x)
    {
      n.right := x;
      x.parent := n;
    }

    // An equivalent key was found: only the value changes.
    method Overwrite(n: Node, v: Value, ghost p: Path, ghost s: Shape, compare: (Key, Key) -> int)
      returns (ghost at: nat)
      requires Valid(compare) && Focus(root, p, s, n) && s.Bin? && Zip(p, s) == shape
      modifies n`value, this`shape
      ensures Valid(compare) && Nodes(shape) == old(Nodes(shape))
      ensures at < |old(InOrder(shape))| && old(InOrder(shape))[at] == (s.k, s.v)
      ensures InOrder(shape) == old(InOrder(shape)[at := (InOrder(shape)[at].0, v)])
    {
      at := |Before(p) + InOrder(s.l)|;
      ZipRep(root, p, s, n);
      Overwritten(compare, p, s, v);
      n.value := v;
      Record(p, s.(v := v), n);
    }

    // Records the tree that a path and a shape make up.
    ghost method Record(p: Path, s: Shape, n: Node?)
      requires Focus(root, p, s, n)
      modifies this`shape
      ensures shape == Zip(p, s) && Linked() && InOrder(shape) == Contents(p, s)
      ensures Nodes(shape) == PathNodes(p) + Nodes(s)
    {
      shape := Zip(p, s);
      ZipRep(root, p, s, n);
      ZipInOrder(p, s);
    }

    method InsertCase1(n: Node, ghost p: Path, ghost s: Shape)
      requires Focus(root, p, s, n) && RedSpot(p, s)
      modifies this, PathNodes(p), Nodes(s)
      ensures Rebuilt(p, s)
      decreases p, 3
    {
      if n.parent == null {
        n.color := Black;
        shape := s.(c := Black);
      } else {
        InsertCase2(n, p, s);
      }
    }

    method InsertCase2(n: Node, ghost p: Path, ghost s: Shape)
      requires Focus(root, p, s, n) && RedSpot(p, s) && !p.Top?
      modifies this, PathNodes(p), Nodes(s)
      ensures Rebuilt(p, s)
      decreases p, 2
    {
      if NodeColor(n.parent) == Black {
        ZipRedBlack(p, s);
        Record(p, s, n);
      } else {
        InsertCase3(n, p, s);
      }
    }

    method InsertCase3(n: Node, ghost p: Path, ghost s: Shape)
      requires Focus(root, p, s, n) && RedSpot(p, s) && !p.Top? && p.c.Red?
      modifies this, PathNodes(p), Nodes(s)
      ensures Rebuilt(p, s)
      decreases p, 1
    {
      FocusUp(root, p, s, n);
      SiblingIsOther(root, p.up, Plug(p, s), p.n);
      if NodeColor(Sibling(n.parent)) == Red {
        Recolor(n, p, s);
        RecoloredIsGood(p, s);
        RecoloredContents(p, s);
        InsertCase1(n.parent.parent, p.up.up, Recolored(p, s));
      } else {
        InsertCase4(n, p, s);
      }
    }

    method InsertCase4(n: Node, ghost p: Path, ghost s: Shape)
      requires Focus(root, p, s, n) && BlackUncle(p, s)
      modifies this, PathNodes(p), Nodes(s)
      ensures Rebuilt(p, s)
    {
      FocusUp(root, p, s, n);
      SideOf(root, p, s, n);
      SideOf(root, p.up, Plug(p, s), p.n);
      InnerIsGood(p, s);
      InnerContents(p, s);
      if n == n.parent.right && n.parent == n.parent.parent.left {
        RotateLeft(n.parent, p.up, Plug(p, s));
        FocusDown(root, OuterPath(p, s), OuterShape(p, s));
        InsertCase5(n.left, OuterPath(p, s), OuterShape(p, s));
      } else if n == n.parent.left && n.parent == n.parent.parent.right {
        RotateRight(n.parent, p.up, Plug(p, s));
        FocusDown(root, OuterPath(p, s), OuterShape(p, s));
        InsertCase5(n.right, OuterPath(p, s), OuterShape(p, s));
      } else {
        InsertCase5(n, p, s);
      }
    }

    method InsertCase5(n: Node, ghost p: Path, ghost s: Shape)
      requires Focus(root, p, s, n) && BlackUncle(p, s) && p.InLeft? == p.up.InLeft?
      modifies this, PathNodes(p), Nodes(s)
      ensures Rebuilt(p, s)
    {
      ghost var gs, rs := OuterPainted(p, s), OuterRotated(p, s);
      OuterIsGood(p, s);
      OuterContents(p, s);
      PaintOuter(n, p, s);
      if n == n.parent.left && n.parent == n.parent.parent.left {
        RotateRight(n.parent.parent, p.up.up, gs);
      } else {
        RotateLeft(n.parent.parent, p.up.up, gs);
      }
      Record(p.up.up, rs, p.n);
    }

    // The colour changes of insert_case5.
    method PaintOuter(n: Node, ghost p: Path, ghost s: Shape)
      requires Focus(root, p, s, n) && !p.Top? && !p.up.Top?
      modifies PathNodes(p)`color
      ensures Focus(root, p.up.up, OuterPainted(p, s), p.up.n)
      ensures n.parent == p.n && n.parent.parent == p.up.n
      ensures n == n.parent.left <==> p.InLeft?
      ensures n.parent == n.parent.parent.left <==> p.up.InLeft?
    {
      FocusUp(root, p, s, n);
      SideOf(root, p, s, n);
      SideOf(root, p.up, Plug(p, s), p.n);
      Paint(n.parent, Black, root, p.up, Plug(p, s));
      ghost var ps := Plug(p.(c := Black), s);
      FocusUp(root, p.up, ps, p.n);
      Paint(n.parent.parent, Red, root, p.up.up, Plug(p.up, ps));
    }

    // The colour changes of insert_case3.
    method Recolor(n: Node, ghost p: Path, ghost s: Shape)
      requires Focus(root, p, s, n) && s.Bin? && !p.Top? && !p.up.Top? && p.up.other.Bin?
      modifies PathNodes(p)`color
      ensures Focus(root, p.up.up, Recolored(p, s), p.up.n)
    {
      ghost var uncle := p.up.other;
      FocusUp(root, p, s, n);
      Paint(n.parent, Black, root, p.up, Plug(p, s));
      ghost var ps := Plug(p.(c := Black), s);
      FocusAcross(root, p.up, ps, p.n);
      Paint(Sibling(n.parent), Black, root, Swap(p.up, ps), uncle);
      FocusAcross(root, Swap(p.up, ps), uncle.(c := Black), uncle.n);
      ghost var up := p.up.(other := uncle.(c := Black));
      FocusUp(root, up, ps, p.n);
      Paint(n.parent.parent, Red, root, p.up.up, Plug(up, ps));
    }

    // One colour assignment.
    static method Paint(n: Node, c: Color, ghost root: Node?, ghost p: Path, ghost s: Shape)
      requires s.Bin? && Focus(root, p, s, n)
      modifies n`color
      ensures Focus(root, p, s.(c := c), n) && n.color == c
    {
      n.color := c;
    }
  }

  lemma RecoloredIsGood(p: Path, s: Shape)
    requires RedSpot(p, s) && !p.Top? && p.c.Red? && ColorOf(p.up.other).Red?
    ensures RedSpot(p.up.up, Recolored(p, s))
  {
    assert GoodPath(p.up, BlackHeight(s));
    var parent, uncle := Plug(p.(c := Black), s), p.up.other.(c := Black);
    assert Balanced(parent) && NoRedRed(parent) && Balanced(uncle) && NoRedRed(uncle);
  }

  lemma RecoloredContents(p: Path, s: Shape)
    requires !p.Top? && !p.up.Top? && p.up.other.Bin?
    ensures Contents(p.up.up, Recolored(p, s)) == Contents(p, s)
    ensures PathNodes(p.up.up) + Nodes(Recolored(p, s)) == PathNodes(p) + Nodes(s)
  {
    PlugContents(p, s);
    PlugContents(p.up, Plug(p, s));
    var up := p.up.(c := Red, other := p.up.other.(c := Black));
    PlugContents(up, Plug(p.(c := Black), s));
  }

  lemma NilContents(p: Path)
    ensures InOrder(Zip(p, Nil)) == Before(p) + After(p)
  {
    ZipInOrder(p, Nil);
    assert Before(p) + [] == Before(p);
  }

  lemma Overwritten(compare: (Key, Key) -> int, p: Path, s: Shape, v: Value)
    requires s.Bin? && RedBlack(Zip(p, s)) && Sorted(compare, InOrder(Zip(p, s)))
    ensures RedBlack(Zip(p, s.(v := v))) && Sorted(compare, Contents(p, s.(v := v)))
    ensures var at, es := |Before(p) + InOrder(s.l)|, InOrder(Zip(p, s));
      at < |es| && es[at] == (s.k, s.v) && Contents(p, s.(v := v)) == es[at := (s.k, v)]
  {
    UnzipRedBlack(p, s);
    ZipRedBlack(p, s.(v := v));
    ZipInOrder(p, s);
    NodeContents(p, s);
    NodeContents(p, s.(v := v));
    OverwriteSorted(compare, Before(p) + InOrder(s.l), s.k, s.v, v, InOrder(s.r) + After(p));
  }

  /** The entries, seen from a node: everything before it, its own, everything after it. */
  lemma NodeContents(p: Path, s: Shape)
    requires s.Bin?
    ensures Contents(p, s) == (Before(p) + InOrder(s.l)) + [(s.k, s.v)] + (InOrder(s.r) + After(p))
  {
  }

  lemma OverwriteSorted(compare: (Key, Key) -> int, lo: Entries, k: Key, v: Value, w: Value, hi: Entries)
    requires Sorted(compare, lo + [(k, v)] + hi)
    ensures Sorted(compare, lo + [(k, w)] + hi)
    ensures lo + [(k, w)] + hi == (lo + [(k, v)] + hi)[|lo| := (k, w)]
  {
    var es, fs := lo + [(k, v)] + hi, lo + [(k, w)] + hi;
    assert forall i :: 0 <= i < |es| ==> fs[i].0 == es[i].0;
  }

  /** A red node where a red parent is the only thing that may be wrong. */
  ghost predicate RedSpot(p: Path, s: Shape) {
    s.Bin? && s.c.Red? && Balanced(s) && NoRedRed(s) && GoodPath(p, BlackHeight(s))
  }

  function Sibling(n: Node): Node?
    requires n.parent != null
    reads n, n.parent
  {
    if n == n.parent.left then n.parent.right else n.parent.left
  }

  lemma SiblingIsOther(root: Node?, p: Path, s: Shape, n: Node)
    requires Focus(root, p, s, n) && !p.Top?
    ensures n.parent == p.n
    ensures Sibling(n) == if p.other.Nil? then null else p.other.n
    ensures NodeColor(Sibling(n)) == ColorOf(p.other)
  {
  }

  lemma SideOf(root: Node?, p: Path, s: Shape, n: Node)
    requires Focus(root, p, s, n) && !p.Top?
    ensures n.parent == p.n
    ensures n == p.n.left <==> p.InLeft?
    ensures n == p.n.right <==> p.InRight?
  {
  }

  /** A red node below a red parent, whose uncle is black. */
  ghost predicate BlackUncle(p: Path, s: Shape) {
    RedSpot(p, s) && !p.Top? && p.c.Red? && ColorOf(p.up.other).Black?
  }

  // Where insert_case4 leaves the old parent of an inner grandchild.
  function OuterPath(p: Path, s: Shape): Path
    requires !p.Top? && s.Bin?
  {
    if p.InRight? then InLeft(p.up, s.n, s.c, s.k, s.v, s.r) else InRight(p.up, s.n, s.c, s.k, s.v, s.l)
  }

  function OuterShape(p: Path, s: Shape): Shape
    requires !p.Top? && s.Bin?
  {
    if p.InRight? then Bin(p.other, p.n, p.c, p.k, p.v, s.l) else Bin(s.r, p.n, p.c, p.k, p.v, p.other)
  }

  lemma InnerIsGood(p: Path, s: Shape)
    requires BlackUncle(p, s)
    ensures BlackUncle(OuterPath(p, s), OuterShape(p, s))
  {
  }

  lemma InnerContents(p: Path, s: Shape)
    requires !p.Top? && s.Bin?
    ensures Contents(OuterPath(p, s), OuterShape(p, s)) == Contents(p, s)
    ensures PathNodes(OuterPath(p, s)) + Nodes(OuterShape(p, s)) == PathNodes(p) + Nodes(s)
  {
    PlugContents(p, s);
    RotatedContents(Plug(p, s));
    PlugContents(OuterPath(p, s), OuterShape(p, s));
  }

  // The subtree insert_case5 leaves at the grandparent's place.
  function OuterRotated(p: Path, s: Shape): Shape
    requires !p.Top? && !p.up.Top? && p.InLeft? == p.up.InLeft?
  {
    if p.InLeft? then RotatedRight(OuterPainted(p, s)) else RotatedLeft(OuterPainted(p, s))
  }

  function OuterPainted(p: Path, s: Shape): Shape
    requires !p.Top? && !p.up.Top?
  {
    Plug(p.up.(c := Red), Plug(p.(c := Black), s))
  }

  lemma OuterIsGood(p: Path, s: Shape)
    requires BlackUncle(p, s) && p.InLeft? == p.up.InLeft?
    ensures RedBlack(Zip(p.up.up, OuterRotated(p, s)))
  {
    var rs := OuterRotated(p, s);
    assert GoodPath(p.up, BlackHeight(s));
    assert Balanced(rs.l) && Balanced(rs.r) && NoRedRed(rs.l) && NoRedRed(rs.r);
    ZipRedBlack(p.up.up, rs);
  }

  lemma OuterContents(p: Path, s: Shape)
    requires !p.Top? && !p.up.Top? && p.InLeft? == p.up.InLeft?
    ensures Contents(p.up.up, OuterRotated(p, s)) == Contents(p, s)
    ensures PathNodes(p.up.up) + Nodes(OuterRotated(p, s)) == PathNodes(p) + Nodes(s)
    ensures PathNodes(p.up.up) + Nodes(OuterPainted(p, s)) == PathNodes(p) + Nodes(s)
  {
    PlugContents(p, s);
    PlugContents(p.up, Plug(p, s));
    PlugContents(p.up.(c := Red), Plug(p.(c := Black), s));
    RotatedContents(OuterPainted(p, s));
  }

  /** Black parent and uncle, red grandparent. */
  function Recolored(p: Path, s: Shape): Shape
    requires !p.Top? && !p.up.Top? && p.up.other.Bin?
  {
    Plug(p.up.(c := Red, other := p.up.other.(c := Black)), Plug(p.(c := Black), s))
  }
}
