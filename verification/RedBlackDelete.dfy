/**
  The red-black tree of project/common/src/rbtree.cpp, part 3: lookup and deletion.

  The source rebalances around the node to be removed while it is still linked in,
  and unlinks it afterwards.  So delete_case1 to delete_case6 are specified on the
  path above the node: they turn a path made for a subtree of black height h + 1
  into one made for black height h.
*/
module RedBlackDelete {
  import opened Options
  import opened RedBlackShape
  import opened RedBlackTree
  import opened RedBlackVerify

  method LookupNode(t: RBTree, key: Key, compare: (Key, Key) -> int)
    returns (n: Node?, ghost p: Path, ghost s: Shape)
    requires t.Valid(compare)
    ensures t.Valid(compare) && Focus(t.root, p, s, n) && Zip(p, s) == t.shape
    ensures n == null ==> s == Nil && Between(compare, Before(p), key, After(p))
    ensures n != null ==> s.Bin? && compare(key, s.k) == 0
  {
    Allocated(t.shape);
    n, p, s := t.root, Top, t.shape;
    while n != null
      invariant Focus(t.root, p, s, n) && Zip(p, s) == t.shape
      invariant Between(compare, Before(p), key, After(p))
      decreases s
    {
      ZipInOrder(p, s);
      var order := compare(key, n.key);
      if order == 0 {
        return;
      } else if order < 0 {
        StepLeft(compare, Before(p), InOrder(s.l), (s.k, s.v), InOrder(s.r), After(p), key);
        p, s := InLeft(p, s.n, s.c, s.k, s.v, s.r), s.l;
        FocusDown(t.root, p, s);
        n := n.left;
      } else {
        StepRight(compare, Before(p), InOrder(s.l), (s.k, s.v), InOrder(s.r), After(p), key);
        p, s := InRight(p, s.n, s.c, s.k, s.v, s.l), s.r;
        FocusDown(t.root, p, s);
        n := n.right;
      }
    }
  }

  /** rbtree_lookup: the value of the one entry whose key is equivalent, if there is one. */
  method Lookup(t: RBTree, key: Key, compare: (Key, Key) -> int) returns (r: Option<Value>)
    requires t.Valid(compare)
    ensures r.None? <==> !Contains(compare, InOrder(t.shape), key)
    ensures forall i | 0 <= i < |InOrder(t.shape)| ::
      compare(key, InOrder(t.shape)[i].0) == 0 ==> r == Some(InOrder(t.shape)[i].1)
  {
    ghost var p, s;
    var n;
    n, p, s := LookupNode(t, key, compare);
    Found(compare, p, s, key);
    r := if n == null then None else Some(n.value);
  }

  /** What the search ended on says which entries are equivalent to the key: at most one. */
  lemma Found(compare: (Key, Key) -> int, p: Path, s: Shape, key: Key)
    requires TotalPreorder(compare) && Sorted(compare, InOrder(Zip(p, s)))
    requires s.Nil? ==> Between(compare, Before(p), key, After(p))
    requires s.Bin? ==> compare(key, s.k) == 0
    ensures Contains(compare, InOrder(Zip(p, s)), key) <==> s.Bin?
    ensures s.Bin? ==> var at, es := |Before(p) + InOrder(s.l)|, InOrder(Zip(p, s));
      && at < |es| && es[at] == (s.k, s.v)
      && forall i :: 0 <= i < |es| && compare(key, es[i].0) == 0 ==> i == at
  {
    if s.Nil? {
      NilContents(p);
      InsertSortedNone(compare, Before(p), key, After(p));
    } else {
      ZipInOrder(p, s);
      NodeContents(p, s);
      OnlyMatch(compare, Before(p) + InOrder(s.l), (s.k, s.v), InOrder(s.r) + After(p), key);
    }
  }

  lemma OnlyMatch(compare: (Key, Key) -> int, lo: Entries, e: (Key, Value), hi: Entries, key: Key)
    requires TotalPreorder(compare) && Sorted(compare, lo + [e] + hi) && compare(key, e.0) == 0
    ensures Contains(compare, lo + [e] + hi, key) && (lo + [e] + hi)[|lo|] == e
    ensures forall i | 0 <= i < |lo + [e] + hi| :: compare(key, (lo + [e] + hi)[i].0) == 0 ==> i == |lo|
  {
    var es := lo + [e] + hi;
    assert es[|lo|] == e;
    forall i | 0 <= i < |es| && compare(key, es[i].0) == 0 ensures i == |lo| {
      Equivalent(compare, key, es[i].0, e.0);
    }
  }

  lemma InsertSortedNone(compare: (Key, Key) -> int, lo: Entries, key: Key, hi: Entries)
    requires Between(compare, lo, key, hi)
    ensures !Contains(compare, lo + hi, key)
  {
    assert forall i :: |lo| <= i < |lo + hi| ==> (lo + hi)[i] == hi[i - |lo|];
  }

  lemma Equivalent(compare: (Key, Key) -> int, key: Key, a: Key, b: Key)
    requires TotalPreorder(compare) && compare(key, a) == 0 && compare(key, b) == 0
    ensures compare(a, b) == 0 && compare(b, a) == 0
  {
    assert Opposite(compare, key, a) && Opposite(compare, a, key);
    assert Opposite(compare, key, b) && Opposite(compare, b, key);
    assert Chained(compare, a, key, b) && Chained(compare, b, key, a);
    assert Opposite(compare, a, b) && Opposite(compare, b, a);
  }

  // --- the predecessor ---------------------------------------------------------

  function MaxPath(p: Path, s: Shape): Path
    requires s.Bin?
    decreases s
  {
    if s.r.Nil? then p else MaxPath(InRight(p, s.n, s.c, s.k, s.v, s.l), s.r)
  }

  function MaxShape(s: Shape): (m: Shape)
    requires s.Bin?
    ensures m.Bin? && m.r.Nil?
  {
    if s.r.Nil? then s else MaxShape(s.r)
  }

  method MaximumNode(n0: Node, ghost p: Path, ghost s: Shape, ghost root: Node?) returns (n: Node)
    requires s.Bin? && Focus(root, p, s, n0)
    ensures n == MaxShape(s).n
  {
    n := n0;
    ghost var q, t := p, s;
    while n.right != null
      invariant t.Bin? && Focus(root, q, t, n)
      invariant MaxShape(t) == MaxShape(s)
      decreases t
    {
      q, t := InRight(q, t.n, t.c, t.k, t.v, t.l), t.r;
      FocusDown(root, q, t);
      n := n.right;
    }
    assert Rep(t.r, n.right, n);
  }

  lemma {:induction false} MaxFocus(root: Node?, p: Path, s: Shape)
    requires s.Bin? && Focus(root, p, s, s.n)
    ensures Focus(root, MaxPath(p, s), MaxShape(s), MaxShape(s).n)
    ensures PathNodes(MaxPath(p, s)) + Nodes(MaxShape(s)) == PathNodes(p) + Nodes(s)
    decreases s
  {
    if s.r.Bin? {
      var q := InRight(p, s.n, s.c, s.k, s.v, s.l);
      FocusDown(root, q, s.r);
      MaxFocus(root, q, s.r);
    }
  }

  lemma {:induction false} MaxZip(p: Path, s: Shape)
    requires s.Bin?
    ensures Zip(MaxPath(p, s), MaxShape(s)) == Zip(p, s)
    ensures !p.Top? ==> !MaxPath(p, s).Top?
    ensures After(MaxPath(p, s)) == After(p)
    ensures Before(MaxPath(p, s)) + InOrder(MaxShape(s)) == Before(p) + InOrder(s)
    decreases s
  {
    if s.r.Bin? {
      var q := InRight(p, s.n, s.c, s.k, s.v, s.l);
      MaxZip(q, s.r);
      assert Before(q) + InOrder(s.r) == Before(p) + InOrder(s);
    }
  }

  // --- rebalancing ---------------------------------------------------------------

  /** `q` is `p` rebalanced for a subtree one black node shorter; a red one may go there. */
  ghost predicate Shortened(p: Path, q: Path, h: nat) {
    && GoodPath(q, h) && TopColor(q).Black?
    && Before(q) == Before(p) && After(q) == After(p) && (q.Top? <==> p.Top?)
  }

  function BlackFrames(p: Path): nat {
    if p.Top? then 0 else Weight(p.c) + BlackFrames(p.up)
  }

  method DeleteCase1(t: RBTree, n: Node, ghost p: Path, ghost s: Shape, ghost h: nat) returns (ghost q: Path)
    requires Focus(t.root, p, s, n) && GoodPath(p, h + 1) && h >= 1
    modifies t`root, PathNodes(p), Nodes(s)
    ensures Focus(t.root, q, s, n) && Shortened(p, q, h) && PathNodes(q) == PathNodes(p)
    decreases BlackFrames(p), 3
  {
    if n.parent == null {
      q := p;
    } else {
      q := DeleteCase2(t, n, p, s, h);
    }
  }

  method DeleteCase2(t: RBTree, n: Node, ghost p: Path, ghost s: Shape, ghost h: nat) returns (ghost q: Path)
    requires Focus(t.root, p, s, n) && GoodPath(p, h + 1) && h >= 1 && !p.Top?
    modifies t`root, PathNodes(p), Nodes(s)
    ensures Focus(t.root, q, s, n) && Shortened(p, q, h) && PathNodes(q) == PathNodes(p)
    decreases BlackFrames(p), 2
  {
    SiblingIsOther(t.root, p, s, n);
    SideOf(t.root, p, s, n);
    if NodeColor(Sibling(n)) == Red {
      ghost var r := PromoteSibling(t, n, p, s);
      PromotedIsGood(p, h);
      PromotedContents(p);
      PromotedNodes(p);
      q := DeleteCase3(t, n, r, s, h);
    } else {
      q := DeleteCase3(t, n, p, s, h);
    }
  }

  // The red-sibling branch of delete_case2.
  method PromoteSibling(t: RBTree, n: Node, ghost p: Path, ghost s: Shape) returns (ghost q: Path)
    requires Focus(t.root, p, s, n) && !p.Top? && p.other.Bin?
    modifies t`root, PathNodes(p), Nodes(s)
    ensures q == Promoted(p) && Focus(t.root, q, s, n)
  {
    ghost var o := p.other;
    SiblingIsOther(t.root, p, s, n);
    SideOf(t.root, p, s, n);
    FocusUp(t.root, p, s, n);
    PaintParent(n, Red, t.root, p, s);
    PaintSibling(n, Black, t.root, p.(c := Red), s);
    ghost var r := p.(c := Red, other := o.(c := Black));
    RotateParent(t, n, r, s);
    q := Promoted(p);
    FocusDown(t.root, q.up, Plug(q, s));
    FocusDown(t.root, q, s);
  }

  // Assignments to n->parent->color and sibling(n)->color.
  method PaintParent(n: Node, c: Color, ghost root: Node?, ghost p: Path, ghost s: Shape)
    requires Focus(root, p, s, n) && !p.Top?
    modifies PathNodes(p)`color
    ensures Focus(root, p.(c := c), s, n)
  {
    FocusUp(root, p, s, n);
    RBTree.Paint(n.parent, c, root, p.up, Plug(p, s));
    FocusDown(root, p.(c := c), s);
  }

  method PaintSibling(n: Node, c: Color, ghost root: Node?, ghost p: Path, ghost s: Shape)
    requires Focus(root, p, s, n) && !p.Top? && p.other.Bin?
    modifies PathNodes(p)`color
    ensures Focus(root, p.(other := p.other.(c := c)), s, n)
  {
    SiblingIsOther(root, p, s, n);
    FocusAcross(root, p, s, n);
    RBTree.Paint(Sibling(n), c, root, Swap(p, s), p.other);
    FocusAcross(root, Swap(p, s), p.other.(c := c), p.other.n);
  }

  // The rotation of n->parent that moves `n` down.
  method RotateParent(t: RBTree, n: Node, ghost p: Path, ghost s: Shape)
    requires Focus(t.root, p, s, n) && !p.Top? && p.other.Bin?
    modifies t`root, PathNodes(p), Nodes(s)
    ensures Focus(t.root, p.up, Lowered(p, s), p.other.n)
  {
    SideOf(t.root, p, s, n);
    FocusUp(t.root, p, s, n);
    if n == n.parent.left {
      t.RotateLeft(n.parent, p.up, Plug(p, s));
    } else {
      t.RotateRight(n.parent, p.up, Plug(p, s));
    }
  }

  function Lowered(p: Path, s: Shape): Shape
    requires !p.Top? && p.other.Bin?
  {
    if p.InLeft? then RotatedLeft(Plug(p, s)) else RotatedRight(Plug(p, s))
  }

  // The red sibling has become the grandparent.
  function Promoted(p: Path): Path
    requires !p.Top? && p.other.Bin?
  {
    var o := p.other;
    if p.InLeft? then InLeft(InLeft(p.up, o.n, Black, o.k, o.v, o.r), p.n, Red, p.k, p.v, o.l)
    else InRight(InRight(p.up, o.n, Black, o.k, o.v, o.l), p.n, Red, p.k, p.v, o.r)
  }

  lemma PromotedIsGood(p: Path, h: nat)
    requires GoodPath(p, h + 1) && !p.Top? && ColorOf(p.other).Red?
    ensures GoodPath(Promoted(p), h + 1) && ColorOf(Promoted(p).other).Black?
    ensures BlackFrames(Promoted(p)) == BlackFrames(p)
  {
  }

  lemma PromotedContents(p: Path)
    requires !p.Top? && p.other.Bin?
    ensures Before(Promoted(p)) == Before(p) && After(Promoted(p)) == After(p)
  {
    var o := p.other;
    if p.InLeft? {
      RegroupRight([(p.k, p.v)], InOrder(o.l), [(o.k, o.v)], InOrder(o.r), After(p.up));
    } else {
      RegroupLeft(Before(p.up), InOrder(o.l), [(o.k, o.v)], InOrder(o.r), [(p.k, p.v)]);
    }
  }

  lemma PromotedNodes(p: Path)
    requires !p.Top? && p.other.Bin?
    ensures PathNodes(Promoted(p)) == PathNodes(p)
  {
    assert PathNodes(Promoted(p).up) ==
           PathNodes(p.up) + {p.other.n} + Nodes(if p.InLeft? then p.other.r else p.other.l);
  }

  lemma RegroupRight(x: Entries, a: Entries, y: Entries, b: Entries, c: Entries)
    ensures x + a + (y + b + c) == x + (a + y + b) + c
  {
  }

  lemma RegroupLeft(c: Entries, a: Entries, y: Entries, b: Entries, x: Entries)
    ensures (c + a + y) + b + x == c + (a + y + b) + x
  {
  }

  // The sibling and both its children are black.
  ghost predicate AllBlack(o: Shape) {
    o.Bin? && o.c.Black? && ColorOf(o.l).Black? && ColorOf(o.r).Black?
  }

  /** The colour tests of the cases read the colours recorded in the path. */
  lemma FamilyColors(root: Node?, p: Path, s: Shape, n: Node)
    requires Focus(root, p, s, n) && !p.Top? && p.other.Bin?
    ensures n.parent == p.n && NodeColor(n.parent) == p.c
    ensures Sibling(n) == p.other.n && p.other.n.color == p.other.c
    ensures NodeColor(p.other.n.left) == ColorOf(p.other.l)
    ensures NodeColor(p.other.n.right) == ColorOf(p.other.r)
    ensures n == p.n.left <==> p.InLeft?
    ensures n == p.n.right <==> p.InRight?
  {
    SiblingIsOther(root, p, s, n);
    FocusAcross(root, p, s, n);
    assert Rep(p.other.l, p.other.n.left, p.other.n) && Rep(p.other.r, p.other.n.right, p.other.n);
  }

  method DeleteCase3(t: RBTree, n: Node, ghost p: Path, ghost s: Shape, ghost h: nat) returns (ghost q: Path)
    requires Focus(t.root, p, s, n) && GoodPath(p, h + 1) && h >= 1 && !p.Top? && ColorOf(p.other).Black?
    modifies t`root, PathNodes(p), Nodes(s)
    ensures Focus(t.root, q, s, n) && Shortened(p, q, h) && PathNodes(q) == PathNodes(p)
    decreases BlackFrames(p), 1
  {
    FamilyColors(t.root, p, s, n);
    if NodeColor(n.parent) == Black && NodeColor(Sibling(n)) == Black &&
       NodeColor(Sibling(n).left) == Black && NodeColor(Sibling(n).right) == Black
    {
      q := PassUp(t, n, p, s, h);
    } else {
      q := DeleteCase4(t, n, p, s, h);
    }
  }

  // The all-black branch of delete_case3.
  method PassUp(t: RBTree, n: Node, ghost p: Path, ghost s: Shape, ghost h: nat) returns (ghost q: Path)
    requires Focus(t.root, p, s, n) && GoodPath(p, h + 1) && h >= 1 && !p.Top? && p.c.Black? && AllBlack(p.other)
    modifies t`root, PathNodes(p), Nodes(s)
    ensures Focus(t.root, q, s, n) && Shortened(p, q, h) && PathNodes(q) == PathNodes(p)
    decreases BlackFrames(p), 0
  {
    PaintSibling(n, Red, t.root, p, s);
    ghost var r := p.(other := p.other.(c := Red));
    FocusUp(t.root, r, s, n);
    assert PathNodes(r) == PathNodes(p);
    q := DeleteCase1(t, n.parent, p.up, Plug(r, s), h + 1);
    ShortenedFurther(p, q, h);
    q := r.(up := q);
    FocusDown(t.root, q, s);
  }

  lemma ShortenedFurther(p: Path, up: Path, h: nat)
    requires !p.Top? && GoodPath(p, h + 1) && p.c.Black? && AllBlack(p.other)
    requires Shortened(p.up, up, h + 1) && PathNodes(up) == PathNodes(p.up)
    ensures Shortened(p, p.(other := p.other.(c := Red), up := up), h)
    ensures PathNodes(p.(other := p.other.(c := Red), up := up)) == PathNodes(p)
  {
    assert InOrder(p.other.(c := Red)) == InOrder(p.other);
    assert Balanced(p.other.(c := Red)) && NoRedRed(p.other.(c := Red));
  }

  method DeleteCase4(t: RBTree, n: Node, ghost p: Path, ghost s: Shape, ghost h: nat) returns (ghost q: Path)
    requires Focus(t.root, p, s, n) && GoodPath(p, h + 1) && h >= 1 && !p.Top? && ColorOf(p.other).Black?
    requires p.c.Black? ==> !AllBlack(p.other)
    modifies t`root, PathNodes(p), Nodes(s)
    ensures Focus(t.root, q, s, n) && Shortened(p, q, h) && PathNodes(q) == PathNodes(p)
  {
    FamilyColors(t.root, p, s, n);
    if NodeColor(n.parent) == Red && NodeColor(Sibling(n)) == Black &&
       NodeColor(Sibling(n).left) == Black && NodeColor(Sibling(n).right) == Black
    {
      PaintSibling(n, Red, t.root, p, s);
      q := p.(other := p.other.(c := Red));
      PaintParent(n, Black, t.root, q, s);
      q := q.(c := Black);
    } else {
      q := DeleteCase5(t, n, p, s, h);
    }
  }

  method DeleteCase5(t: RBTree, n: Node, ghost p: Path, ghost s: Shape, ghost h: nat) returns (ghost q: Path)
    requires Focus(t.root, p, s, n) && GoodPath(p, h + 1) && h >= 1 && !p.Top? && ColorOf(p.other).Black?
    requires !AllBlack(p.other)
    modifies t`root, PathNodes(p), Nodes(s)
    ensures Focus(t.root, q, s, n) && Shortened(p, q, h) && PathNodes(q) == PathNodes(p)
  {
    FamilyColors(t.root, p, s, n);
    if n == n.parent.left && NodeColor(Sibling(n)) == Black &&
       NodeColor(Sibling(n).left) == Red && NodeColor(Sibling(n).right) == Black
    {
      TurnSibling(t, n, p, s);
      TurnedIsGood(p, h);
      TurnedContents(p);
      q := DeleteCase6(t, n, WithTurned(p), s, h);
    } else if n == n.parent.right && NodeColor(Sibling(n)) == Black &&
              NodeColor(Sibling(n).right) == Red && NodeColor(Sibling(n).left) == Black
    {
      TurnSibling(t, n, p, s);
      TurnedIsGood(p, h);
      TurnedContents(p);
      q := DeleteCase6(t, n, WithTurned(p), s, h);
    } else {
      q := DeleteCase6(t, n, p, s, h);
    }
  }

  function Near(p: Path): Shape
    requires !p.Top? && p.other.Bin?
  {
    if p.InLeft? then p.other.l else p.other.r
  }

  function Far(p: Path): Shape
    requires !p.Top? && p.other.Bin?
  {
    if p.InLeft? then p.other.r else p.other.l
  }

  // The sibling's subtree after the recolouring and rotation of delete_case5.
  function Turned(p: Path): Shape
    requires !p.Top? && p.other.Bin? && Near(p).Bin?
  {
    var o := p.other;
    if p.InLeft? then RotatedRight(o.(c := Red, l := o.l.(c := Black)))
    else RotatedLeft(o.(c := Red, r := o.r.(c := Black)))
  }

  function WithTurned(p: Path): Path
    requires !p.Top? && p.other.Bin? && Near(p).Bin?
  {
    p.(other := Turned(p))
  }

  // The colour changes and the rotation of delete_case5.
  method TurnSibling(t: RBTree, n: Node, ghost p: Path, ghost s: Shape)
    requires Focus(t.root, p, s, n) && !p.Top? && p.other.Bin? && Near(p).Bin?
    modifies t`root, PathNodes(p), Nodes(s)
    ensures Focus(t.root, WithTurned(p), s, n)
  {
    SideOf(t.root, p, s, n);
    PaintSibling(n, Red, t.root, p, s);
    ghost var r := p.(other := p.other.(c := Red));
    PaintNephew(n, n == n.parent.left, t.root, r, s);
    ghost var o' := if p.InLeft? then r.other.(l := r.other.l.(c := Black)) else r.other.(r := r.other.r.(c := Black));
    r := r.(other := o');
    SiblingIsOther(t.root, r, s, n);
    FocusAcross(t.root, r, s, n);
    if n == n.parent.left {
      t.RotateRight(Sibling(n), Swap(r, s), o');
    } else {
      t.RotateLeft(Sibling(n), Swap(r, s), o');
    }
    FocusAcross(t.root, Swap(r, s), Turned(p), Turned(p).n);
  }

  // sibling(n)->left->color = BLACK, or the same for the right nephew.
  method PaintNephew(n: Node, left: bool, ghost root: Node?, ghost p: Path, ghost s: Shape)
    requires Focus(root, p, s, n) && !p.Top? && p.other.Bin? && (if left then p.other.l else p.other.r).Bin?
    modifies PathNodes(p)`color
    ensures left ==> Focus(root, p.(other := p.other.(l := p.other.l.(c := Black))), s, n)
    ensures !left ==> Focus(root, p.(other := p.other.(r := p.other.r.(c := Black))), s, n)
  {
    SiblingIsOther(root, p, s, n);
    FocusAcross(root, p, s, n);
    ghost var o := p.other;
    if left {
      ghost var q := InLeft(Swap(p, s), o.n, o.c, o.k, o.v, o.r);
      FocusDown(root, q, o.l);
      RBTree.Paint(Sibling(n).left, Black, root, q, o.l);
      FocusUp(root, q, o.l.(c := Black), o.l.n);
      FocusAcross(root, Swap(p, s), o.(l := o.l.(c := Black)), o.n);
    } else {
      ghost var q := InRight(Swap(p, s), o.n, o.c, o.k, o.v, o.l);
      FocusDown(root, q, o.r);
      RBTree.Paint(Sibling(n).right, Black, root, q, o.r);
      FocusUp(root, q, o.r.(c := Black), o.r.n);
      FocusAcross(root, Swap(p, s), o.(r := o.r.(c := Black)), o.n);
    }
  }

  lemma TurnedIsGood(p: Path, h: nat)
    requires !p.Top? && GoodPath(p, h + 1) && ColorOf(p.other).Black? && p.other.Bin?
    requires ColorOf(Near(p)).Red? && ColorOf(Far(p)).Black?
    ensures var q := WithTurned(p);
      GoodPath(q, h + 1) && q.other.c.Black? && ColorOf(Far(q)).Red?
  {
    assert Balanced(Near(p)) && NoRedRed(Near(p)) && BlackHeight(Near(p)) == BlackHeight(Far(p));
    assert Balanced(Turned(p).l) && Balanced(Turned(p).r) && NoRedRed(Turned(p).l) && NoRedRed(Turned(p).r);
  }

  lemma TurnedContents(p: Path)
    requires !p.Top? && p.other.Bin? && Near(p).Bin?
    ensures InOrder(Turned(p)) == InOrder(p.other) && Nodes(Turned(p)) == Nodes(p.other)
  {
    var o := p.other;
    var o' := if p.InLeft? then o.(c := Red, l := o.l.(c := Black)) else o.(c := Red, r := o.r.(c := Black));
    RepaintedContents(if p.InLeft? then o.l else o.r, Black);
    SameParts(o, o');
    RotatedContents(o');
  }

  lemma RepaintedContents(s: Shape, c: Color)
    requires s.Bin?
    ensures InOrder(s.(c := c)) == InOrder(s) && Nodes(s.(c := c)) == Nodes(s)
  {
  }

  /** Shapes with the same root entry and subtrees of the same contents have the same contents. */
  lemma SameParts(a: Shape, b: Shape)
    requires a.Bin? && b.Bin? && a.n == b.n && a.k == b.k && a.v == b.v
    requires InOrder(a.l) == InOrder(b.l) && InOrder(a.r) == InOrder(b.r)
    requires Nodes(a.l) == Nodes(b.l) && Nodes(a.r) == Nodes(b.r)
    ensures InOrder(a) == InOrder(b) && Nodes(a) == Nodes(b)
  {
  }

  // The path left by delete_case6: the sibling takes the parent's place and colour.
  function Finished(p: Path): Path
    requires !p.Top? && p.other.Bin? && Far(p).Bin?
  {
    var o := p.other;
    if p.InLeft? then InLeft(InLeft(p.up, o.n, p.c, o.k, o.v, o.r.(c := Black)), p.n, Black, p.k, p.v, o.l)
    else InRight(InRight(p.up, o.n, p.c, o.k, o.v, o.l.(c := Black)), p.n, Black, p.k, p.v, o.r)
  }

  lemma FinishedIsGood(p: Path, h: nat)
    requires !p.Top? && GoodPath(p, h + 1) && ColorOf(p.other).Black? && p.other.Bin? && ColorOf(Far(p)).Red?
    ensures GoodPath(Finished(p), h)
  {
    var f := Far(p).(c := Black);
    assert Balanced(Far(p)) && BlackHeight(Far(p)) == h;
    assert NoRedRed(Far(p)) && NoRedRed(f) && Balanced(f) && BlackHeight(f) == h + 1;
    assert GoodPath(Finished(p).up, h + 1);
  }

  lemma FinishedContents(p: Path)
    requires !p.Top? && p.other.Bin? && Far(p).Bin?
    ensures Before(Finished(p)) == Before(p) && After(Finished(p)) == After(p)
    ensures PathNodes(Finished(p)) == PathNodes(p)
  {
    PromotedContents(p);
    PromotedNodes(p);
    var f := Far(p).(c := Black);
    assert InOrder(f) == InOrder(Far(p)) && Nodes(f) == Nodes(Far(p));
  }

  method DeleteCase6(t: RBTree, n: Node, ghost p: Path, ghost s: Shape, ghost h: nat) returns (ghost q: Path)
    requires Focus(t.root, p, s, n) && GoodPath(p, h + 1) && h >= 1 && !p.Top? && ColorOf(p.other).Black?
    requires p.other.Bin? && ColorOf(Far(p)).Red?
    modifies t`root, PathNodes(p), Nodes(s)
    ensures Focus(t.root, q, s, n) && Shortened(p, q, h) && PathNodes(q) == PathNodes(p)
  {
    FamilyColors(t.root, p, s, n);
    PaintSibling(n, NodeColor(n.parent), t.root, p, s);
    ghost var r := p.(other := p.other.(c := p.c));
    PaintParent(n, Black, t.root, r, s);
    r := r.(c := Black);
    PaintNephew(n, n != n.parent.left, t.root, r, s);
    ghost var o := if p.InLeft? then r.other.(r := r.other.r.(c := Black)) else r.other.(l := r.other.l.(c := Black));
    r := r.(other := o);
    RotateParent(t, n, r, s);
    q := Finished(p);
    FinishedIsGood(p, h);
    FinishedContents(p);
    FocusDown(t.root, q.up, Plug(q, s));
    FocusDown(t.root, q, s);
  }

  // --- rbtree_delete ---------------------------------------------------------------

  function OnlyChild(s: Shape): Shape
    requires s.Bin?
  {
    if s.r.Nil? then s.l else s.r
  }

  /** A node with at most one child has none if it is red; a child it has is red. */
  lemma SingleChild(p: Path, s: Shape)
    requires s.Bin? && (s.l.Nil? || s.r.Nil?) && RedBlack(Zip(p, s))
    ensures GoodPath(p, BlackHeight(s)) && BlackHeight(s) == Weight(s.c) + 1
    ensures Balanced(OnlyChild(s)) && NoRedRed(OnlyChild(s)) && BlackHeight(OnlyChild(s)) == 1
    ensures OnlyChild(s).Bin? ==> s.c.Black? && OnlyChild(s).c.Red?
  {
    UnzipRedBlack(p, s);
  }

  // From the choice of the child to the end of rbtree_delete.
  method Unlink(t: RBTree, n: Node, ghost p: Path, ghost s: Shape)
    requires s.Bin? && (s.l.Nil? || s.r.Nil?) && Focus(t.root, p, s, n) && RedBlack(Zip(p, s))
    modifies t, PathNodes(p), Nodes(s)
    ensures t.Linked() && NoRedRed(t.shape) && Balanced(t.shape)
    ensures RedBlack(t.shape) <==> !(p.Top? && OnlyChild(s).Bin?)
    ensures InOrder(t.shape) == Contents(p, OnlyChild(s))
    ensures Nodes(t.shape) == PathNodes(p) + Nodes(OnlyChild(s))
  {
    SingleChild(p, s);
    assert Rep(s.l, n.left, n) && Rep(s.r, n.right, n);
    var child := if n.right == null then n.left else n.right;
    ghost var q, s' := Shorten(t, n, child, p, s);
    Splice(t, n, child, q, s');
    if !q.Top? {
      ZipRedBlack(q, OnlyChild(s));
    }
  }

  // Rebalancing before a black node is taken out.
  method Shorten(t: RBTree, n: Node, child: Node?, ghost p: Path, ghost s: Shape)
    returns (ghost q: Path, ghost s': Shape)
    requires s.Bin? && Focus(t.root, p, s, n) && GoodPath(p, Weight(s.c) + 1)
    requires child == if s.r.Nil? then n.left else n.right
    modifies t`root, PathNodes(p), Nodes(s)
    ensures s'.Bin? && s'.l == s.l && s'.r == s.r && s'.n == s.n && Focus(t.root, q, s', n) && GoodPath(q, 1)
    ensures s.c.Black? ==> TopColor(q).Black?
    ensures Before(q) == Before(p) && After(q) == After(p) && PathNodes(q) == PathNodes(p) && (q.Top? <==> p.Top?)
  {
    q, s' := p, s;
    if n.color == Black {
      n.color := NodeColor(child);
      s' := s.(c := n.color);
      q := DeleteCase1(t, n, p, s', 1);
    }
  }

  method Splice(t: RBTree, n: Node, child: Node?, ghost p: Path, ghost s: Shape)
    requires s.Bin? && (s.l.Nil? || s.r.Nil?) && Focus(t.root, p, s, n)
    requires child == if OnlyChild(s).Nil? then null else OnlyChild(s).n
    modifies t, PathNodes(p), Nodes(s)
    ensures t.Linked() && t.shape == Zip(p, OnlyChild(s)) && InOrder(t.shape) == Contents(p, OnlyChild(s))
    ensures Nodes(t.shape) == PathNodes(p) + Nodes(OnlyChild(s))
  {
    assert Rep(s.l, n.left, n) && Rep(s.r, n.right, n);
    t.ReplaceNode(n, child, p, OnlyChild(s), n);
    t.Record(p, OnlyChild(s), child);
  }

  // rbtree_delete after its lookup.
  method Remove(t: RBTree, n: Node, ghost p: Path, ghost s: Shape)
    requires s.Bin? && Focus(t.root, p, s, n) && RedBlack(Zip(p, s))
    modifies t, PathNodes(p), Nodes(s)
    ensures t.Linked() && NoRedRed(t.shape) && Balanced(t.shape)
    ensures RedBlack(t.shape) <==> !(p.Top? && s.l.Nil? != s.r.Nil?)
    ensures InOrder(t.shape) == (Before(p) + InOrder(s.l)) + (InOrder(s.r) + After(p))
    ensures Nodes(t.shape) < PathNodes(p) + Nodes(s)
  {
    assert Rep(s.l, n.left, n) && Rep(s.r, n.right, n);
    if n.left != null && n.right != null {
      RemovePredecessor(t, n, p, s);
    } else {
      OnlyChildContents(p, s);
      assert Nodes(s) == Nodes(OnlyChild(s)) + {n} && n !in Nodes(OnlyChild(s)) && n !in PathNodes(p);
      Unlink(t, n, p, s);
    }
  }

  // With two children it is the predecessor's node that goes.
  method RemovePredecessor(t: RBTree, n: Node, ghost p: Path, ghost s: Shape)
    requires s.Bin? && s.l.Bin? && s.r.Bin? && Focus(t.root, p, s, n) && RedBlack(Zip(p, s))
    modifies t, PathNodes(p), Nodes(s)
    ensures t.Linked() && NoRedRed(t.shape) && Balanced(t.shape) && RedBlack(t.shape)
    ensures InOrder(t.shape) == (Before(p) + InOrder(s.l)) + (InOrder(s.r) + After(p))
    ensures Nodes(t.shape) < PathNodes(p) + Nodes(s)
  {
    var pred;
    ghost var p', s';
    pred, p', s' := TakePredecessor(t, n, p, s);
    assert Nodes(s') == Nodes(s'.l) + {pred} && pred !in Nodes(s'.l) && pred !in PathNodes(p');
    Unlink(t, pred, p', s');
  }

  lemma OnlyChildContents(p: Path, s: Shape)
    requires s.Bin? && (s.l.Nil? || s.r.Nil?)
    ensures Contents(p, OnlyChild(s)) == (Before(p) + InOrder(s.l)) + (InOrder(s.r) + After(p))
  {
    var lo, hi := Before(p) + InOrder(s.l), InOrder(s.r) + After(p);
    if s.r.Nil? {
      assert hi == After(p);
    } else {
      assert lo == Before(p) && Before(p) + InOrder(s.r) + After(p) == lo + hi;
    }
  }

  /** The one case in which rbtree_delete breaks property 2: the root is removed and has exactly one child. */
  ghost predicate LosesBlackRoot(compare: (Key, Key) -> int, s: Shape, key: Key) {
    s.Bin? && (s.l.Nil? != s.r.Nil?) && compare(key, s.k) == 0
  }

  // The two-children branch: the predecessor's key and value move up into `n`.
  method TakePredecessor(t: RBTree, n: Node, ghost p: Path, ghost s: Shape)
    returns (pred: Node, ghost p': Path, ghost s': Shape)
    requires Focus(t.root, p, s, n) && s.Bin? && s.l.Bin? && RedBlack(Zip(p, s))
    modifies n`key, n`value
    ensures Focus(t.root, p', s', pred) && !p'.Top? && s'.Bin? && s'.r.Nil? && RedBlack(Zip(p', s'))
    ensures Contents(p', s'.l) == (Before(p) + InOrder(s.l)) + (InOrder(s.r) + After(p))
    ensures PathNodes(p') + Nodes(s') == PathNodes(p) + Nodes(s)
  {
    Allocated(s);
    AllocatedPath(p);
    ghost var q := InLeft(p, s.n, s.c, s.k, s.v, s.r);
    FocusDown(t.root, q, s.l);
    pred := MaximumNode(n.left, q, s.l, t.root);
    MaxFocus(t.root, q, s.l);
    ghost var m := MaxShape(s.l);
    CopyEntry(n, pred, t.root, p, s);
    q := InLeft(p, s.n, s.c, m.k, m.v, s.r);
    FocusDown(t.root, q, s.l);
    MaxFocus(t.root, q, s.l);
    p', s' := MaxPath(q, s.l), m;
    TakenContents(p, s);
  }

  method CopyEntry(n: Node, from: Node, ghost root: Node?, ghost p: Path, ghost s: Shape)
    requires Focus(root, p, s, n) && s.Bin?
    modifies n`key, n`value
    ensures Focus(root, p, s.(k := old(from.key), v := old(from.value)), n)
  {
    n.key := from.key;
    n.value := from.value;
  }

  lemma TakenContents(p: Path, s: Shape)
    requires s.Bin? && s.l.Bin? && RedBlack(Zip(p, s))
    ensures var m := MaxShape(s.l); var q := MaxPath(InLeft(p, s.n, s.c, m.k, m.v, s.r), s.l);
      && Contents(q, m.l) == (Before(p) + InOrder(s.l)) + (InOrder(s.r) + After(p))
      && RedBlack(Zip(q, m)) && !q.Top?
  {
    var m := MaxShape(s.l);
    var q0 := InLeft(p, s.n, s.c, m.k, m.v, s.r);
    var q := MaxPath(q0, s.l);
    MaxZip(q0, s.l);
    UnzipRedBlack(p, s);
    ZipRedBlack(p, s.(k := m.k, v := m.v));
    MovedUp(Before(q), InOrder(m.l), [(m.k, m.v)], InOrder(s.r), After(p), Before(p) + InOrder(s.l), InOrder(m));
  }

  lemma MovedUp(b: Entries, l: Entries, x: Entries, r: Entries, a: Entries, whole: Entries, m: Entries)
    requires m == l + x + [] && b + m == whole
    ensures b + l + (x + r + a) == whole + (r + a)
  {
    assert m == l + x;
    RegroupTail(b, l, x, r, a);
  }

  lemma RegroupTail(b: Entries, l: Entries, x: Entries, r: Entries, a: Entries)
    ensures b + l + (x + r + a) == (b + (l + x)) + (r + a)
  {
  }

  /** Taking a node with at most one child out removes exactly its own entry. */
  lemma Removed(compare: (Key, Key) -> int, p: Path, s: Shape)
    requires s.Bin? && Sorted(compare, InOrder(Zip(p, s)))
    ensures var es, at := InOrder(Zip(p, s)), |Before(p) + InOrder(s.l)|;
      var rest := (Before(p) + InOrder(s.l)) + (InOrder(s.r) + After(p));
      at < |es| && es[at] == (s.k, s.v) && rest == es[..at] + es[at + 1..] && Sorted(compare, rest)
  {
    ZipInOrder(p, s);
    NodeContents(p, s);
    var lo, hi := Before(p) + InOrder(s.l), InOrder(s.r) + After(p);
    RemoveSorted(compare, lo, (s.k, s.v), hi);
    assert (lo + [(s.k, s.v)] + hi)[..|lo|] == lo && (lo + [(s.k, s.v)] + hi)[|lo| + 1..] == hi;
  }

  /** Only the root sits at the top: any other match leaves the root's key unequal. */
  lemma RootMatch(compare: (Key, Key) -> int, p: Path, s: Shape, key: Key)
    requires TotalPreorder(compare) && Sorted(compare, InOrder(Zip(p, s)))
    requires s.Nil? ==> Between(compare, Before(p), key, After(p))
    requires s.Bin? ==> compare(key, s.k) == 0
    ensures Zip(p, s).Bin? && compare(key, Zip(p, s).k) == 0 <==> s.Bin? && p.Top?
  {
    if !p.Top? {
      var i := RootAside(p, s);
      Found(compare, p, s, key);
      ZipInOrder(p, s);
    }
  }

  lemma RootAside(p: Path, s: Shape) returns (i: nat)
    requires !p.Top?
    ensures Zip(p, s).Bin? && i < |Contents(p, s)| && Contents(p, s)[i] == Outermost(p) == (Zip(p, s).k, Zip(p, s).v)
    ensures i < |Before(p)| || i >= |Before(p)| + |InOrder(s)|
  {
    var e := Outermost(p);
    OutermostAside(p, s);
    if e in Before(p) {
      i :| 0 <= i < |Before(p)| && Before(p)[i] == e;
    } else {
      var j :| 0 <= j < |After(p)| && After(p)[j] == e;
      i := j + |Before(p) + InOrder(s)|;
    }
  }

  function Outermost(p: Path): (Key, Value)
    requires !p.Top?
  {
    if p.up.Top? then (p.k, p.v) else Outermost(p.up)
  }

  lemma {:induction false} OutermostAside(p: Path, s: Shape)
    requires !p.Top?
    ensures Zip(p, s).Bin? && Outermost(p) == (Zip(p, s).k, Zip(p, s).v)
    ensures Outermost(p) in Before(p) || Outermost(p) in After(p)
    decreases p
  {
    if !p.up.Top? {
      OutermostAside(p.up, Plug(p, s));
    }
  }

  lemma OneChildRootHasTwoEntries(s: Shape)
    requires RedBlack(s)
    ensures s.Bin? && s.l.Nil? != s.r.Nil? <==> |InOrder(s)| == 2
  {
    if s.Bin? && s.l.Nil? != s.r.Nil? {
      var c := OnlyChild(s);
      assert BlackHeight(c) == 1 && Balanced(c) && NoRedRed(c);
      assert c.l.Nil? && c.r.Nil?;
    } else if s.Bin? && s.l.Bin? && s.r.Bin? {
      assert |InOrder(s.l)| >= 1 && |InOrder(s.r)| >= 1;
    }
  }

  method Delete(t: RBTree, key: Key, compare: (Key, Key) -> int) returns (ok: bool, ghost at: nat)
    requires t.Valid(compare)
    modifies t, Nodes(t.shape)
    ensures ok <==> t.Valid(compare)
    ensures ok <==> !LosesBlackRoot(compare, old(t.shape), key)
    ensures t.Linked() && NoRedRed(t.shape) && Balanced(t.shape) && Sorted(compare, InOrder(t.shape))
    ensures !Contains(compare, old(InOrder(t.shape)), key) ==> t.shape == old(t.shape)
    ensures Contains(compare, old(InOrder(t.shape)), key) ==>
      && at < |old(InOrder(t.shape))| && compare(key, old(InOrder(t.shape))[at].0) == 0
      && InOrder(t.shape) == old(InOrder(t.shape)[..at] + InOrder(t.shape)[at + 1..])
      && Nodes(t.shape) < old(Nodes(t.shape))
  {
    at := DeleteKey(t, key, compare);
    Allocated(t.shape);
    ok := VerifyProperties(t.root, t.shape);
  }

  method DeleteKey(t: RBTree, key: Key, compare: (Key, Key) -> int) returns (ghost at: nat)
    requires t.Valid(compare)
    modifies t, Nodes(t.shape)
    ensures t.Linked() && NoRedRed(t.shape) && Balanced(t.shape) && Sorted(compare, InOrder(t.shape))
    ensures RedBlack(t.shape) <==> !LosesBlackRoot(compare, old(t.shape), key)
    ensures !Contains(compare, old(InOrder(t.shape)), key) ==> t.shape == old(t.shape)
    ensures Contains(compare, old(InOrder(t.shape)), key) ==>
      && at < |old(InOrder(t.shape))| && compare(key, old(InOrder(t.shape))[at].0) == 0
      && InOrder(t.shape) == old(InOrder(t.shape)[..at] + InOrder(t.shape)[at + 1..])
      && Nodes(t.shape) < old(Nodes(t.shape))
  {
    at := 0;
    ghost var p, s;
    var n;
    n, p, s := LookupNode(t, key, compare);
    Located(compare, p, s, key);
    ZipRep(t.root, p, s, n);
    if n != null {
      at := RemoveFound(t, n, key, compare, p, s);
    }
  }

  // The rest of rbtree_delete once the node is found.
  method RemoveFound(t: RBTree, n: Node, key: Key, compare: (Key, Key) -> int, ghost p: Path, ghost s: Shape)
    returns (ghost at: nat)
    requires t.Valid(compare) && s.Bin? && Focus(t.root, p, s, n) && t.shape == Zip(p, s) && compare(key, s.k) == 0
    modifies t, Nodes(t.shape)
    ensures t.Linked() && NoRedRed(t.shape) && Balanced(t.shape) && Sorted(compare, InOrder(t.shape))
    ensures RedBlack(t.shape) <==> !LosesBlackRoot(compare, old(t.shape), key)
    ensures at < |old(InOrder(t.shape))| && compare(key, old(InOrder(t.shape))[at].0) == 0
    ensures InOrder(t.shape) == old(InOrder(t.shape)[..at] + InOrder(t.shape)[at + 1..])
    ensures Nodes(t.shape) < old(Nodes(t.shape))
  {
    ghost var rest;
    at, rest := Place(compare, t.shape, p, s, key);
    ZipRep(t.root, p, s, n);
    Remove(t, n, p, s);
    assert InOrder(t.shape) == rest;
  }

  /** Where the entry is, and what remains without it. */
  lemma Place(compare: (Key, Key) -> int, was: Shape, p: Path, s: Shape, key: Key) returns (at: nat, rest: Entries)
    requires TotalPreorder(compare) && was == Zip(p, s) && Sorted(compare, InOrder(was))
    requires s.Bin? && compare(key, s.k) == 0
    ensures at < |InOrder(was)| && compare(key, InOrder(was)[at].0) == 0
    ensures rest == InOrder(was)[..at] + InOrder(was)[at + 1..] && Sorted(compare, rest)
    ensures rest == (Before(p) + InOrder(s.l)) + (InOrder(s.r) + After(p))
    ensures LosesBlackRoot(compare, was, key) <==> p.Top? && s.l.Nil? != s.r.Nil?
  {
    RootMatch(compare, p, s, key);
    Removed(compare, p, s);
    at := |Before(p) + InOrder(s.l)|;
    rest := (Before(p) + InOrder(s.l)) + (InOrder(s.r) + After(p));
  }

  lemma Located(compare: (Key, Key) -> int, p: Path, s: Shape, key: Key)
    requires TotalPreorder(compare) && Sorted(compare, InOrder(Zip(p, s)))
    requires s.Nil? ==> Between(compare, Before(p), key, After(p))
    requires s.Bin? ==> compare(key, s.k) == 0
    ensures Contains(compare, InOrder(Zip(p, s)), key) <==> s.Bin?
    ensures LosesBlackRoot(compare, Zip(p, s), key) <==> s.Bin? && p.Top? && s.l.Nil? != s.r.Nil?
    ensures s.Bin? ==> var es, at := InOrder(Zip(p, s)), |Before(p) + InOrder(s.l)|;
      && at < |es| && es[at] == (s.k, s.v)
      && (Before(p) + InOrder(s.l)) + (InOrder(s.r) + After(p)) == es[..at] + es[at + 1..]
      && Sorted(compare, es[..at] + es[at + 1..])
  {
    Found(compare, p, s, key);
    RootMatch(compare, p, s, key);
    if s.Bin? {
      Removed(compare, p, s);
    }
  }

  lemma RootOfTwo(t: RBTree, compare: (Key, Key) -> int)
    requires t.Valid(compare) && |InOrder(t.shape)| == 2
    ensures t.root != null && LosesBlackRoot(compare, t.shape, t.root.key)
  {
    OneChildRootHasTwoEntries(t.shape);
    assert Opposite(compare, t.root.key, t.root.key);
  }

  /** From any tree of two nodes, deleting the key at the root leaves a tree that fails verification. */
  method DeleteRootOfTwo(t: RBTree, compare: (Key, Key) -> int) returns (ok: bool)
    requires t.Valid(compare) && |InOrder(t.shape)| == 2
    modifies t, Nodes(t.shape)
    ensures !ok && !t.Valid(compare)
  {
    RootOfTwo(t, compare);
    ghost var at;
    ok, at := Delete(t, t.root.key, compare);
  }

  /** There are such trees: any two different keys make one. */
  method TwoNodes(a: Key, b: Key, v: Value, compare: (Key, Key) -> int) returns (t: RBTree)
    requires TotalPreorder(compare) && compare(b, a) != 0
    ensures t.Valid(compare) && |InOrder(t.shape)| == 2
  {
    t := new RBTree();
    var x := new Node(a, v);
    ghost var at := t.Insert(x, compare);
    assert InOrder(t.shape) == [(a, v)];
    var y := new Node(b, v);
    Allocated(t.shape);
    at := t.Insert(y, compare);
  }
}
