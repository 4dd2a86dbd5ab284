/**
  The run-time checks of project/common/src/rbtree.cpp, lines 62-139.

  Each check returns false where the source's assert would abort, and skips what
  the source would no longer reach.
*/
module RedBlackVerify {
  import opened RedBlackShape

  function NodeColor(n: Node?): Color
    reads n
  {
    if n == null then Black else n.color
  }

  /** Some way from this subtree's root down to a null meets exactly `x` black nodes. */
  predicate HasPath(s: Shape, x: int) {
    if s.Nil? then x == 1
    else HasPath(s.l, x - Weight(s.c)) || HasPath(s.r, x - Weight(s.c))
  }

  ghost predicate EqualCounts(s: Shape) {
    forall x: int, y: int :: HasPath(s, x) && HasPath(s, y) ==> x == y
  }

  /** Balanced is property 5 as stated: no two ways down differ in their black nodes. */
  lemma BalancedIsEqualCounts(s: Shape)
    ensures Balanced(s) <==> EqualCounts(s)
  {
    if Balanced(s) {
      forall x: int, y: int | HasPath(s, x) && HasPath(s, y) ensures x == y {
        CountOfBalanced(s, x);
        CountOfBalanced(s, y);
      }
    }
    SomeCount(s);
    if EqualCounts(s) {
      BalancedByCounts(s);
    }
  }

  lemma {:induction false} CountOfBalanced(s: Shape, x: int)
    requires Balanced(s) && HasPath(s, x)
    ensures x == BlackHeight(s)
  {
    if s.Bin? {
      if HasPath(s.l, x - Weight(s.c)) {
        CountOfBalanced(s.l, x - Weight(s.c));
      } else {
        CountOfBalanced(s.r, x - Weight(s.c));
      }
    }
  }

  lemma {:induction false} SomeCount(s: Shape)
    ensures HasPath(s, BlackHeight(s))
  {
    if s.Bin? {
      SomeCount(s.l);
    }
  }

  lemma {:induction false} BalancedByCounts(s: Shape)
    requires forall x: int :: HasPath(s, x) ==> x == BlackHeight(s)
    ensures Balanced(s)
  {
    if s.Bin? {
      forall x: int | HasPath(s.l, x) || HasPath(s.r, x) ensures x == BlackHeight(s.l) {
        assert HasPath(s, x + Weight(s.c));
      }
      SomeCount(s.r);
      BalancedByCounts(s.l);
      BalancedByCounts(s.r);
    }
  }

  method VerifyProperty5Helper(n: Node?, blackCount: nat, pathCount: int, ghost s: Shape, ghost up: Node?)
    returns (pathCount': int, ok: bool)
    requires Rep(s, n, up) && pathCount >= -1
    ensures ok <==> Balanced(s) && (pathCount >= 0 ==> pathCount == blackCount + BlackHeight(s))
    ensures ok ==> pathCount' == blackCount + BlackHeight(s)
    decreases s
  {
    var black := if NodeColor(n) == Black then blackCount + 1 else blackCount;
    if n == null {
      if pathCount == -1 {
        return black, true;
      } else {
        return pathCount, black == pathCount;
      }
    }
    Allocated(s.r);
    assert Rep(s.l, n.left, n) && Rep(s.r, n.right, n);
    pathCount', ok := VerifyProperty5Helper(n.left, black, pathCount, s.l, n);
    if ok {
      pathCount', ok := VerifyProperty5Helper(n.right, black, pathCount', s.r, n);
    }
  }

  method VerifyProperty4(n: Node?, ghost s: Shape, ghost up: Node?) returns (ok: bool)
    requires Rep(s, n, up)
    ensures ok <==> NoRedRed(s) && (ColorOf(s).Red? ==> NodeColor(up).Black?)
    decreases s
  {
    if n == null {
      return true;
    }
    Allocated(s.r);
    assert Rep(s.l, n.left, n) && Rep(s.r, n.right, n);
    if NodeColor(n) == Red {
      if NodeColor(n.left) != Black || NodeColor(n.right) != Black || NodeColor(n.parent) != Black {
        return false;
      }
    }
    ok := VerifyProperty4(n.left, s.l, n);
    if ok {
      ok := VerifyProperty4(n.right, s.r, n);
    }
  }

  /** verify_properties passes exactly on red-black trees. */
  method VerifyProperties(root: Node?, ghost s: Shape) returns (ok: bool)
    requires Rep(s, root, null)
    ensures ok <==> RedBlack(s)
  {
    Allocated(s);
    ok := NodeColor(root) == Black;
    if ok {
      ok := VerifyProperty4(root, s, null);
    }
    if ok {
      var _, balanced := VerifyProperty5Helper(root, 0, -1, s, null);
      ok := balanced;
    }
  }
}
