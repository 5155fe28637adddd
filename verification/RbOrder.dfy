// Search order, and the linked nodes seen as a tree value.
module RbOrder {
  import opened ServerTypes
  import opened RbShape

  // ---- binary search from a node ----

  ghost function Width(h: Shape, x: Node): nat
    requires h.Linked() && (x == h.nil || h.In(x))
  {
    if x == h.nil then 0 else assert h.At(x); h.Hi(x) - h.Lo(x)
  }

  ghost function Search(h: Shape, x: Node, k: int): (r: Node)
    requires h.Linked() && (x == h.nil || h.In(x))
    ensures r == h.nil || (h.In(r) && h.K(r) == k)
    decreases Width(h, x)
  {
    if x == h.nil || h.K(x) == k then x
    else
      assert h.At(x);
      if h.K(x) > k then
        assert h.L(x) == h.nil || h.At(h.L(x));
        Search(h, h.L(x), k)
      else
        assert h.R(x) == h.nil || h.At(h.R(x));
        Search(h, h.R(x), k)
  }

  ghost function Top(h: Shape): Node { h.L(h.root) }

  ghost function KeysOf(nodes: set<Node>): set<int> { set n | n in nodes :: n.key }

  lemma KeysOfMore(s: set<Node>, n: Node)
    ensures KeysOf(s + {n}) == KeysOf(s) + {n.key}
  {
  }

  ghost function Keys(h: Shape): set<int> { set n | n in h.cells && h.In(n) :: h.K(n) }

  // a search for any key in the interval of n passes through n
  lemma {:induction false} SearchPasses(h: Shape, n: Node, k: int)
    requires h.Linked() && h.In(n) && h.Lo(n) < k < h.Hi(n)
    ensures Search(h, Top(h), k) == Search(h, n, k)
    decreases KEY_LIMIT + 1 - Width(h, n)
  {
    assert h.At(n);
    var p := h.P(n);
    if p != h.root {
      assert h.At(p);
      SearchPasses(h, p, k);
    }
  }

  lemma SearchFinds(h: Shape, n: Node)
    requires h.Linked() && h.In(n)
    ensures Search(h, Top(h), h.K(n)) == n
  {
    assert h.At(n);
    SearchPasses(h, n, h.K(n));
  }

  lemma KeysDistinct(h: Shape, m: Node, n: Node)
    requires h.Linked() && h.In(m) && h.In(n) && h.K(m) == h.K(n)
    ensures m == n
  {
    SearchFinds(h, m);
    SearchFinds(h, n);
  }

  // y is the leftmost node below the right child of x: nothing lies between their keys
  lemma NoneBetween(h: Shape, x: Node, y: Node, n: Node)
    requires h.Linked() && h.In(x) && h.In(y) && h.In(n) && h.L(y) == h.nil
    requires h.Hi(y) <= h.Hi(x) && h.K(x) < h.K(n)
    requires forall k {:trigger Search(h, x, k)} :: h.K(x) < k <= h.K(y) ==> Search(h, x, k) == Search(h, y, k)
    ensures h.K(y) <= h.K(n)
  {
    assert h.At(x) && h.At(y);
    SearchFinds(h, n);
    if h.K(n) < h.K(y) {
      assert Search(h, x, h.K(n)) == Search(h, y, h.K(n));
      SearchPasses(h, x, h.K(n));
    }
  }

  // every key above that of x lies outside the subtree of c, so it is not below the left turn at y
  lemma NoneBelow(h: Shape, x: Node, c: Node, y: Node, n: Node)
    requires h.Linked() && h.In(x) && h.In(c) && h.In(n) && h.P(c) == y && c == h.L(y) && h.K(x) < h.K(n)
    requires h.Lo(c) < h.K(x)
    requires forall k {:trigger Search(h, c, k)} :: h.K(x) < k ==> Search(h, c, k) == h.nil
    ensures y != h.root && h.K(y) <= h.K(n)
  {
    assert h.At(c);
    SearchFinds(h, n);
    assert Search(h, c, h.K(n)) == h.nil;
    if y != h.root && h.K(n) < h.K(y) {
      assert h.At(y);
      SearchPasses(h, y, h.K(n));
    }
  }

  // ---- the tree as a value, and what it means to be a red-black tree ----

  ghost predicate Sorted(s: seq<int>) { forall i, j :: 0 <= i < j < |s| ==> s[i] < s[j] }

  ghost predicate Within(s: seq<int>, lo: int, hi: int) { forall i :: 0 <= i < |s| ==> lo < s[i] < hi }

  lemma SortedJoin(a: seq<int>, k: int, b: seq<int>, lo: int, hi: int)
    requires Sorted(a) && Sorted(b) && lo < k < hi && Within(a, lo, k) && Within(b, k, hi)
    ensures Sorted(a + [k] + b) && Within(a + [k] + b, lo, hi)
  {
    var s := a + [k] + b;
    assert forall i :: 0 <= i < |s| ==> s[i] == if i < |a| then a[i] else if i == |a| then k else b[i - |a| - 1];
  }

  datatype Tree = Leaf | Branch(left: Tree, key: int, red: bool, right: Tree) {
    ghost function InOrder(): seq<int> {
      if Leaf? then [] else left.InOrder() + [key] + right.InOrder()
    }

    ghost function Size(): nat { if Leaf? then 0 else left.Size() + 1 + right.Size() }

    ghost function Height(): nat {
      if Leaf? then 0 else 1 + if left.Height() > right.Height() then left.Height() else right.Height()
    }

    ghost predicate IsRed() { Branch? && red }

    // every path down to a leaf meets exactly b black nodes
    ghost predicate Blacks(b: int) {
      if Leaf? then b == 0
      else left.Blacks(if red then b else b - 1) && right.Blacks(if red then b else b - 1)
    }

    ghost predicate NoRedRed() {
      Branch? ==> left.NoRedRed() && right.NoRedRed() && (red ==> !left.IsRed() && !right.IsRed())
    }

    ghost predicate RedBlack() {
      !IsRed() && NoRedRed() && (exists b: nat :: Blacks(b)) && Sorted(InOrder())
    }
  }

  ghost function TreeOf(h: Shape, x: Node): Tree
    requires h.Linked() && (x == h.nil || h.In(x))
    decreases Width(h, x)
  {
    if x == h.nil then Leaf
    else
      assert h.At(x);
      assert h.L(x) == h.nil || h.At(h.L(x));
      assert h.R(x) == h.nil || h.At(h.R(x));
      Branch(TreeOf(h, h.L(x)), h.K(x), h.Red(x), TreeOf(h, h.R(x)))
  }

  lemma {:induction false} TreeSorted(h: Shape, x: Node)
    requires h.Linked() && (x == h.nil || h.In(x))
    ensures Sorted(TreeOf(h, x).InOrder()) && (x != h.nil ==> Within(TreeOf(h, x).InOrder(), h.Lo(x), h.Hi(x)))
    decreases Width(h, x)
  {
    if x != h.nil {
      var l, r := h.L(x), h.R(x);
      assert h.At(x);
      assert l == h.nil || h.At(l);
      assert r == h.nil || h.At(r);
      TreeSorted(h, l);
      TreeSorted(h, r);
      SortedJoin(TreeOf(h, l).InOrder(), h.K(x), TreeOf(h, r).InOrder(), h.Lo(x), h.Hi(x));
    }
  }

  lemma {:induction false} TreeHolds(h: Shape, x: Node, k: int)
    requires h.Linked() && (x == h.nil || h.In(x))
    ensures k in TreeOf(h, x).InOrder() <==> Search(h, x, k) != h.nil
    decreases Width(h, x)
  {
    if x != h.nil {
      assert h.At(x);
      assert h.L(x) == h.nil || h.At(h.L(x));
      assert h.R(x) == h.nil || h.At(h.R(x));
      TreeHolds(h, h.L(x), k);
      TreeHolds(h, h.R(x), k);
      TreeSorted(h, h.L(x));
      TreeSorted(h, h.R(x));
    }
  }

  lemma {:induction false} TreeBlacks(h: Shape, x: Node)
    requires h.Linked() && h.Balanced() && (x == h.nil || h.In(x))
    ensures TreeOf(h, x).Blacks(h.Bh(x)) && TreeOf(h, x).NoRedRed() && TreeOf(h, x).IsRed() == h.Red(x) && h.Bh(x) >= 0
    decreases Width(h, x)
  {
    if x != h.nil {
      assert h.At(x) && h.Tip(x);
      var l, r := h.L(x), h.R(x);
      if l != h.nil { assert h.At(l) && h.Bal(l) && h.RedOk(l); }
      if r != h.nil { assert h.At(r) && h.Bal(r) && h.RedOk(r); }
      TreeBlacks(h, l);
      TreeBlacks(h, r);
    }
  }

  // local links, colours and black heights give a red-black search tree over exactly the stored keys
  lemma ShapeIsRedBlackTree(h: Shape)
    requires h.Linked() && h.Balanced()
    ensures TreeOf(h, Top(h)).RedBlack()
    ensures forall k :: k in TreeOf(h, Top(h)).InOrder() <==> k in Keys(h)
  {
    var t := Top(h);
    TreeSorted(h, t);
    TreeBlacks(h, t);
    forall k ensures k in TreeOf(h, t).InOrder() <==> k in Keys(h) {
      TreeHolds(h, t, k);
      if k in Keys(h) {
        var n :| n in h.cells && h.In(n) && h.K(n) == k;
        SearchFinds(h, n);
      }
    }
  }

  // ---- balance ----

  ghost function Pow2(n: nat): nat { if n == 0 then 1 else 2 * Pow2(n - 1) }

  lemma {:induction false} BlacksNonNegative(t: Tree, b: int)
    requires t.Blacks(b)
    ensures b >= 0
  {
    if t.Branch? { BlacksNonNegative(t.left, if t.red then b else b - 1); }
  }

  lemma {:induction false} BlackHeightBound(t: Tree, b: nat)
    requires t.Blacks(b)
    ensures Pow2(b) <= t.Size() + 1
  {
    if t.Branch? {
      var c := if t.red then b else b - 1;
      BlacksNonNegative(t.left, c);
      BlackHeightBound(t.left, c);
      BlackHeightBound(t.right, c);
    }
  }

  lemma {:induction false} HeightBound(t: Tree, b: nat)
    requires t.Blacks(b) && t.NoRedRed()
    ensures t.Height() <= 2 * b + (if t.IsRed() then 1 else 0)
  {
    if t.Branch? {
      var c := if t.red then b else b - 1;
      BlacksNonNegative(t.left, c);
      HeightBound(t.left, c);
      HeightBound(t.right, c);
    }
  }

  lemma {:induction false} Pow2Adds(m: nat, n: nat)
    ensures Pow2(m + n) == Pow2(m) * Pow2(n)
  {
    if m > 0 { Pow2Adds(m - 1, n); }
  }

  lemma {:induction false} Pow2Monotone(m: nat, n: nat)
    requires m <= n
    ensures Pow2(m) <= Pow2(n)
  {
    if m < n { Pow2Monotone(m, n - 1); }
  }

  lemma SquareMonotone(m: nat, n: nat)
    requires m <= n
    ensures m * m <= n * n
  {
    assert m * m <= m * n <= n * n;
  }

  // height <= 2 * log2(size + 1)
  lemma LogarithmicHeight(t: Tree)
    requires t.RedBlack()
    ensures Pow2(t.Height()) <= (t.Size() + 1) * (t.Size() + 1)
  {
    var b: nat :| t.Blacks(b);
    BlackHeightBound(t, b);
    HeightBound(t, b);
    Pow2Monotone(t.Height(), 2 * b);
    Pow2Adds(b, b);
    SquareMonotone(Pow2(b), t.Size() + 1);
    assert b + b == 2 * b;
  }

  lemma {:induction false} SizeIsCount(t: Tree)
    ensures |t.InOrder()| == t.Size()
  {
    if t.Branch? { SizeIsCount(t.left); SizeIsCount(t.right); }
  }

  lemma {:induction false} DistinctCount(s: seq<int>, elems: set<int>)
    requires Sorted(s)
    requires forall k :: k in s <==> k in elems
    ensures |s| == |elems|
  {
    if s == [] {
      assert forall k :: k in elems ==> k in s;
      assert elems == {};
    } else {
      var last := s[|s| - 1];
      var rest := s[..|s| - 1];
      assert s == rest + [last];
      DistinctCount(rest, elems - {last});
      assert last in elems;
    }
  }

  // the number of nodes a search from x visits
  ghost function Visits(h: Shape, x: Node, k: int): nat
    requires h.Linked() && (x == h.nil || h.In(x))
    decreases Width(h, x)
  {
    if x == h.nil then 0
    else if h.K(x) == k then 1
    else
      assert h.At(x);
      if h.K(x) > k then
        assert h.L(x) == h.nil || h.At(h.L(x));
        1 + Visits(h, h.L(x), k)
      else
        assert h.R(x) == h.nil || h.At(h.R(x));
        1 + Visits(h, h.R(x), k)
  }

  lemma {:induction false} VisitsWithinHeight(h: Shape, x: Node, k: int)
    requires h.Linked() && (x == h.nil || h.In(x))
    ensures Visits(h, x, k) <= TreeOf(h, x).Height()
    decreases Width(h, x)
  {
    if x != h.nil {
      assert h.At(x);
      assert h.L(x) == h.nil || h.At(h.L(x));
      assert h.R(x) == h.nil || h.At(h.R(x));
      VisitsWithinHeight(h, h.L(x), k);
      VisitsWithinHeight(h, h.R(x), k);
    }
  }

  // at most 2 * log2(n + 1) nodes are visited on n keys
  lemma SearchIsLogarithmic(h: Shape, k: int)
    requires h.Linked() && h.Balanced()
    ensures Pow2(Visits(h, Top(h), k)) <= (|Keys(h)| + 1) * (|Keys(h)| + 1)
  {
    var t := TreeOf(h, Top(h));
    ShapeIsRedBlackTree(h);
    LogarithmicHeight(t);
    VisitsWithinHeight(h, Top(h), k);
    Pow2Monotone(Visits(h, Top(h), k), t.Height());
    SizeIsCount(t);
    DistinctCount(t.InOrder(), Keys(h));
  }
}
