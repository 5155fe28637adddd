// Adding a leaf, splicing a node out, and putting one node in another's place.
module RbEdit {
  import opened ServerTypes
  import opened RbShape
  import opened RbOrder

  // ---- insertion: ghost intervals on the search path, then the new leaf ----

  // the interval the link from y allows for a key hung on its left or right
  ghost function RoomLo(h: Shape, y: Node, left: bool): int
      { if y == h.root then -1 else if left then h.Lo(y) else h.K(y) }
  ghost function RoomHi(h: Shape, y: Node, left: bool): int
      { if y == h.root then KEY_LIMIT else if left then h.K(y) else h.Hi(y) }
  ghost function Kid(h: Shape, y: Node, left: bool): Node { if left then h.L(y) else h.R(y) }

  ghost function Widened(h: Shape, x: Node, lo: int, hi: int): Shape {
    if x in h.cells then h.(cells := h.cells[x := h.cells[x].(lo := lo, hi := hi)]) else h
  }

  lemma WidenedAtSelf(h: Shape, x: Node, y: Node, left: bool)
    requires h.Linked() && (h.In(y) || (y == h.root && left)) && Kid(h, y, left) == x && h.In(x) && h.P(x) == y
    ensures Widened(h, x, RoomLo(h, y, left), RoomHi(h, y, left)).At(x)
  {
    h.Around(x);
    assert h.At(x);
    if y != h.root { h.Around(y); assert h.At(y); }
  }

  lemma WidenedAt(h: Shape, x: Node, y: Node, left: bool, n: Node)
    requires h.Linked() && (h.In(y) || (y == h.root && left)) && Kid(h, y, left) == x && h.In(x) && h.P(x) == y
    requires h.In(n) && n != x
    ensures Widened(h, x, RoomLo(h, y, left), RoomHi(h, y, left)).At(n)
  {
    h.Around(x); h.Around(n);
    assert h.At(n);
    if n == y {
      h.Around(y);
    } else {
      assert h.L(n) != x && h.R(n) != x;
    }
  }

  lemma WidenedLinked(h: Shape, x: Node, y: Node, left: bool)
    requires h.Linked() && (h.In(y) || (y == h.root && left)) && Kid(h, y, left) == x && x != h.nil
    ensures h.In(x) && h.P(x) == y
    ensures Widened(h, x, RoomLo(h, y, left), RoomHi(h, y, left)).Linked()
  {
    if y != h.root { h.Around(y); assert h.At(y); }
    var g := Widened(h, x, RoomLo(h, y, left), RoomHi(h, y, left));
    h.Around(x);
    forall n | n in g.cells && n != g.root && n != g.nil ensures g.At(n) {
      if n == x { WidenedAtSelf(h, x, y, left); } else { WidenedAt(h, x, y, left, n); }
    }
  }

  lemma WidenedKeepsColours(h: Shape, x: Node, lo: int, hi: int)
    requires h.Balanced()
    ensures Widened(h, x, lo, hi).Balanced()
  {
    var g := Widened(h, x, lo, hi);
    forall n | n in g.cells && g.In(n) ensures g.Bal(n) && g.Tip(n) && g.RedOk(n) {
      assert h.Bal(n) && h.Tip(n) && h.RedOk(n);
    }
  }

  lemma WidenedKeepsKeys(h: Shape, x: Node, lo: int, hi: int)
    ensures Keys(Widened(h, x, lo, hi)) == Keys(h)
  {
    var g := Widened(h, x, lo, hi);
    assert g.cells.Keys == h.cells.Keys;
    assert forall n :: n in h.cells ==> g.K(n) == h.K(n) && g.In(n) == h.In(n);
  }

  ghost function Hung(h: Shape, z: Node, key: int, y: Node, left: bool): Shape
  {
    var c := Cell(key, h.nil, h.nil, y, true, RoomLo(h, y, left), RoomHi(h, y, left), 0);
    if y in h.cells then
      h.(cells := h.cells[y := if left then h.cells[y].(left := z) else h.cells[y].(right := z)][z := c])
    else h
  }

  lemma HungAt(h: Shape, z: Node, key: int, y: Node, left: bool, n: Node)
    requires h.Linked() && (h.In(y) || (y == h.root && left)) && Kid(h, y, left) == h.nil && z !in h.cells
    requires h.In(n) && n != y
    ensures Hung(h, z, key, y, left).At(n)
  {
    assert h.At(n);
    h.Around(n);
  }

  lemma HungAtParent(h: Shape, z: Node, key: int, y: Node, left: bool)
    requires h.Linked() && h.In(y) && Kid(h, y, left) == h.nil && z !in h.cells
    requires RoomLo(h, y, left) < key < RoomHi(h, y, left)
    ensures Hung(h, z, key, y, left).At(y)
  {
    assert h.At(y);
    h.Around(y);
  }

  lemma HungLinked(h: Shape, z: Node, key: int, y: Node, left: bool)
    requires h.Linked() && (h.In(y) || (y == h.root && left)) && Kid(h, y, left) == h.nil && z !in h.cells
    requires RoomLo(h, y, left) < key < RoomHi(h, y, left)
    ensures Hung(h, z, key, y, left).Linked()
  {
    var g := Hung(h, z, key, y, left);
    if y != h.root { h.Around(y); assert h.At(y); }
    forall n | n in g.cells && n != g.root && n != g.nil ensures g.At(n) {
      if n == z { } else if n == y { HungAtParent(h, z, key, y, left); } else { HungAt(h, z, key, y, left, n); }
    }
  }

  lemma HungRed(h: Shape, z: Node, key: int, y: Node, left: bool)
    requires h.Linked() && h.Balanced()
    requires (h.In(y) || (y == h.root && left)) && Kid(h, y, left) == h.nil && z !in h.cells
    requires RoomLo(h, y, left) < key < RoomHi(h, y, left)
    ensures Hung(h, z, key, y, left).RedAt(z)
  {
    var g := Hung(h, z, key, y, left);
    HungLinked(h, z, key, y, left);
    if y != h.root { h.Around(y); assert h.Tip(y); }
    forall n | n in g.cells && g.In(n) ensures g.Bal(n) && g.Tip(n) && (n != z ==> g.RedOk(n)) {
      if n != z {
        assert h.Bal(n) && h.Tip(n) && h.RedOk(n);
        assert h.At(n);
      }
    }
  }

  // ---- deletion: a node with at most one child is spliced out ----

  ghost function OnlyChild(h: Shape, y: Node): Node { if h.L(y) == h.nil then h.R(y) else h.L(y) }

  ghost function Spliced(h: Shape, y: Node): Shape {
    var x := OnlyChild(h, y); var p := h.P(y);
    h.(cells := map n | n in h.cells && n != y ::
      var c := h.cells[n];
      if n == x then c.(parent := p)
      else if n == p then if p == h.root || c.left == y then c.(left := x) else c.(right := x)
      else c)
  }

  lemma SplicedAtChild(h: Shape, y: Node)
    requires h.Linked() && h.In(y) && h.Tipped(y) && OnlyChild(h, y) != h.nil
    ensures Spliced(h, y).At(OnlyChild(h, y))
  {
    var g := Spliced(h, y); var x := OnlyChild(h, y); var p := h.P(y);
    h.Around(y); h.Around(x);
    assert h.At(y) && h.At(x);
    if p != h.root { h.Around(p); assert h.At(p); }
    assert g.P(x) == p && (g.L(p) == x || g.R(p) == x);
    if h.L(x) != h.nil { h.Around(h.L(x)); }
    if h.R(x) != h.nil { h.Around(h.R(x)); }
  }

  lemma SplicedAtParent(h: Shape, y: Node)
    requires h.Linked() && h.In(y) && h.Tipped(y) && h.P(y) != h.root
    ensures Spliced(h, y).At(h.P(y))
  {
    var g := Spliced(h, y); var x := OnlyChild(h, y); var p := h.P(y);
    h.Around(y);
    assert h.At(y) && h.At(p);
    h.Around(p);
    if x != h.nil { h.Around(x); assert h.At(x); }
    assert g.P(p) == h.P(p);
  }

  lemma SplicedAtOther(h: Shape, y: Node, n: Node)
    requires h.Linked() && h.In(y) && h.Tipped(y) && h.In(n) && n != y && n != OnlyChild(h, y) && n != h.P(y)
    ensures Spliced(h, y).At(n)
  {
    var g := Spliced(h, y); var x := OnlyChild(h, y);
    h.Around(y); h.Around(n);
    assert h.At(y) && h.At(n);
    if x != h.nil { h.Around(x); }
    assert g.cells[n] == h.cells[n];
    var l := h.L(n); var r := h.R(n);
    if l != h.nil { assert l != y && l != x; assert g.P(l) == n && g.Lo(l) == h.Lo(l) && g.Hi(l) == h.Hi(l); }
    if r != h.nil { assert r != y && r != x; assert g.P(r) == n && g.Lo(r) == h.Lo(r) && g.Hi(r) == h.Hi(r); }
    assert h.P(n) != y && h.P(n) in g.cells;
  }

  lemma SplicedLinked(h: Shape, y: Node)
    requires h.Linked() && h.In(y) && h.Tipped(y)
    ensures Spliced(h, y).Linked()
    ensures Spliced(h, y).P(OnlyChild(h, y)) == h.P(y) && h.P(y) in Spliced(h, y).cells
  {
    var g := Spliced(h, y); var x := OnlyChild(h, y); var p := h.P(y);
    h.Around(y);
    assert h.At(y);
    if x != h.nil { h.Around(x); assert h.At(x); }
    if p != h.root { h.Around(p); assert h.At(p); }
    forall n | n in g.cells && n != g.root && n != g.nil ensures g.At(n) {
      if n == x { SplicedAtChild(h, y); } else if n == p { SplicedAtParent(h, y); } else { SplicedAtOther(h, y, n); }
    }
  }

  lemma {:induction false} HeightsNonNegative(h: Shape, n: Node)
    requires h.Linked() && h.Balanced() && (h.In(n) || n == h.nil)
    ensures h.Bh(n) >= 0
    decreases if n == h.nil then 0 else h.Hi(n) - h.Lo(n)
  {
    if n != h.nil {
      assert h.At(n) && h.Tip(n);
      if h.L(n) != h.nil { assert h.At(h.L(n)) && h.Bal(h.L(n)); HeightsNonNegative(h, h.L(n)); }
    }
  }

  // colours and heights of the remaining nodes, apart from the edge above the spliced node's child
  lemma SplicedColours(h: Shape, y: Node, n: Node)
    requires h.Linked() && h.Balanced() && h.In(y) && h.Tipped(y) && h.In(n) && n != y && n != OnlyChild(h, y)
    ensures var g := Spliced(h, y); g.Bal(n) && g.RedOk(n)
  {
    h.Around(y); h.Around(n);
    assert h.Bal(n) && h.RedOk(n);
    assert h.P(n) != y;
    if OnlyChild(h, y) != h.nil { h.Around(OnlyChild(h, y)); }
  }

  lemma SplicedTips(h: Shape, y: Node, n: Node)
    requires h.Linked() && h.Balanced() && h.In(y) && h.Tipped(y) && h.In(n) && n != y && n != OnlyChild(h, y)
    ensures n != h.P(y) || OnlyChild(h, y) != h.nil || h.Red(y) ==> Spliced(h, y).Tip(n)
  {
    h.Around(y); h.Around(n);
    assert h.Tip(n) && h.Bal(y) && h.Tip(y);
  }

  lemma SplicedChildColours(h: Shape, y: Node)
    requires h.Linked() && h.Balanced() && h.In(y) && h.Tipped(y) && OnlyChild(h, y) != h.nil
    ensures var g := Spliced(h, y); var x := OnlyChild(h, y); g.Tip(x) && (h.Red(y) ==> g.Bal(x) && g.RedOk(x))
  {
    var x := OnlyChild(h, y); var p := h.P(y);
    h.Around(y); h.Around(x);
    assert h.Bal(x) && h.RedOk(x) && h.Tip(x) && h.Bal(y) && h.RedOk(y);
  }

  lemma SplicedRed(h: Shape, y: Node)
    requires h.Linked() && h.Balanced() && h.In(y) && h.Tipped(y) && h.Red(y)
    ensures Spliced(h, y).Balanced()
  {
    var g := Spliced(h, y);
    h.Around(y);
    h.NonEmpty(y);
    forall n | n in g.cells && g.In(n) ensures g.Bal(n) && g.Tip(n) && g.RedOk(n) {
      if n == OnlyChild(h, y) { SplicedChildColours(h, y); } else { SplicedColours(h, y, n); SplicedTips(h, y, n); }
    }
  }

  lemma SplicedParent(h: Shape, y: Node)
    requires h.Linked() && h.In(y) && h.Tipped(y)
    ensures Spliced(h, y).P(OnlyChild(h, y)) == h.P(y)
  {
    h.Around(y);
  }

  lemma SplicedBlack(h: Shape, y: Node)
    requires h.Linked() && h.Balanced() && h.In(y) && h.Tipped(y) && !h.Red(y)
    ensures Spliced(h, y).Short(OnlyChild(h, y), h.P(y))
  {
    var g := Spliced(h, y); var x := OnlyChild(h, y); var p := h.P(y);
    SplicedLinked(h, y);
    h.Around(y);
    assert h.At(y) && h.Bal(y) && h.Tip(y);
    h.NonEmpty(y);
    HeightsNonNegative(h, x);
    if x != h.nil { h.Around(x); assert h.Bal(x); }
    if p != h.root { h.Around(p); h.NonEmpty(p); assert h.Tip(p); }
    forall n | n in g.cells && g.In(n)
      ensures (n != x ==> g.Bal(n)) && (n != p || x != h.nil ==> g.Tip(n)) && (n != x ==> g.RedOk(n))
    {
      if n == OnlyChild(h, y) { SplicedChildColours(h, y); } else { SplicedColours(h, y, n); SplicedTips(h, y, n); }
    }
  }

  // ---- deletion: y takes over the place of z ----

  // labels move past the gap between the two keys
  ghost function LiftLo(v: int, kz: int, k: int): int { if kz <= v < k then k else v }
  ghost function LiftHi(v: int, kz: int, k: int): int { if kz < v <= k then k + 1 else v }

  ghost function Lifted(h: Shape, kz: int, k: int): Shape {
    h.(cells := map n | n in h.cells ::
      h.cells[n].(lo := LiftLo(h.cells[n].lo, kz, k), hi := LiftHi(h.cells[n].hi, kz, k)))
  }

  ghost function Swapped(h: Shape, z: Node, y: Node, k: int): Shape {
    if z !in h.cells then h else
    h.(cells := map n | n in h.cells.Keys - {z} + {y} ::
      if n == y then h.cells[z].(key := k)
      else
        var c := h.cells[n];
        if n == h.L(z) || n == h.R(z) then c.(parent := y)
        else if n == h.P(z) then if c.left == z then c.(left := y) else c.(right := y)
        else c)
  }

  ghost function Replaced(h: Shape, z: Node, y: Node, k: int): Shape {
    Swapped(Lifted(h, h.K(z), k), z, y, k)
  }

  // k lies above the key of z with no other key in between
  ghost predicate Successor(h: Shape, z: Node, y: Node, k: int) {
    && h.Linked() && h.In(z) && y !in h.cells && h.K(z) < k < KEY_LIMIT
    && forall n {:trigger h.K(n)} :: n in h.cells && h.In(n) && n != z && h.K(n) > h.K(z) ==> h.K(n) > k
  }

  lemma LiftedAt(h: Shape, z: Node, y: Node, k: int, n: Node)
    requires Successor(h, z, y, k) && h.In(n)
    ensures Lifted(h, h.K(z), k).At(n)
  {
    h.Around(n);
    assert h.At(n);
    assert h.K(n) > h.K(z) && n != z ==> h.K(n) > k;
  }

  lemma LiftedSuccessor(h: Shape, z: Node, y: Node, k: int)
    requires Successor(h, z, y, k)
    ensures var g := Lifted(h, h.K(z), k);
            Successor(g, z, y, k) && k < g.Hi(z) && (h.R(z) != h.nil ==> k <= g.Lo(h.R(z)))
  {
    var g := Lifted(h, h.K(z), k);
    forall n | n in g.cells && n != g.root && n != g.nil ensures g.At(n) {
      LiftedAt(h, z, y, k, n);
    }
    h.Around(z);
    assert h.At(z);
    forall n | n in g.cells && g.In(n) && n != z && g.K(n) > g.K(z) ensures g.K(n) > k {
      assert h.K(n) > h.K(z);
    }
  }

  lemma SwappedAtNew(h: Shape, z: Node, y: Node, k: int)
    requires Successor(h, z, y, k) && k < h.Hi(z) && (h.R(z) != h.nil ==> k <= h.Lo(h.R(z)))
    ensures Swapped(h, z, y, k).At(y)
  {
    h.Around(z);
    assert h.At(z);
    if h.P(z) != h.root { h.Around(h.P(z)); }
    if h.L(z) != h.nil { h.Around(h.L(z)); }
    if h.R(z) != h.nil { h.Around(h.R(z)); }
  }

  lemma Grandchild(h: Shape, z: Node, n: Node, l: Node)
    requires h.Linked() && h.In(z) && h.In(n) && h.In(l) && h.P(n) == z && h.P(l) == n
    ensures l != z && l != h.P(z) && l != h.L(z) && l != h.R(z)
  {
    h.Around(z); h.Around(n); h.Around(l);
    assert h.At(z) && h.At(n) && h.At(l);
    if h.P(z) != h.root { assert h.At(h.P(z)); }
  }

  lemma SwappedAtChild(h: Shape, z: Node, y: Node, k: int, n: Node)
    requires Successor(h, z, y, k) && n != h.nil && (n == h.L(z) || n == h.R(z))
    requires n == h.R(z) ==> k <= h.Lo(n)
    ensures Swapped(h, z, y, k).At(n)
  {
    var g := Swapped(h, z, y, k);
    h.Around(z); h.Around(n);
    assert h.At(z) && h.At(n);
    var l := h.L(n); var r := h.R(n);
    if l != h.nil { Grandchild(h, z, n, l); assert g.cells[l] == h.cells[l]; }
    if r != h.nil { Grandchild(h, z, n, r); assert g.cells[r] == h.cells[r]; }
    assert g.cells[n] == h.cells[n].(parent := y) && g.cells[y] == h.cells[z].(key := k);
  }

  lemma SwappedAtParent(h: Shape, z: Node, y: Node, k: int)
    requires Successor(h, z, y, k) && h.P(z) != h.root && k < h.Hi(z)
    ensures Swapped(h, z, y, k).At(h.P(z))
  {
    var g := Swapped(h, z, y, k);
    var p := h.P(z);
    h.Around(z);
    assert h.At(z) && h.At(p);
    h.Around(p);
    var o := if h.L(p) == z then h.R(p) else h.L(p);
    if o != h.nil { h.Around(o); assert g.cells[o] == h.cells[o]; }
    assert g.P(p) == h.P(p);
    assert g.P(y) == p && g.Lo(y) == h.Lo(z) && g.Hi(y) == h.Hi(z);
    SwappedAbove(h, z, y, k, h.P(p));
  }

  lemma SwappedAbove(h: Shape, z: Node, y: Node, k: int, pp: Node)
    requires Successor(h, z, y, k) && h.P(z) != h.root && h.P(h.P(z)) == pp
    ensures var g := Swapped(h, z, y, k); g.L(pp) == h.L(pp) && g.R(pp) == h.R(pp)
  {
    h.Around(z);
    h.Around(h.P(z));
    assert h.At(z) && h.At(h.P(z));
    if pp != h.root { h.Around(pp); assert h.At(pp); }
    assert pp != z && pp != y;
  }

  lemma SwappedAtOther(h: Shape, z: Node, y: Node, k: int, n: Node)
    requires Successor(h, z, y, k) && h.In(n) && n != z && n != h.L(z) && n != h.R(z) && n != h.P(z)
    ensures Swapped(h, z, y, k).At(n)
  {
    var g := Swapped(h, z, y, k);
    h.Around(z); h.Around(n);
    assert h.At(n);
    assert g.cells[n] == h.cells[n];
    var l := h.L(n); var r := h.R(n);
    if l != h.nil { assert l != z && l != h.L(z) && l != h.R(z);
        assert g.P(l) == n && g.Lo(l) == h.Lo(l) && g.Hi(l) == h.Hi(l); }
    if r != h.nil { assert r != z && r != h.L(z) && r != h.R(z);
        assert g.P(r) == n && g.Lo(r) == h.Lo(r) && g.Hi(r) == h.Hi(r); }
    assert h.P(n) != z;
  }

  lemma SwappedLinked(h: Shape, z: Node, y: Node, k: int)
    requires Successor(h, z, y, k) && k < h.Hi(z) && (h.R(z) != h.nil ==> k <= h.Lo(h.R(z)))
    ensures Swapped(h, z, y, k).Linked()
  {
    var g := Swapped(h, z, y, k);
    h.Around(z);
    assert h.At(z);
    forall n | n in g.cells && n != g.root && n != g.nil ensures g.At(n) {
      if n == y { SwappedAtNew(h, z, y, k); }
      else if n == h.L(z) || n == h.R(z) { SwappedAtChild(h, z, y, k, n); }
      else if n == h.P(z) { SwappedAtParent(h, z, y, k); }
      else { SwappedAtOther(h, z, y, k, n); }
    }
  }

  lemma ReplacedLinked(h: Shape, z: Node, y: Node, k: int)
    requires Successor(h, z, y, k)
    ensures Replaced(h, z, y, k).Linked()
  {
    LiftedSuccessor(h, z, y, k);
    SwappedLinked(Lifted(h, h.K(z), k), z, y, k);
  }

  lemma SwappedColours(h: Shape, z: Node, y: Node, k: int, n: Node)
    requires Successor(h, z, y, k) && h.Balanced() && Swapped(h, z, y, k).In(n)
    ensures var g := Swapped(h, z, y, k); g.Bal(n) && g.Tip(n) && g.RedOk(n)
  {
    var g := Swapped(h, z, y, k);
    var m := if n == y then z else n;
    h.Around(z); h.Around(m);
    assert h.Bal(m) && h.Tip(m) && h.RedOk(m);
    assert g.Bh(n) == h.Bh(m) && g.Red(n) == h.Red(m);
    assert g.P(n) == if h.P(m) == z then y else h.P(m);
    assert g.Tipped(n) == h.Tipped(m);
  }

  lemma SwappedBalanced(h: Shape, z: Node, y: Node, k: int)
    requires Successor(h, z, y, k) && h.Balanced()
    ensures Swapped(h, z, y, k).Balanced()
  {
    var g := Swapped(h, z, y, k);
    h.Around(z);
    assert h.At(z);
    forall n | n in g.cells && g.In(n) ensures g.Bal(n) && g.Tip(n) && g.RedOk(n) {
      SwappedColours(h, z, y, k, n);
    }
  }

  lemma ReplacedColours(h: Shape, z: Node, y: Node, k: int)
    requires Successor(h, z, y, k) && h.Balanced()
    ensures Replaced(h, z, y, k).Balanced()
  {
    var l := Lifted(h, h.K(z), k);
    forall n | n in l.cells && l.In(n) ensures l.Bal(n) && l.Tip(n) && l.RedOk(n) {
      assert h.Bal(n) && h.Tip(n) && h.RedOk(n);
    }
    LiftedSuccessor(h, z, y, k);
    SwappedBalanced(l, z, y, k);
  }
}
