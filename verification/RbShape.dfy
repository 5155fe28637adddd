// A red-black tree as a value: what every node points to, the interval its keys lie in, its black height.
module RbShape {
  import opened ServerTypes

  const KEY_LIMIT: int := 0x1_0000_0000

  datatype Cell = Cell(key: int, left: Node, right: Node, parent: Node, red: bool, lo: int, hi: int, bh: int)

  datatype Shape = Shape(cells: map<Node, Cell>, root: Node, nil: Node) {
    ghost function L(n: Node): Node { if n in cells then cells[n].left else nil }
    ghost function R(n: Node): Node { if n in cells then cells[n].right else nil }
    ghost function P(n: Node): Node { if n in cells then cells[n].parent else root }
    ghost function K(n: Node): int { if n in cells then cells[n].key else 0 }
    ghost function Lo(n: Node): int { if n in cells then cells[n].lo else 0 }
    ghost function Hi(n: Node): int { if n in cells then cells[n].hi else 0 }
    ghost function Bh(n: Node): int { if n in cells then cells[n].bh else 0 }
    ghost predicate Red(n: Node) { n in cells && cells[n].red }
    ghost predicate In(n: Node) { n in cells && n != root && n != nil }

    ghost function Names(): set<Node> { cells.Keys - {root, nil} }

    ghost predicate At(n: Node) {
      && -1 <= Lo(n) < K(n) < Hi(n) <= KEY_LIMIT
      && (L(n) == nil || (In(L(n)) && P(L(n)) == n && Lo(n) <= Lo(L(n)) && Hi(L(n)) <= K(n)))
      && (R(n) == nil || (In(R(n)) && P(R(n)) == n && K(n) <= Lo(R(n)) && Hi(R(n)) <= Hi(n)))
      && (In(P(n)) || P(n) == root)
      && (n == L(P(n)) || n == R(P(n)))
    }

    ghost predicate Linked() {
      && root in cells && nil in cells && root != nil
      && (L(root) == nil || (In(L(root)) && P(L(root)) == root))
      && R(root) == nil
      && forall n {:trigger At(n)} :: n in cells && n != root && n != nil ==> At(n)
    }

    // ---- rotations ----

    ghost function RotatedLeft(x: Node): Shape
    {
      var y := R(x); var p := P(x); var b := L(y);
      this.(cells := map n | n in cells ::
        var c := cells[n];
        if n == x then c.(right := b, parent := y, hi := K(y))
        else if n == y then c.(left := x, parent := p, lo := Lo(x), hi := Hi(x))
        else if n == p then if c.left == x then c.(left := y) else c.(right := y)
        else if n == b && b != nil then c.(parent := x)
        else c)
    }

    ghost function RotatedRight(y: Node): Shape
    {
      var x := L(y); var p := P(y); var b := R(x);
      this.(cells := map n | n in cells ::
        var c := cells[n];
        if n == y then c.(left := b, parent := x, lo := K(x))
        else if n == x then c.(right := y, parent := p, lo := Lo(y), hi := Hi(y))
        else if n == p then if c.left == y then c.(left := x) else c.(right := x)
        else if n == b && b != nil then c.(parent := y)
        else c)
    }

    lemma Around(n: Node)
      requires Linked() && In(n)
      ensures P(n) != n && P(n) != nil && P(n) in cells
      ensures L(n) != nil ==> In(L(n)) && L(n) != n && L(n) != R(n) && L(n) != P(n) && P(L(n)) == n
      ensures R(n) != nil ==> In(R(n)) && R(n) != n && R(n) != P(n) && P(R(n)) == n
      ensures L(n) in cells && R(n) in cells
      ensures n == L(P(n)) || n == R(P(n))
    {
      assert At(n);
      if L(n) != nil { assert At(L(n)); }
      if R(n) != nil { assert At(R(n)); }
      if P(n) != root { assert At(P(n)); }
    }

    lemma {:induction false} NonEmpty(n: Node)
      requires Linked() && In(n)
      ensures In(L(root)) && P(L(root)) == root
      decreases KEY_LIMIT + 1 - (Hi(n) - Lo(n))
    {
      assert At(n);
      if P(n) != root { assert At(P(n)); NonEmpty(P(n)); }
    }

    lemma AroundRight(x: Node)
      requires Linked() && In(x) && R(x) != nil
      ensures var y := R(x); var p := P(x); var b := L(y);
              && In(y) && In(x) && p in cells && b in cells && p != nil && P(y) == x
                  && (b != nil ==> In(b) && P(b) == y)
              && x != y && p != x && p != y && b != x && b != y && b != p && b != root
    {
      Around(x); Around(R(x));
      assert At(x) && At(R(x));
      if L(R(x)) != nil { Around(L(R(x))); assert At(L(R(x))); }
      if P(x) != root { Around(P(x)); assert At(P(x)); }
    }

    lemma RotatedLeftAtLower(x: Node)
      requires Linked() && In(x) && R(x) != nil
      ensures RotatedLeft(x).At(x)
    {
      var h := RotatedLeft(x);
      var y := R(x); var b := L(y); var l := L(x);
      AroundRight(x);
      assert At(x) && At(y);
      Around(x);
      if b != nil { assert At(b); }
      if l != nil { Around(l); assert h.P(l) == x && h.Lo(l) == Lo(l) && h.Hi(l) == Hi(l); }
    }

    lemma RotatedLeftAtUpper(x: Node)
      requires Linked() && In(x) && R(x) != nil
      ensures RotatedLeft(x).At(R(x))
    {
      var h := RotatedLeft(x);
      var y := R(x); var r := R(y); var p := P(x);
      AroundRight(x);
      assert At(x) && At(y);
      Around(x); Around(y);
      if p != root { assert At(p); }
      if r != nil { Around(r); assert h.P(r) == y && h.Lo(r) == Lo(r) && h.Hi(r) == Hi(r); }
      assert h.P(y) == p && (h.L(p) == y || h.R(p) == y);
    }

    lemma RotatedLeftAtMoved(x: Node)
      requires Linked() && In(x) && R(x) != nil && L(R(x)) != nil
      ensures RotatedLeft(x).At(L(R(x)))
    {
      var h := RotatedLeft(x);
      var y := R(x); var b := L(y); var l := L(b); var r := R(b); var p := P(x);
      AroundRight(x);
      assert At(x) && At(y) && At(b);
      Around(b);
      if p != root { assert At(p); }
      if l != nil { Around(l); assert At(l); assert l != x && l != y && l != p;
          assert h.P(l) == b && h.Lo(l) == Lo(l) && h.Hi(l) == Hi(l); }
      if r != nil { Around(r); assert At(r); assert r != x && r != y && r != p;
          assert h.P(r) == b && h.Lo(r) == Lo(r) && h.Hi(r) == Hi(r); }
    }

    lemma RotatedLeftAtParent(x: Node)
      requires Linked() && In(x) && R(x) != nil && P(x) != root
      ensures RotatedLeft(x).At(P(x))
    {
      var h := RotatedLeft(x);
      var y := R(x); var p := P(x); var b := L(y);
      AroundRight(x);
      assert At(x) && At(y) && At(p);
      Around(p);
      var o := if L(p) == x then R(p) else L(p);
      if o != nil { Around(o); assert h.P(o) == p && h.Lo(o) == Lo(o) && h.Hi(o) == Hi(o); }
      assert h.P(p) == P(p) && h.Lo(p) == Lo(p) && h.Hi(p) == Hi(p) && h.K(p) == K(p);
    }

    lemma RotatedLeftAtOther(x: Node, n: Node)
      requires Linked() && In(x) && R(x) != nil
      requires In(n) && n != x && n != R(x) && n != L(R(x)) && n != P(x)
      ensures RotatedLeft(x).At(n)
    {
      var h := RotatedLeft(x);
      var y := R(x); var p := P(x); var b := L(y);
      AroundRight(x);
      assert At(x) && At(y) && At(n);
      Around(n);
      var l := L(n); var r := R(n);
      assert h.L(n) == l && h.R(n) == r && h.P(n) == P(n) && h.Lo(n) == Lo(n) && h.Hi(n) == Hi(n) && h.K(n) == K(n);
      if l != nil { assert l != x && l != y && l != b; assert h.P(l) == n && h.Lo(l) == Lo(l) && h.Hi(l) == Hi(l); }
      if r != nil { assert r != x && r != y && r != b; assert h.P(r) == n && h.Lo(r) == Lo(r) && h.Hi(r) == Hi(r); }
      assert n == h.L(h.P(n)) || n == h.R(h.P(n));
    }

    lemma RotatedLeftLinked(x: Node)
      requires Linked() && In(x) && R(x) != nil
      ensures RotatedLeft(x).Linked()
    {
      var h := RotatedLeft(x);
      var y := R(x);
      AroundRight(x);
      assert At(x) && At(y);
      forall n | n in h.cells && n != root && n != nil ensures h.At(n)
      {
        if n == x { RotatedLeftAtLower(x); }
        else if n == y { RotatedLeftAtUpper(x); }
        else if n == L(y) { RotatedLeftAtMoved(x); }
        else if n == P(x) { RotatedLeftAtParent(x); } else { RotatedLeftAtOther(x, n); }
      }
    }

    // ---- mirror image ----

    ghost function Mirror(): Shape {
      this.(cells := map n | n in cells ::
        var c := cells[n];
        if n == root then c
        else c.(key := KEY_LIMIT - 1 - c.key, left := c.right, right := c.left, lo := KEY_LIMIT - 1 - c.hi,
            hi := KEY_LIMIT - 1 - c.lo))
    }

    lemma MirrorLinked()
      requires Linked()
      ensures Mirror().Linked()
    {
      var m := Mirror();
      forall n | n in m.cells && n != root && n != nil ensures m.At(n)
      {
        assert At(n);
      }
    }

    lemma MirrorMirror()
      ensures Mirror().Mirror() == this
    {
      var m := Mirror().Mirror();
      assert m.cells.Keys == cells.Keys;
      assert forall n | n in cells :: m.cells[n] == cells[n];
    }

    lemma MirrorAround(y: Node)
      requires Linked() && In(y) && L(y) != nil
      ensures var m := Mirror(); var x := L(y); var p := P(y); var b := R(x);
              && m.R(y) == x && m.P(y) == p && m.L(x) == b
              && y in cells && x in cells && x != y && p != x && p != y && b != x && b != y && b != p && b != root
              && x != root && (y == L(p) || y == R(p)) && (p == root || L(p) != R(p))
    {
      Around(y); Around(L(y));
      if P(y) != root { Around(P(y)); }
      MirrorLinked();
      Mirror().AroundRight(y);
    }

    lemma MirrorRotateNear(y: Node, n: Node)
      requires Linked() && In(y) && L(y) != nil && n in {y, L(y)}
      ensures n in cells && Mirror().RotatedLeft(y).cells[n] == RotatedRight(y).Mirror().cells[n]
    {
      MirrorAround(y);
    }

    lemma MirrorRotateFar(y: Node, n: Node)
      requires Linked() && In(y) && L(y) != nil && n in cells && n !in {y, L(y)}
      ensures Mirror().RotatedLeft(y).cells[n] == RotatedRight(y).Mirror().cells[n]
    {
      MirrorAround(y);
      if n == P(y) {
      } else if n == R(L(y)) {
      } else {
        assert RotatedRight(y).cells[n] == cells[n];
      }
    }

    lemma MirrorRotate(y: Node)
      requires Linked() && In(y) && L(y) != nil
      ensures Mirror().RotatedLeft(y) == RotatedRight(y).Mirror()
    {
      var u := Mirror().RotatedLeft(y);
      var v := RotatedRight(y).Mirror();
      forall n | n in cells ensures u.cells[n] == v.cells[n] {
        if n in {y, L(y)} { MirrorRotateNear(y, n); } else { MirrorRotateFar(y, n); }
      }
      assert u.cells.Keys == v.cells.Keys;
    }

    lemma RotatedRightLinked(y: Node)
      requires Linked() && In(y) && L(y) != nil
      ensures RotatedRight(y).Linked()
    {
      MirrorLinked();
      Mirror().RotatedLeftLinked(y);
      MirrorRotate(y);
      RotatedRight(y).Mirror().MirrorLinked();
      RotatedRight(y).MirrorMirror();
    }

    // ---- colours and black heights ----

    ghost function Blk(n: Node): int { if Red(n) then 0 else 1 }

    ghost predicate Tipped(n: Node) { L(n) == nil || R(n) == nil }

    ghost predicate Bal(c: Node) { In(P(c)) ==> Bh(P(c)) == Bh(c) + Blk(P(c)) }

    ghost predicate Tip(n: Node) { Tipped(n) ==> Bh(n) == Blk(n) }

    ghost predicate RedOk(c: Node) { Red(c) && In(P(c)) ==> !Red(P(c)) }

    // every edge balanced except the one above hole, no red-red edge except those touching hole
    ghost predicate Colored(hole: Node) {
      && !Red(nil) && !Red(root) && Bh(nil) == 0
      && (forall c {:trigger Bal(c)} :: c in cells && In(c) && c != hole ==> Bal(c))
      && (forall c {:trigger RedOk(c)} :: c in cells && In(c) && c != hole && P(c) != hole ==> RedOk(c))
    }

    ghost predicate Tips(except: Node) {
      forall n {:trigger Tip(n)} :: n in cells && In(n) && n != except ==> Tip(n)
    }

    ghost predicate Balanced() {
      Colored(root) && Tips(root) && !Red(L(root))
    }

    // a red node x whose parent may be red as well
    ghost predicate RedAt(x: Node) {
      && In(x) && Red(x) && Linked() && Colored(x) && Bal(x) && Tips(root)
      && (forall c {:trigger RedOk(c)} :: c in cells && In(c) && P(c) == x ==> RedOk(c))
      && (Red(L(root)) ==> L(root) == x)
    }

    // one black node is missing on every path through x, below p
    ghost predicate Short(x: Node, p: Node) {
      && Linked() && Colored(x) && p in cells && P(x) == p && (x == nil || In(x))
      && Tips(if x == nil then p else root)
      && Bh(x) >= 0 && (In(p) ==> Bh(p) == Bh(x) + 1 + Blk(p))
      && (p != root ==> In(p))
      && (p == root <==> x == L(root))
      && (In(p) ==> (L(p) == x || R(p) == x) && (L(p) != nil || R(p) != nil))
      && (Red(L(root)) ==> L(root) == x)
    }

    ghost function Paint(n: Node, red: bool, bh: int): Shape {
      if n in cells then this.(cells := cells[n := cells[n].(red := red, bh := bh)]) else this
    }

    lemma PaintLinked(n: Node, red: bool, bh: int)
      requires Linked()
      ensures Paint(n, red, bh).Linked()
    {
      var h := Paint(n, red, bh);
      forall m | m in h.cells && m != root && m != nil ensures h.At(m) { assert At(m); }
    }

    // what the colour argument needs to know about a rotation, left or right
    ghost predicate Turned(h: Shape, a: Node, c: Node, b: Node) {
      && h.root == root && h.nil == nil && h.cells.Keys == cells.Keys
      && In(a) && In(c) && P(c) == a && P(a) in cells && a != c && P(a) != a && P(a) != c
      && (b == nil || (In(b) && P(b) == c && b != a && b != c && b != P(a)))
      && h.P(a) == c && h.P(c) == P(a) && (b != nil ==> h.P(b) == a)
      && h.L(root) == (if L(root) == a then c else L(root))
      && (L(root) == a ==> P(a) == root) && (P(a) == root ==> L(root) == a)
      && (forall n {:trigger h.P(n)} :: n in cells && n != a && n != c && (n != b || b == nil) ==> h.P(n) == P(n))
      && (forall n {:trigger h.Tipped(n)} :: n in cells && In(n) && n != a && n != c && h.Tipped(n) ==> Tipped(n))
      && ((L(c) == b && h.L(c) == a && h.R(c) == R(c)) || (R(c) == b && h.R(c) == a && h.L(c) == L(c)))
      && ((L(a) == c && h.L(a) == b && h.R(a) == R(a)) || (R(a) == c && h.R(a) == b && h.L(a) == L(a)))
      && (var p := P(a); h.L(p) == (if L(p) == a then c else L(p)) && h.R(p) == (if R(p) == a then c else R(p)))
    }

    // only the nodes in s may have changed colour or black height
    ghost predicate Kept(h: Shape, s: set<Node>) {
      forall n {:trigger h.Bh(n)} {:trigger h.Red(n)} :: n in cells && n !in s ==>
          h.Bh(n) == Bh(n) && h.Red(n) == Red(n)
    }

    ghost predicate SameLinks(h: Shape) {
      && h.root == root && h.nil == nil && h.cells.Keys == cells.Keys
      && (forall n {:trigger h.L(n)} :: n in cells ==> h.L(n) == L(n))
      && (forall n {:trigger h.R(n)} :: n in cells ==> h.R(n) == R(n))
      && (forall n {:trigger h.P(n)} :: n in cells ==> h.P(n) == P(n))
    }

    lemma SameLinksTurned(g: Shape, h: Shape, a: Node, c: Node, b: Node)
      requires SameLinks(g) && g.Turned(h, a, c, b)
      ensures Turned(h, a, c, b)
    {
    }

    lemma TurnLeft(x: Node)
      requires Linked() && In(x) && R(x) != nil
      ensures Turned(RotatedLeft(x), x, R(x), L(R(x))) && Kept(RotatedLeft(x), {})
    {
      AroundRight(x); Around(x);
      if P(x) != root { Around(P(x)); }
    }

    lemma TurnRight(x: Node)
      requires Linked() && In(x) && L(x) != nil
      ensures Turned(RotatedRight(x), x, L(x), R(L(x))) && Kept(RotatedRight(x), {})
    {
      MirrorAround(x); Around(x); Around(L(x));
      if P(x) != root { Around(P(x)); }
    }

    // first rotation of an insertion: the red pair changes roles
    lemma RedPair(h: Shape, a: Node, c: Node, b: Node)
      requires RedAt(c) && Turned(h, a, c, b) && Kept(h, {}) && Red(a) && h.Linked()
      ensures h.RedAt(a)
    {
      assert Bal(c) && Tip(a) && Tip(c) && Bal(a) && RedOk(a);
      if b != nil { assert Bal(b) && RedOk(b); }
      forall n | n in h.cells && h.In(n) ensures h.Bal(n) && h.Tip(n) {
        assert Bal(n) && Tip(n);
      }
      forall n | n in h.cells && h.In(n) && n != a ensures h.RedOk(n) {
        assert n != c ==> RedOk(n);
      }
    }

    lemma KidsOf(g: Node, c: Node)
      requires Linked() && In(g) && In(c) && P(c) == g
      ensures c == L(g) || c == R(g)
    {
      Around(c);
    }

    lemma RedParent(x: Node)
      requires RedAt(x) && Red(P(x))
      ensures In(P(x)) && In(P(P(x))) && P(P(x)) != P(x) && P(P(x)) != x && P(x) != x && !Red(P(P(x)))
      ensures x in cells && L(P(x)) in cells && R(P(x)) in cells && L(P(P(x))) in cells && R(P(P(x))) in cells
      ensures x == L(P(x)) || x == R(P(x))
      ensures P(x) == L(P(P(x))) || P(x) == R(P(P(x)))
      ensures L(P(P(x))) != R(P(P(x)))
    {
      Around(x);
      assert At(x);
      assert At(P(x));
      Around(P(x));
      assert RedOk(P(x));
      if P(P(x)) != root { Around(P(P(x))); assert At(P(P(x))); }
    }

    // insertion, red uncle: the red-red problem moves two levels up
    lemma Recolored(x: Node, p: Node, u: Node, g: Node)
      requires RedAt(x) && P(x) == p && P(p) == g && In(p) && In(u) && In(g) && Red(p) && Red(u)
      requires u != p && ((L(g) == p && R(g) == u) || (L(g) == u && R(g) == p))
      ensures Paint(p, false, Bh(p) + 1).Paint(u, false, Bh(u) + 1).Paint(g, true, Bh(g)).RedAt(g)
    {
      var h1 := Paint(p, false, Bh(p) + 1);
      var h2 := h1.Paint(u, false, Bh(u) + 1);
      var h := h2.Paint(g, true, Bh(g));
      PaintLinked(p, false, Bh(p) + 1); h1.PaintLinked(u, false, Bh(u) + 1); h2.PaintLinked(g, true, Bh(g));
      Around(g); Around(p); Around(u); Around(x);
      RecoloredBlack(x, p, u, g, h);
      forall c | c in h.cells && h.In(c) && c != g ensures h.RedOk(c) {
        if P(c) == g { KidsOf(g, c); }
        assert c != x ==> RedOk(c);
      }
    }

    lemma RecoloredBlack(x: Node, p: Node, u: Node, g: Node, h: Shape)
      requires RedAt(x) && P(x) == p && P(p) == g && In(p) && In(u) && In(g) && Red(p) && Red(u)
      requires u != p && ((L(g) == p && R(g) == u) || (L(g) == u && R(g) == p))
      requires p != g && u != g
      requires h == Paint(p, false, Bh(p) + 1).Paint(u, false, Bh(u) + 1).Paint(g, true, Bh(g))
      ensures !Red(g)
      ensures forall c {:trigger h.Bal(c)} :: c in h.cells && h.In(c) ==> h.Bal(c)
      ensures forall c {:trigger h.Tip(c)} :: c in h.cells && h.In(c) ==> h.Tip(c)
    {
      assert Bal(p) && Bal(u) && RedOk(p);
      Around(g);
      forall c | c in h.cells && h.In(c) ensures h.Bal(c) && h.Tip(c) {
        assert Bal(c) && Tip(c);
        if P(c) == g { KidsOf(g, c); }
      }
    }

    // insertion, black uncle: recolour and rotate at the grandparent
    lemma InsertTurned(x: Node, p: Node, g: Node, b: Node, h: Shape)
      requires RedAt(x) && P(x) == p && In(p) && P(p) == g && In(g) && Red(p) && p != g
      requires forall c {:trigger Red(c)} :: c in cells && In(c) && P(c) == g && c != p ==> !Red(c)
      requires b != x && Turned(h, g, p, b) && Kept(h, {p, g}) && h.Linked()
      requires !h.Red(p) && h.Bh(p) == Bh(p) + 1 && h.Red(g) && h.Bh(g) == Bh(g) - 1
      ensures h.RedAt(x) && h.Balanced() && !h.Red(h.P(x))
    {
      assert Bal(p) && RedOk(p) && Tip(g) && Tip(p) && Bal(g) && RedOk(g);
      if b != nil { assert Bal(b) && RedOk(b); }
      forall n | n in h.cells && h.In(n) ensures h.Bal(n) && h.Tip(n) && h.RedOk(n) {
        assert Bal(n) && Tip(n);
        assert n != x ==> RedOk(n);
        assert P(n) == g && n != p ==> !Red(n);
      }
    }

    lemma InsertDone(x: Node)
      requires RedAt(x) && !Red(P(x))
      ensures Paint(L(root), false, Bh(L(root)) + 1 - Blk(L(root))).Balanced()
      ensures Paint(L(root), false, Bh(L(root)) + 1 - Blk(L(root))).Linked()
    {
      var t := L(root);
      var h := Paint(t, false, Bh(t) + 1 - Blk(t));
      PaintLinked(t, false, Bh(t) + 1 - Blk(t));
      if t == nil { Around(x); }
      forall n | n in h.cells && h.In(n) ensures h.Bal(n) && h.Tip(n) && h.RedOk(n) {
        assert Bal(n) && Tip(n) && RedOk(n);
      }
    }

    // x and its sibling w under p
    ghost predicate Siblings(x: Node, w: Node, p: Node) {
      In(p) && In(w) && P(w) == p && x != w && ((L(p) == x && R(p) == w) || (L(p) == w && R(p) == x))
    }

    // deletion case 1: the sibling w is red
    ghost predicate RedSiblingStep(x: Node, p: Node, w: Node, b: Node, h: Shape) {
      && Short(x, p) && Siblings(x, w, p) && Red(w) && !Red(x)
      && Turned(h, p, w, b) && Kept(h, {w, p}) && h.Linked()
      && !h.Red(w) && h.Bh(w) == Bh(w) + 1 && h.Red(p) && h.Bh(p) == Bh(p) - 1
    }

    lemma RedSiblingFacts(x: Node, p: Node, w: Node, b: Node, h: Shape)
      requires RedSiblingStep(x, p, w, b, h)
      ensures Bal(w) && RedOk(w) && Tip(w) && Bal(p) && (x != nil ==> Tip(p)) && (b != nil ==> Bal(b) && RedOk(b))
      ensures P(p) != w && P(p) != x && P(w) != x && b != nil && Bh(w) == Bh(x) + 1 && !Red(p)
    {
      assert Bal(w) && RedOk(w) && Tip(w) && Bal(p);
      Around(p); Around(w);
      if x != nil { assert Tip(p); }
      if b != nil { assert Bal(b) && RedOk(b); }
    }

    lemma RedSiblingHeights(x: Node, p: Node, w: Node, b: Node, h: Shape, n: Node)
      requires RedSiblingStep(x, p, w, b, h) && h.In(n)
      ensures (n != x ==> h.Bal(n)) && ((n == p ==> x != nil) ==> h.Tip(n))
      ensures n != x && h.P(n) != x ==> h.RedOk(n)
    {
      RedSiblingFacts(x, p, w, b, h);
      if n != x { assert Bal(n); }
      assert Tip(n) || n == p;
      if P(n) == p { KidsOf(p, n); }
      assert RedOk(n) || P(n) == x || n == x;
    }

    lemma DeleteRedSibling(x: Node, p: Node, w: Node, b: Node, h: Shape)
      requires RedSiblingStep(x, p, w, b, h)
      ensures h.Short(x, p) && h.Red(p) && b != nil && !h.Red(b) && h.P(b) == p
    {
      RedSiblingFacts(x, p, w, b, h);
      forall n | n in h.cells && h.In(n)
        ensures (n != x ==> h.Bal(n)) && ((n == p ==> x != nil) ==> h.Tip(n)) && (n != x && h.P(n) != x ==> h.RedOk(n))
      {
        RedSiblingHeights(x, p, w, b, h, n);
      }
    }

    // deletion case 2: the sibling w and both its children are black
    ghost predicate BlackSiblingStep(x: Node, p: Node, w: Node, h: Shape) {
      && Short(x, p) && Siblings(x, w, p) && !Red(w) && !Red(L(w)) && !Red(R(w)) && !Red(x)
      && SameLinks(h) && Kept(h, {w, p}) && h.Linked()
      && h.Red(w) && h.Bh(w) == Bh(w) - 1 && h.Red(p) == Red(p) && h.Bh(p) == Bh(p) - 1
    }

    lemma BlackSiblingHeights(x: Node, p: Node, w: Node, h: Shape, n: Node)
      requires BlackSiblingStep(x, p, w, h) && h.In(n)
      ensures (n != p ==> h.Bal(n)) && h.Tip(n) && (n != p && h.P(n) != p ==> h.RedOk(n))
    {
      Around(p); Around(w);
      assert Bal(p) && Bal(w) && RedOk(w) && Tip(w);
      if n != x { assert Bal(n); }
      assert Tip(n) || n == p;
      if P(n) == p { KidsOf(p, n); }
      if P(n) == w { KidsOf(w, n); }
      assert RedOk(n) || P(n) == x || n == x;
    }

    lemma DeleteBlackSibling(x: Node, p: Node, w: Node, h: Shape)
      requires BlackSiblingStep(x, p, w, h)
      ensures h.Short(p, P(p))
    {
      Around(p);
      assert At(p) && Bal(p) && Bal(w);
      forall n | n in h.cells && h.In(n)
        ensures (n != p ==> h.Bal(n)) && h.Tip(n) && (n != p && h.P(n) != p ==> h.RedOk(n))
      {
        BlackSiblingHeights(x, p, w, h, n);
      }
    }

    // deletion case 3: black sibling w, near nephew c red, far nephew f black
    ghost predicate NearNephewStep(x: Node, p: Node, w: Node, c: Node, f: Node, b: Node, h: Shape) {
      && Short(x, p) && Siblings(x, w, p) && !Red(w) && Red(c) && In(c) && !Red(f) && !Red(x)
      && P(c) == w && ((L(w) == c && R(w) == f) || (L(w) == f && R(w) == c))
      && Turned(h, w, c, b) && Kept(h, {c, w}) && h.Linked()
      && !h.Red(c) && h.Bh(c) == Bh(c) + 1 && h.Red(w) && h.Bh(w) == Bh(w) - 1
    }

    lemma NearNephewFacts(x: Node, p: Node, w: Node, c: Node, f: Node, b: Node, h: Shape)
      requires NearNephewStep(x, p, w, c, f, b, h)
      ensures Bal(w) && RedOk(w) && Tip(w) && Bal(c) && RedOk(c) && Tip(c) && (b != nil ==> Bal(b) && RedOk(b))
      ensures P(p) != w && P(p) != x && P(w) != c && P(w) != x && P(c) != x
    {
      assert Bal(w) && RedOk(w) && Tip(w) && Bal(c) && RedOk(c) && Tip(c);
      Around(p); Around(w); Around(c);
      if b != nil { assert Bal(b) && RedOk(b); }
    }

    lemma NearNephewHeights(x: Node, p: Node, w: Node, c: Node, f: Node, b: Node, h: Shape, n: Node)
      requires NearNephewStep(x, p, w, c, f, b, h) && h.In(n)
      ensures (n != x ==> h.Bal(n)) && ((n == p ==> x != nil) ==> h.Tip(n))
      ensures n != x && h.P(n) != x ==> h.RedOk(n)
    {
      NearNephewFacts(x, p, w, c, f, b, h);
      if n != x { assert Bal(n); }
      assert Tip(n) || n == p;
      if P(n) == w { KidsOf(w, n); }
      assert RedOk(n) || P(n) == x || n == x;
    }

    lemma DeleteNearNephew(x: Node, p: Node, w: Node, c: Node, f: Node, b: Node, h: Shape)
      requires NearNephewStep(x, p, w, c, f, b, h)
      ensures h.Short(x, p) && h.P(c) == p && !h.Red(c) && h.Red(w) && h.P(w) == c
    {
      NearNephewFacts(x, p, w, c, f, b, h);
      forall n | n in h.cells && h.In(n)
        ensures (n != x ==> h.Bal(n)) && ((n == p ==> x != nil) ==> h.Tip(n)) && (n != x && h.P(n) != x ==> h.RedOk(n))
      {
        NearNephewHeights(x, p, w, c, f, b, h, n);
      }
    }

    // deletion case 4: black sibling w, far nephew f red
    ghost predicate FarNephewStep(x: Node, p: Node, w: Node, f: Node, b: Node, h: Shape) {
      && Short(x, p) && Siblings(x, w, p) && !Red(w) && Red(f) && In(f) && f != b && !Red(x)
      && P(f) == w && ((L(w) == b && R(w) == f) || (L(w) == f && R(w) == b))
      && Turned(h, p, w, b) && Kept(h, {w, p, f}) && h.Linked()
      && h.Red(w) == Red(p) && h.Bh(w) == Bh(p) && !h.Red(p) && h.Bh(p) == Bh(x) + 1 && !h.Red(f)
          && h.Bh(f) == Bh(f) + 1
    }

    lemma FarNephewFacts(x: Node, p: Node, w: Node, f: Node, b: Node, h: Shape)
      requires FarNephewStep(x, p, w, f, b, h)
      ensures Bal(w) && RedOk(w) && Tip(w) && Bal(f) && RedOk(f) && Tip(f) && RedOk(p) && Bal(p)
      ensures (x != nil ==> Tip(p)) && (b != nil ==> Bal(b) && RedOk(b))
      ensures P(p) != w && P(p) != x && P(w) != x && P(w) != f && P(p) != f && P(p) != p
    {
      Around(p); Around(w); Around(f);
      assert Bal(w) && RedOk(w) && Tip(w) && Bal(f) && RedOk(f) && Tip(f) && Bal(p);
      assert RedOk(p);
      if x != nil { assert Tip(p); Around(x); }
      if b != nil { assert Bal(b) && RedOk(b); }
      assert At(p) && At(w) && At(f);
      if P(p) != root { assert At(P(p)); }
    }

    lemma FarNephewHeights(x: Node, p: Node, w: Node, f: Node, b: Node, h: Shape, n: Node)
      requires FarNephewStep(x, p, w, f, b, h) && h.In(n)
      ensures h.Bal(n) && h.Tip(n)
    {
      FarNephewFacts(x, p, w, f, b, h);
      if n != x { assert Bal(n); }
      assert Tip(n) || n == p;
      if P(n) == p { KidsOf(p, n); }
      if P(n) == w { KidsOf(w, n); }
    }

    lemma FarNephewColours(x: Node, p: Node, w: Node, f: Node, b: Node, h: Shape, n: Node)
      requires FarNephewStep(x, p, w, f, b, h) && h.In(n)
      ensures h.RedOk(n)
    {
      FarNephewFacts(x, p, w, f, b, h);
      if P(n) == p { KidsOf(p, n); }
      if P(n) == w { KidsOf(w, n); }
      assert RedOk(n) || P(n) == x || n == x;
    }

    lemma DeleteFarNephew(x: Node, p: Node, w: Node, f: Node, b: Node, h: Shape)
      requires FarNephewStep(x, p, w, f, b, h)
      ensures h.Balanced()
    {
      FarNephewFacts(x, p, w, f, b, h);
      forall n | n in h.cells && h.In(n) ensures h.Bal(n) && h.Tip(n) && h.RedOk(n) {
        FarNephewHeights(x, p, w, f, b, h, n);
        FarNephewColours(x, p, w, f, b, h, n);
      }
    }

    // deletion: the loop is left at a red node or at the top
    lemma DeleteDone(x: Node, p: Node)
      requires Short(x, p) && (Red(x) || p == root)
      ensures Paint(x, false, Bh(x) + 1 - Blk(x)).Balanced() && Paint(x, false, Bh(x) + 1 - Blk(x)).Linked()
    {
      var h := Paint(x, false, Bh(x) + 1 - Blk(x));
      PaintLinked(x, false, Bh(x) + 1 - Blk(x));
      if x != nil { Around(x); }
      forall n | n in h.cells && h.In(n) ensures h.Bal(n) && h.Tip(n) && h.RedOk(n) {
        if n != x { assert Bal(n); }
        assert Tip(n);
        assert RedOk(n) || P(n) == x || n == x;
      }
    }
  }
}
