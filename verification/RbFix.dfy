// One round of each repair loop, as a function on shapes, and why it repairs.
module RbFix {
  import opened ServerTypes
  import opened RbShape

  // the pointers a rotation touches exist and do not coincide
  ghost predicate CanTurnLeft(h: Shape, x: Node) {
    var y := h.R(x); var p := h.P(x); var b := h.L(y);
    x in h.cells && y in h.cells && p in h.cells && b in h.cells && x != y && p != x && p != y && b != x && b != y
        && b != p
  }

  ghost predicate CanTurnRight(h: Shape, y: Node) {
    var x := h.L(y); var p := h.P(y); var b := h.R(x);
    x in h.cells && y in h.cells && p in h.cells && b in h.cells && x != y && p != x && p != y && b != x && b != y
        && b != p
  }

  // ---- insertion ----

  // shrinks as a repair climbs
  ghost function Climb(h: Shape, x: Node): int { if x == h.nil then KEY_LIMIT + 1
      else KEY_LIMIT + 1 - (h.Hi(x) - h.Lo(x)) }

  ghost function FinishPainted(h: Shape, p: Node, g: Node): Shape {
    h.Paint(p, false, h.Bh(p) + 1).Paint(g, true, h.Bh(g) - 1)
  }

  lemma FinishPaintedFacts(h: Shape, p: Node, g: Node)
    requires h.Linked() && p in h.cells && g in h.cells && p != g
    ensures var k := FinishPainted(h, p, g);
            k.Linked() && h.SameLinks(k) && h.Kept(k, {p, g}) && !k.Red(p) && k.Bh(p) == h.Bh(p) + 1 && k.Red(g)
                && k.Bh(g) == h.Bh(g) - 1
  {
    h.PaintLinked(p, false, h.Bh(p) + 1);
    h.Paint(p, false, h.Bh(p) + 1).PaintLinked(g, true, h.Bh(g) - 1);
  }

  // black uncle: recolour, then rotate the grandparent away from x
  ghost function Finished(h: Shape, x: Node, left: bool): Shape {
    var p := h.P(x); var g := h.P(p);
    var h1 := FinishPainted(h, p, g);
    if left then h1.RotatedRight(g) else h1.RotatedLeft(g)
  }

  // red uncle u
  ghost function Lightened(h: Shape, x: Node, u: Node): Shape {
    var p := h.P(x); var g := h.P(p);
    h.Paint(p, false, h.Bh(p) + 1).Paint(u, false, h.Bh(u) + 1).Paint(g, true, h.Bh(g))
  }

  lemma LightenedRedAt(h: Shape, x: Node, u: Node)
    requires h.RedAt(x) && h.Red(h.P(x)) && h.Red(u) && u != h.P(x)
    requires u == h.L(h.P(h.P(x))) || u == h.R(h.P(h.P(x)))
    ensures Lightened(h, x, u).RedAt(h.P(h.P(x)))
    ensures x in h.cells && h.P(x) in h.cells && u in h.cells && h.P(h.P(x)) in h.cells && u != h.P(h.P(x))
            && h.P(h.P(x)) != h.P(x)
    ensures Climb(Lightened(h, x, u), h.P(h.P(x))) < Climb(h, x)
  {
    assert h.At(x);
    h.RedParent(x);
    assert h.At(h.P(x)) && h.At(h.P(h.P(x)));
    h.Around(h.P(h.P(x)));
    h.Recolored(x, h.P(x), u, h.P(h.P(x)));
  }

  lemma StraightenedLeft(h: Shape, x: Node)
    requires h.RedAt(x) && h.Red(h.P(x)) && x == h.R(h.P(x)) && h.P(x) == h.L(h.P(h.P(x))) && !h.Red(h.R(h.P(h.P(x))))
    ensures var p := h.P(x); var g := h.P(p); var k := h.RotatedLeft(p);
            CanTurnLeft(h, p) && k.RedAt(p) && k.P(p) == x && k.Red(x) && k.P(x) == g && k.L(g) == x && k.L(x) == p
                && k.R(g) == h.R(g) && !k.Red(h.R(g))
  {
    h.RedParent(x);
    h.AroundRight(h.P(x));
    h.TurnLeft(h.P(x));
    h.RotatedLeftLinked(h.P(x));
    h.RedPair(h.RotatedLeft(h.P(x)), h.P(x), x, h.L(x));
  }

  lemma FinishedLeft(h: Shape, x: Node)
    requires h.RedAt(x) && h.Red(h.P(x)) && x == h.L(h.P(x)) && h.P(x) == h.L(h.P(h.P(x))) && !h.Red(h.R(h.P(h.P(x))))
    ensures var p := h.P(x); var g := h.P(p); var k := Finished(h, x, true);
            && k.RedAt(x) && !k.Red(k.P(x))
            && x in h.cells && p in h.cells && g in h.cells && p != g
            && CanTurnRight(FinishPainted(h, p, g), g)
  {
    var p := h.P(x); var g := h.P(p); var b := h.R(p);
    h.RedParent(x);
    var h2 := FinishPainted(h, p, g);
    FinishPaintedFacts(h, p, g);
    h2.MirrorAround(g);
    h2.TurnRight(g);
    h2.RotatedRightLinked(g);
    var k := h2.RotatedRight(g);
    h.SameLinksTurned(h2, k, g, p, b);
    h.Around(p);
    forall c | c in h.cells && h.In(c) && h.P(c) == g && c != p ensures !h.Red(c) { h.KidsOf(g, c); }
    h.InsertTurned(x, p, g, b, k);
  }

  lemma StraightenedRight(h: Shape, x: Node)
    requires h.RedAt(x) && h.Red(h.P(x)) && x == h.L(h.P(x)) && h.P(x) == h.R(h.P(h.P(x))) && !h.Red(h.L(h.P(h.P(x))))
    ensures var p := h.P(x); var g := h.P(p); var k := h.RotatedRight(p);
            CanTurnRight(h, p) && k.RedAt(p) && k.P(p) == x && k.Red(x) && k.P(x) == g && k.R(g) == x && k.R(x) == p
                && k.L(g) == h.L(g) && !k.Red(h.L(g))
  {
    h.RedParent(x);
    h.MirrorAround(h.P(x));
    h.TurnRight(h.P(x));
    h.RotatedRightLinked(h.P(x));
    h.RedPair(h.RotatedRight(h.P(x)), h.P(x), x, h.R(x));
  }

  lemma FinishedRight(h: Shape, x: Node)
    requires h.RedAt(x) && h.Red(h.P(x)) && x == h.R(h.P(x)) && h.P(x) == h.R(h.P(h.P(x))) && !h.Red(h.L(h.P(h.P(x))))
    ensures var p := h.P(x); var g := h.P(p); var k := Finished(h, x, false);
            && k.RedAt(x) && !k.Red(k.P(x))
            && x in h.cells && p in h.cells && g in h.cells && p != g
            && CanTurnLeft(FinishPainted(h, p, g), g)
  {
    var p := h.P(x); var g := h.P(p); var b := h.L(p);
    h.RedParent(x);
    var h2 := FinishPainted(h, p, g);
    FinishPaintedFacts(h, p, g);
    h2.AroundRight(g);
    h2.TurnLeft(g);
    h2.RotatedLeftLinked(g);
    var k := h2.RotatedLeft(g);
    h.SameLinksTurned(h2, k, g, p, b);
    h.Around(p);
    forall c | c in h.cells && h.In(c) && h.P(c) == g && c != p ensures !h.Red(c) { h.KidsOf(g, c); }
    h.InsertTurned(x, p, g, b, k);
  }

  ghost predicate FinishReady(h: Shape, x: Node, left: bool) {
    var p := h.P(x); var g := h.P(p);
    && x in h.cells && p in h.cells && g in h.cells && p != g
    && (if left then CanTurnRight(FinishPainted(h, p, g), g) else CanTurnLeft(FinishPainted(h, p, g), g))
  }

  ghost predicate InsertReady(h: Shape, x: Node) {
    var p := h.P(x); var g := h.P(p);
    var left := p == h.L(g);
    var u := if left then h.R(g) else h.L(g);
    && x in h.cells && p in h.cells && g in h.cells && u in h.cells && p != g && u != p && u != g
    && (!h.Red(u) ==>
      if left then
        if x == h.R(p) then CanTurnLeft(h, p) && FinishReady(h.RotatedLeft(p), p, true) else FinishReady(h, x, true)
      else
        if x == h.L(p) then CanTurnRight(h, p) && FinishReady(h.RotatedRight(p), p, false)
            else FinishReady(h, x, false))
  }

  // one round of the loop of RBTreeInsert: the shape and the node left to look at
  ghost function InsertRound(h: Shape, x: Node): (Shape, Node) {
    var p := h.P(x); var g := h.P(p);
    if p == h.L(g) then
      if h.Red(h.R(g)) then (Lightened(h, x, h.R(g)), g)
      else if x == h.R(p) then (Finished(h.RotatedLeft(p), p, true), p)
      else (Finished(h, x, true), x)
    else
      if h.Red(h.L(g)) then (Lightened(h, x, h.L(g)), g)
      else if x == h.L(p) then (Finished(h.RotatedRight(p), p, false), p)
      else (Finished(h, x, false), x)
  }

  lemma InsertRoundLeft(h: Shape, x: Node)
    requires h.RedAt(x) && h.Red(h.P(x)) && h.P(x) == h.L(h.P(h.P(x)))
    ensures InsertReady(h, x)
    ensures var (k, y) := InsertRound(h, x);
            k.RedAt(y) && k.cells.Keys == h.cells.Keys && (!k.Red(k.P(y)) || Climb(k, y) < Climb(h, x))
  {
    h.RedParent(x);
    var p := h.P(x); var g := h.P(p);
    h.Around(g);
    if h.Red(h.R(g)) { LightenedRedAt(h, x, h.R(g)); }
    else if x == h.R(p) { StraightenedLeft(h, x); FinishedLeft(h.RotatedLeft(p), p); }
    else { FinishedLeft(h, x); }
  }

  lemma InsertRoundRight(h: Shape, x: Node)
    requires h.RedAt(x) && h.Red(h.P(x)) && h.P(x) != h.L(h.P(h.P(x)))
    ensures InsertReady(h, x)
    ensures var (k, y) := InsertRound(h, x);
            k.RedAt(y) && k.cells.Keys == h.cells.Keys && (!k.Red(k.P(y)) || Climb(k, y) < Climb(h, x))
  {
    h.RedParent(x);
    var p := h.P(x); var g := h.P(p);
    h.Around(g);
    if h.Red(h.L(g)) { LightenedRedAt(h, x, h.L(g)); }
    else if x == h.L(p) { StraightenedRight(h, x); FinishedRight(h.RotatedRight(p), p); }
    else { FinishedRight(h, x); }
  }

  // each round repairs the tree or climbs
  lemma InsertRoundRepairs(h: Shape, x: Node)
    requires h.RedAt(x) && h.Red(h.P(x))
    ensures InsertReady(h, x)
    ensures var (k, y) := InsertRound(h, x);
            k.RedAt(y) && k.cells.Keys == h.cells.Keys && (!k.Red(k.P(y)) || Climb(k, y) < Climb(h, x))
  {
    if h.P(x) == h.L(h.P(h.P(x))) { InsertRoundLeft(h, x); } else { InsertRoundRight(h, x); }
  }

  // ---- deletion ----

  // x is the short child of p, left or right, and w its sibling
  ghost predicate ShortLeft(h: Shape, x: Node) {
    h.Short(x, h.P(x)) && !h.Red(x) && h.In(h.P(x)) && h.L(h.P(x)) == x
  }

  ghost predicate ShortRight(h: Shape, x: Node) {
    h.Short(x, h.P(x)) && !h.Red(x) && h.In(h.P(x)) && h.R(h.P(x)) == x && h.L(h.P(x)) != x
  }

  lemma SiblingRight(h: Shape, x: Node)
    requires ShortLeft(h, x)
    ensures var p := h.P(x); var w := h.R(p);
            h.Siblings(x, w, p) && x in h.cells && p in h.cells && w in h.cells && w != p && h.L(w) in h.cells
                && h.R(w) in h.cells
  {
    h.Around(h.P(x));
    if x != h.nil { assert h.Tip(h.P(x)); }
    h.Around(h.R(h.P(x)));
  }

  lemma SiblingLeft(h: Shape, x: Node)
    requires ShortRight(h, x)
    ensures var p := h.P(x); var w := h.L(p);
            h.Siblings(x, w, p) && x in h.cells && p in h.cells && w in h.cells && w != p && h.L(w) in h.cells
                && h.R(w) in h.cells
  {
    h.Around(h.P(x));
    if x != h.nil { assert h.Tip(h.P(x)); }
    h.Around(h.L(h.P(x)));
  }

  // case 1: recolour for the turn of p towards x
  ghost function Case1Painted(h: Shape, p: Node, w: Node): Shape {
    h.Paint(w, false, h.Bh(w) + 1).Paint(p, true, h.Bh(p) - 1)
  }

  lemma Case1PaintedFacts(h: Shape, p: Node, w: Node)
    requires h.Linked() && p in h.cells && w in h.cells && p != w
    ensures var k := Case1Painted(h, p, w);
            k.Linked() && h.SameLinks(k) && h.Kept(k, {w, p}) && !k.Red(w) && k.Bh(w) == h.Bh(w) + 1 && k.Red(p)
                && k.Bh(p) == h.Bh(p) - 1
  {
    h.PaintLinked(w, false, h.Bh(w) + 1);
    h.Paint(w, false, h.Bh(w) + 1).PaintLinked(p, true, h.Bh(p) - 1);
  }

  lemma Case1Left(h: Shape, x: Node)
    requires ShortLeft(h, x) && h.Red(h.R(h.P(x)))
    ensures var p := h.P(x); var k := Case1Painted(h, p, h.R(p));
            CanTurnLeft(k, p) && ShortLeft(k.RotatedLeft(p), x) && k.RotatedLeft(p).P(x) == p
            && k.RotatedLeft(p).Red(p) && !k.RotatedLeft(p).Red(k.RotatedLeft(p).R(p))
  {
    var p := h.P(x); var w := h.R(p); var b := h.L(w);
    SiblingRight(h, x);
    var h2 := Case1Painted(h, p, w);
    Case1PaintedFacts(h, p, w);
    h2.AroundRight(p); h2.TurnLeft(p); h2.RotatedLeftLinked(p);
    var k := h2.RotatedLeft(p);
    h.SameLinksTurned(h2, k, p, w, b);
    h.DeleteRedSibling(x, p, w, b, k);
  }

  lemma Case1Right(h: Shape, x: Node)
    requires ShortRight(h, x) && h.Red(h.L(h.P(x)))
    ensures var p := h.P(x); var k := Case1Painted(h, p, h.L(p));
            CanTurnRight(k, p) && ShortRight(k.RotatedRight(p), x) && k.RotatedRight(p).P(x) == p
            && k.RotatedRight(p).Red(p) && !k.RotatedRight(p).Red(k.RotatedRight(p).L(p))
  {
    var p := h.P(x); var w := h.L(p); var b := h.R(w);
    SiblingLeft(h, x);
    var h2 := Case1Painted(h, p, w);
    Case1PaintedFacts(h, p, w);
    h2.MirrorAround(p); h2.TurnRight(p); h2.RotatedRightLinked(p);
    var k := h2.RotatedRight(p);
    h.SameLinksTurned(h2, k, p, w, b);
    h.DeleteRedSibling(x, p, w, b, k);
  }

  // case 2: the shortage moves up to p
  ghost function Case2(h: Shape, p: Node, w: Node): Shape {
    h.Paint(w, true, h.Bh(w) - 1).Paint(p, h.Red(p), h.Bh(p) - 1)
  }

  lemma Case2Short(h: Shape, x: Node, w: Node)
    requires h.Short(x, h.P(x)) && h.Siblings(x, w, h.P(x)) && !h.Red(w) && !h.Red(h.L(w)) && !h.Red(h.R(w))
             && !h.Red(x)
    ensures var p := h.P(x); var k := Case2(h, p, w); k.Short(p, k.P(p)) && k.P(p) == h.P(p) && k.Red(p) == h.Red(p)
    ensures var k := Case2(h, h.P(x), w); 0 <= Climb(k, h.P(x)) < Climb(h, x) && k.cells.Keys == h.cells.Keys
  {
    var p := h.P(x);
    h.Around(p); h.Around(w);
    assert h.At(p);
    h.PaintLinked(w, true, h.Bh(w) - 1);
    h.Paint(w, true, h.Bh(w) - 1).PaintLinked(p, h.Red(p), h.Bh(p) - 1);
    h.DeleteBlackSibling(x, p, w, Case2(h, p, w));
    if x != h.nil { assert h.At(x); }
  }

  // case 3: recolour for the turn of w away from x
  ghost function Case3Painted(h: Shape, w: Node, c: Node): Shape {
    h.Paint(c, false, h.Bh(c) + 1).Paint(w, true, h.Bh(w) - 1)
  }

  lemma Case3PaintedFacts(h: Shape, w: Node, c: Node)
    requires h.Linked() && c in h.cells && w in h.cells && c != w
    ensures var k := Case3Painted(h, w, c);
            k.Linked() && h.SameLinks(k) && h.Kept(k, {c, w}) && !k.Red(c) && k.Bh(c) == h.Bh(c) + 1 && k.Red(w)
                && k.Bh(w) == h.Bh(w) - 1
  {
    h.PaintLinked(c, false, h.Bh(c) + 1);
    h.Paint(c, false, h.Bh(c) + 1).PaintLinked(w, true, h.Bh(w) - 1);
  }

  lemma Case3Left(h: Shape, x: Node)
    requires ShortLeft(h, x)
    requires var w := h.R(h.P(x)); !h.Red(w) && !h.Red(h.R(w)) && h.Red(h.L(w))
    ensures var p := h.P(x); var w := h.R(p); var c := h.L(w); var k := Case3Painted(h, w, c);
            CanTurnRight(k, w) && c in h.cells && ShortLeft(k.RotatedRight(w), x) && k.RotatedRight(w).P(x) == p
            && k.RotatedRight(w).R(p) == c && k.RotatedRight(w).R(c) == w && !k.RotatedRight(w).Red(c)
                && k.RotatedRight(w).Red(w)
  {
    var p := h.P(x); var w := h.R(p); var c := h.L(w); var b := h.R(c);
    SiblingRight(h, x);
    h.Around(w); h.Around(c);
    var h2 := Case3Painted(h, w, c);
    Case3PaintedFacts(h, w, c);
    h2.MirrorAround(w); h2.TurnRight(w); h2.RotatedRightLinked(w);
    var k := h2.RotatedRight(w);
    h.SameLinksTurned(h2, k, w, c, b);
    h.DeleteNearNephew(x, p, w, c, h.R(w), b, k);
  }

  lemma Case3Right(h: Shape, x: Node)
    requires ShortRight(h, x)
    requires var w := h.L(h.P(x)); !h.Red(w) && !h.Red(h.L(w)) && h.Red(h.R(w))
    ensures var p := h.P(x); var w := h.L(p); var c := h.R(w); var k := Case3Painted(h, w, c);
            CanTurnLeft(k, w) && c in h.cells && ShortRight(k.RotatedLeft(w), x) && k.RotatedLeft(w).P(x) == p
            && k.RotatedLeft(w).L(p) == c && k.RotatedLeft(w).L(c) == w && !k.RotatedLeft(w).Red(c)
                && k.RotatedLeft(w).Red(w)
  {
    var p := h.P(x); var w := h.L(p); var c := h.R(w); var b := h.L(c);
    SiblingLeft(h, x);
    h.Around(w); h.Around(c);
    var h2 := Case3Painted(h, w, c);
    Case3PaintedFacts(h, w, c);
    h2.AroundRight(w); h2.TurnLeft(w); h2.RotatedLeftLinked(w);
    var k := h2.RotatedLeft(w);
    h.SameLinksTurned(h2, k, w, c, b);
    h.DeleteNearNephew(x, p, w, c, h.L(w), b, k);
  }

  // case 4: recolour for the turn of p towards x
  ghost function SiblingPainted(h: Shape, x: Node, p: Node, w: Node): Shape {
    h.Paint(w, h.Red(p), h.Bh(p)).Paint(p, false, h.Bh(x) + 1)
  }

  ghost function Case4Painted(h: Shape, x: Node, p: Node, w: Node, f: Node): Shape {
    SiblingPainted(h, x, p, w).Paint(f, false, h.Bh(f) + 1)
  }

  lemma Case4PaintedFacts(h: Shape, x: Node, w: Node, f: Node)
    requires h.Linked() && f in h.cells && w in h.cells && h.P(x) in h.cells && f != w && f != h.P(x) && w != h.P(x)
    ensures var p := h.P(x); var k := Case4Painted(h, x, p, w, f);
            && k.Linked() && h.SameLinks(k) && h.Kept(k, {w, p, f}) && k.Red(w) == h.Red(p) && k.Bh(w) == h.Bh(p)
            && !k.Red(p) && k.Bh(p) == h.Bh(x) + 1 && !k.Red(f) && k.Bh(f) == h.Bh(f) + 1
  {
    var p := h.P(x);
    var h1 := h.Paint(w, h.Red(p), h.Bh(p));
    h.PaintLinked(w, h.Red(p), h.Bh(p));
    h1.PaintLinked(p, false, h.Bh(x) + 1);
    h1.Paint(p, false, h.Bh(x) + 1).PaintLinked(f, false, h.Bh(f) + 1);
  }

  lemma Case4Left(h: Shape, x: Node)
    requires ShortLeft(h, x)
    requires var w := h.R(h.P(x)); !h.Red(w) && h.Red(h.R(w))
    ensures var p := h.P(x); var w := h.R(p); var k := Case4Painted(h, x, p, w, h.R(w));
            CanTurnLeft(k, p) && k.RotatedLeft(p).Balanced() && k.RotatedLeft(p).Linked() && h.R(w) in h.cells
                && h.R(w) != w && h.R(w) != p
  {
    var p := h.P(x); var w := h.R(p); var f := h.R(w); var b := h.L(w);
    SiblingRight(h, x);
    h.Around(w); h.Around(p);
    var h3 := Case4Painted(h, x, p, w, f);
    Case4PaintedFacts(h, x, w, f);
    h3.AroundRight(p); h3.TurnLeft(p); h3.RotatedLeftLinked(p);
    var k := h3.RotatedLeft(p);
    h.SameLinksTurned(h3, k, p, w, b);
    h.DeleteFarNephew(x, p, w, f, b, k);
  }

  lemma Case4Right(h: Shape, x: Node)
    requires ShortRight(h, x)
    requires var w := h.L(h.P(x)); !h.Red(w) && h.Red(h.L(w))
    ensures var p := h.P(x); var w := h.L(p); var k := Case4Painted(h, x, p, w, h.L(w));
            CanTurnRight(k, p) && k.RotatedRight(p).Balanced() && k.RotatedRight(p).Linked() && h.L(w) in h.cells
                && h.L(w) != w && h.L(w) != p
  {
    var p := h.P(x); var w := h.L(p); var f := h.L(w); var b := h.R(w);
    SiblingLeft(h, x);
    h.Around(w); h.Around(p);
    var h3 := Case4Painted(h, x, p, w, f);
    Case4PaintedFacts(h, x, w, f);
    h3.MirrorAround(p); h3.TurnRight(p); h3.RotatedRightLinked(p);
    var k := h3.RotatedRight(p);
    h.SameLinksTurned(h3, k, p, w, b);
    h.DeleteFarNephew(x, p, w, f, b, k);
  }

  // ---- one round of the loop of RBDeleteFixUp ----

  ghost function Sibling(h: Shape, x: Node, left: bool): Node { if left then h.R(h.P(x)) else h.L(h.P(x)) }

  ghost function AfterCase1(h: Shape, x: Node, left: bool): Shape {
    var p := h.P(x); var k := Case1Painted(h, p, Sibling(h, x, left));
    if !h.Red(Sibling(h, x, left)) then h else if left then k.RotatedLeft(p) else k.RotatedRight(p)
  }

  ghost predicate Case1Ready(h: Shape, x: Node, left: bool) {
    var p := h.P(x); var w := Sibling(h, x, left); var k := Case1Painted(h, p, w);
    && x in h.cells && p in h.cells && w in h.cells && p != w
    && (h.Red(w) ==> if left then CanTurnLeft(k, p) else CanTurnRight(k, p))
    && AfterCase1(h, x, left).P(x) == p
  }

  ghost function Near(h: Shape, w: Node, left: bool): Node { if left then h.L(w) else h.R(w) }
  ghost function Far(h: Shape, w: Node, left: bool): Node { if left then h.R(w) else h.L(w) }

  ghost function AfterCase3(h: Shape, x: Node, left: bool): Shape {
    var w := Sibling(h, x, left); var k := Case3Painted(h, w, Near(h, w, left));
    if h.Red(Far(h, w, left)) then h else if left then k.RotatedRight(w) else k.RotatedLeft(w)
  }

  ghost predicate Case3Ready(h: Shape, x: Node, left: bool) {
    var w := Sibling(h, x, left); var k := Case3Painted(h, w, Near(h, w, left));
    && x in h.cells && h.P(x) in h.cells && w in h.cells && h.L(w) in h.cells && h.R(w) in h.cells
        && Near(h, w, left) != w
    && (!h.Red(Far(h, w, left)) ==> if left then CanTurnRight(k, w) else CanTurnLeft(k, w))
    && AfterCase3(h, x, left).P(x) == h.P(x)
  }

  ghost function AfterCase4(h: Shape, x: Node, left: bool): Shape {
    var w := Sibling(h, x, left); var k := Case4Painted(h, x, h.P(x), w, Far(h, w, left));
    if left then k.RotatedLeft(h.P(x)) else k.RotatedRight(h.P(x))
  }

  ghost predicate Case4Ready(h: Shape, x: Node, left: bool) {
    var p := h.P(x); var w := Sibling(h, x, left); var f := Far(h, w, left); var k := Case4Painted(h, x, p, w, f);
    && x in h.cells && p in h.cells && w in h.cells && f in h.cells && w != p && f != w && f != p
    && (if left then CanTurnLeft(k, p) else CanTurnRight(k, p))
  }

  ghost function DeleteRound(h: Shape, x: Node, top: Node): (Shape, Node) {
    var left := x == h.L(h.P(x));
    var h1 := AfterCase1(h, x, left);
    var w := Sibling(h1, x, left);
    if !h1.Red(h1.R(w)) && !h1.Red(h1.L(w)) then (Case2(h1, h1.P(x), w), h1.P(x))
    else (AfterCase4(AfterCase3(h1, x, left), x, left), top)
  }

  ghost predicate DeleteReady(h: Shape, x: Node) {
    var left := x == h.L(h.P(x));
    var h1 := AfterCase1(h, x, left);
    var w := Sibling(h1, x, left);
    && Case1Ready(h, x, left) && x in h1.cells && h1.P(x) in h1.cells && w in h1.cells && h1.L(w) in h1.cells
        && h1.R(w) in h1.cells && w != h1.P(x)
    && (h1.Red(h1.R(w)) || h1.Red(h1.L(w)) ==>
        Case3Ready(h1, x, left) && Case4Ready(AfterCase3(h1, x, left), x, left))
  }

  lemma Case1Repairs(h: Shape, x: Node, left: bool)
    requires if left then ShortLeft(h, x) else ShortRight(h, x)
    ensures Case1Ready(h, x, left)
    ensures var k := AfterCase1(h, x, left); var w := Sibling(k, x, left);
            && (if left then ShortLeft(k, x) else ShortRight(k, x)) && k.P(x) == h.P(x) && !k.Red(w)
            && (h.Red(Sibling(h, x, left)) ==> k.Red(k.P(x))) && k.cells.Keys == h.cells.Keys
  {
    if left {
      SiblingRight(h, x);
      if h.Red(h.R(h.P(x))) { Case1Left(h, x); }
    } else {
      SiblingLeft(h, x);
      if h.Red(h.L(h.P(x))) { Case1Right(h, x); }
    }
  }

  lemma Case34Repairs(h: Shape, x: Node, left: bool)
    requires if left then ShortLeft(h, x) else ShortRight(h, x)
    requires var w := Sibling(h, x, left); !h.Red(w) && (h.Red(h.L(w)) || h.Red(h.R(w)))
    ensures Case3Ready(h, x, left) && Case4Ready(AfterCase3(h, x, left), x, left)
    ensures var k := AfterCase4(AfterCase3(h, x, left), x, left);
            k.Linked() && k.Balanced() && k.cells.Keys == h.cells.Keys
  {
    var w := Sibling(h, x, left);
    if left { SiblingRight(h, x); } else { SiblingLeft(h, x); }
    h.Around(w);
    if !h.Red(Far(h, w, left)) {
      if left { Case3Left(h, x); } else { Case3Right(h, x); }
    }
    var h2 := AfterCase3(h, x, left);
    if left { SiblingRight(h2, x); Case4Left(h2, x); } else { SiblingLeft(h2, x); Case4Right(h2, x); }
  }

  // still short at x, with top the real root or x red; or repaired, with x set to top to leave the loop
  ghost predicate Fixing(h: Shape, x: Node, top: Node) {
    || (h.Short(x, h.P(x)) && (h.Red(x) || top == h.L(h.root)))
    || (h.Linked() && h.Balanced() && x == top && x in h.cells && !h.Red(x))
  }

  ghost predicate Looping(h: Shape, x: Node, top: Node) { !h.Red(x) && top != x }

  ghost predicate BlackTop(h: Shape, p: Node, top: Node) {
    top in h.cells && (top == p || (h.P(top) == h.root && !h.Red(top)))
  }

  lemma TopAfterCase1(h: Shape, x: Node, left: bool, top: Node)
    requires if left then ShortLeft(h, x) else ShortRight(h, x)
    requires top == h.L(h.root)
    ensures BlackTop(AfterCase1(h, x, left), h.P(x), top)
  {
    var p := h.P(x);
    h.NonEmpty(p);
    h.Around(p);
    if left { SiblingRight(h, x); } else { SiblingLeft(h, x); }
    h.Around(Sibling(h, x, left));
  }

  lemma TopAfterCase3(h: Shape, x: Node, left: bool, top: Node)
    requires if left then ShortLeft(h, x) else ShortRight(h, x)
    requires BlackTop(h, h.P(x), top)
    requires var w := Sibling(h, x, left); !h.Red(w) && (h.Red(h.L(w)) || h.Red(h.R(w)))
    ensures var k := AfterCase3(h, x, left);
            BlackTop(k, k.P(x), top) && (if left then ShortLeft(k, x) else ShortRight(k, x))
    ensures var k := AfterCase3(h, x, left); var w := Sibling(k, x, left); !k.Red(w) && k.Red(Far(k, w, left))
  {
    var w := Sibling(h, x, left);
    if left { SiblingRight(h, x); } else { SiblingLeft(h, x); }
    h.Around(w); h.Around(h.P(x));
    if !h.Red(Far(h, w, left)) {
      h.Around(Near(h, w, left));
      if left { Case3Left(h, x); } else { Case3Right(h, x); }
    }
  }

  lemma TopAfterCase4(h: Shape, x: Node, left: bool, top: Node)
    requires if left then ShortLeft(h, x) else ShortRight(h, x)
    requires BlackTop(h, h.P(x), top)
    ensures !AfterCase4(h, x, left).Red(top)
  {
    if left { SiblingRight(h, x); } else { SiblingLeft(h, x); }
    h.Around(Sibling(h, x, left)); h.Around(h.P(x));
  }

  // the captured root stays black when a round ends in case 4
  lemma TopStaysBlack(h: Shape, x: Node, left: bool, top: Node)
    requires if left then ShortLeft(h, x) else ShortRight(h, x)
    requires top == h.L(h.root)
    requires var h1 := AfterCase1(h, x, left); var w := Sibling(h1, x, left); h1.Red(h1.L(w)) || h1.Red(h1.R(w))
    ensures var k := AfterCase4(AfterCase3(AfterCase1(h, x, left), x, left), x, left); top in k.cells && !k.Red(top)
  {
    Case1Repairs(h, x, left);
    TopAfterCase1(h, x, left, top);
    TopAfterCase3(AfterCase1(h, x, left), x, left, top);
    TopAfterCase4(AfterCase3(AfterCase1(h, x, left), x, left), x, left, top);
  }

  lemma RoundReady(h: Shape, x: Node, left: bool)
    requires (if left then ShortLeft(h, x) else ShortRight(h, x)) && left == (x == h.L(h.P(x)))
    ensures DeleteReady(h, x)
  {
    Case1Repairs(h, x, left);
    var h1 := AfterCase1(h, x, left);
    var w := Sibling(h1, x, left);
    if left { SiblingRight(h1, x); } else { SiblingLeft(h1, x); }
    if h1.Red(h1.R(w)) || h1.Red(h1.L(w)) { Case34Repairs(h1, x, left); }
  }

  lemma RoundEndsInCase2(h: Shape, x: Node, left: bool, top: Node)
    requires (if left then ShortLeft(h, x) else ShortRight(h, x)) && top == h.L(h.root)
    requires var h1 := AfterCase1(h, x, left); var w := Sibling(h1, x, left); !h1.Red(h1.L(w)) && !h1.Red(h1.R(w))
    ensures var h1 := AfterCase1(h, x, left); var p := h1.P(x); var k := Case2(h1, p, Sibling(h1, x, left));
            && k.Short(p, k.P(p)) && (k.Red(p) || top == k.L(k.root)) && k.cells.Keys == h.cells.Keys
            && (!k.Red(p) ==> 0 <= Climb(k, p) < Climb(h, x))
  {
    Case1Repairs(h, x, left);
    var h1 := AfterCase1(h, x, left);
    var w := Sibling(h1, x, left);
    if left { SiblingRight(h1, x); } else { SiblingLeft(h1, x); }
    Case2Short(h1, x, w);
  }

  lemma RoundEndsInCase4(h: Shape, x: Node, left: bool, top: Node)
    requires (if left then ShortLeft(h, x) else ShortRight(h, x)) && top == h.L(h.root)
    requires var h1 := AfterCase1(h, x, left); var w := Sibling(h1, x, left); h1.Red(h1.L(w)) || h1.Red(h1.R(w))
    ensures var k := AfterCase4(AfterCase3(AfterCase1(h, x, left), x, left), x, left);
            k.Linked() && k.Balanced() && top in k.cells && !k.Red(top) && k.cells.Keys == h.cells.Keys
  {
    Case1Repairs(h, x, left);
    Case34Repairs(AfterCase1(h, x, left), x, left);
    TopStaysBlack(h, x, left, top);
  }

  // each round of the loop repairs the tree or climbs
  lemma DeleteRoundRepairs(h: Shape, x: Node, top: Node)
    requires Fixing(h, x, top) && Looping(h, x, top)
    ensures DeleteReady(h, x)
    ensures var (k, y) := DeleteRound(h, x, top);
            && Fixing(k, y, top) && k.cells.Keys == h.cells.Keys
            && (Looping(k, y, top) ==> 0 <= Climb(k, y) < Climb(h, x)) && y in k.cells
  {
    var left := x == h.L(h.P(x));
    RoundReady(h, x, left);
    var h1 := AfterCase1(h, x, left);
    var w := Sibling(h1, x, left);
    if !h1.Red(h1.R(w)) && !h1.Red(h1.L(w)) {
      RoundEndsInCase2(h, x, left, top);
      assert DeleteRound(h, x, top) == (Case2(h1, h1.P(x), w), h1.P(x));
    } else {
      RoundEndsInCase4(h, x, left, top);
      assert DeleteRound(h, x, top) == (AfterCase4(AfterCase3(h1, x, left), x, left), top);
    }
  }

  lemma FixUpStarts(h: Shape, x: Node, p: Node)
    requires h.Short(x, p)
    ensures Fixing(h, x, h.L(h.root)) && Climb(h, x) >= 0 && x in h.cells && h.L(h.root) in h.cells
  {
    if x != h.nil { assert h.At(x); }
  }

  lemma FixUpEnds(h: Shape, x: Node, top: Node)
    requires Fixing(h, x, top) && !Looping(h, x, top)
    ensures var k := h.Paint(x, false, h.Bh(x) + 1 - h.Blk(x));
            x in h.cells && k.Linked() && k.Balanced() && k.cells.Keys == h.cells.Keys
  {
    if h.Short(x, h.P(x)) && (h.Red(x) || top == h.L(h.root)) {
      if x != h.nil { h.Around(x); }
      h.DeleteDone(x, h.P(x));
    } else {
      assert h.Paint(x, false, h.Bh(x) + 1 - h.Blk(x)).cells == h.cells;
    }
  }
}
