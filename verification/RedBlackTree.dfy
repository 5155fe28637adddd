// The tree itself: every method does to the node objects what a named function does to their mirror.
module RedBlackTree {
  import opened Basics
  import opened ServerTypes
  import opened RbShape
  import opened RbEdit
  import opened RbOrder
  import opened RbFix

  class RBTree {
    const root: Node
    const nil: Node
    ghost var h: Shape

    ghost predicate Mirrors(n: Node, c: Cell)
      reads n
    {
      c.key == n.key && c.red == n.red && c.left == n.left && c.right == n.right && c.parent == n.parent
    }

    ghost predicate Coupled()
      reads this, h.cells.Keys
    {
      && h.root == root && h.nil == nil
      && forall n {:trigger h.cells[n]} :: n in h.cells ==> Mirrors(n, h.cells[n])
    }

    ghost predicate Valid()
      reads this, h.cells.Keys
    {
      Coupled() && h.Linked() && h.Balanced()
    }

    constructor ()
      ensures Valid() && h.Names() == {} && Keys(h) == {} && fresh(h.cells.Keys)
    {
      var e := new Node(0, 0, null);
      var r := new Node(0, 0, null);
      r.parent, r.left, r.right := e, e, e;
      nil := e;
      root := r;
      h := Shape(map[r := Cell(0, e, e, e, false, 0, 0, 0), e := Cell(0, e, e, e, false, 0, 0, 0)], r, e);
    }

    lemma Read(n: Node)
      requires Coupled() && n in h.cells
      ensures n.left == h.L(n) && n.right == h.R(n) && n.parent == h.P(n) && n.red == h.Red(n) && n.key == h.K(n)
    {
      assert Mirrors(n, h.cells[n]);
    }

    method SetRed(n: Node, red: bool, ghost bh: int)
      requires Coupled() && n in h.cells
      modifies this`h, n`red
      ensures Coupled() && h == old(h).Paint(n, red, bh) && h.cells.Keys == old(h.cells.Keys)
    {
      ghost var g := h.Paint(n, red, bh);
      n.red := red;
      forall m | m in g.cells ensures Mirrors(m, g.cells[m]) {
        assert old(Mirrors(m, h.cells[m]));
      }
      h := g;
    }

    method TurnPointersLeft(x: Node)
      requires x.right != x && x.right != x.parent && x.right.left !in {x, x.right, x.parent} && x.parent != x
      modifies x`right, x`parent, x.right`left, x.right`parent
      modifies x.right.left`parent, x.parent`left, x.parent`right
      ensures var y := old(x.right); var p := old(x.parent); var b := old(y.left);
              && x.right == b && x.parent == y && y.left == x && y.parent == p
              && p.left == (if old(p.left) == x then y else old(p.left))
              && p.right == (if old(p.left) == x then old(p.right) else y)
              && b.parent == if b == nil then old(b.parent) else x
    {
      var y := x.right;
      x.right := y.left;
      if y.left != nil {
        y.left.parent := x;
      }
      y.parent := x.parent;
      if x == x.parent.left {
        x.parent.left := y;
      } else {
        x.parent.right := y;
      }
      y.left := x;
      x.parent := y;
    }

    method LeftRotate(x: Node)
      requires Coupled() && CanTurnLeft(h, x)
      modifies this`h, h.cells.Keys`left, h.cells.Keys`right, h.cells.Keys`parent
      ensures Coupled() && h == old(h).RotatedLeft(x) && h.cells.Keys == old(h.cells.Keys)
    {
      ghost var g := h.RotatedLeft(x);
      ghost var y, p := h.R(x), h.P(x);
      ghost var b := h.L(y);
      Read(x); Read(y); Read(p); Read(b);
      TurnPointersLeft(x);
      forall n | n in g.cells ensures Mirrors(n, g.cells[n]) {
        assert old(Mirrors(n, h.cells[n]));
      }
      h := g;
    }

    method TurnPointersRight(y: Node)
      requires y.left != y && y.left != y.parent && y.left.right !in {y, y.left, y.parent} && y.parent != y
      modifies y`left, y`parent, y.left`right, y.left`parent
      modifies y.left.right`parent, y.parent`left, y.parent`right
      ensures var x := old(y.left); var p := old(y.parent); var b := old(x.right);
              && y.left == b && y.parent == x && x.right == y && x.parent == p
              && p.left == (if old(p.left) == y then x else old(p.left))
              && p.right == (if old(p.left) == y then old(p.right) else x)
              && b.parent == if b == nil then old(b.parent) else y
    {
      var x := y.left;
      y.left := x.right;
      if nil != x.right {
        x.right.parent := y;
      }
      x.parent := y.parent;
      if y == y.parent.left {
        y.parent.left := x;
      } else {
        y.parent.right := x;
      }
      x.right := y;
      y.parent := x;
    }

    method RightRotate(y: Node)
      requires Coupled() && CanTurnRight(h, y)
      modifies this`h, h.cells.Keys`left, h.cells.Keys`right, h.cells.Keys`parent
      ensures Coupled() && h == old(h).RotatedRight(y) && h.cells.Keys == old(h.cells.Keys)
    {
      ghost var g := h.RotatedRight(y);
      ghost var x, p := h.L(y), h.P(y);
      ghost var b := h.R(x);
      Read(x); Read(y); Read(p); Read(b);
      TurnPointersRight(y);
      forall n | n in g.cells ensures Mirrors(n, g.cells[n]) {
        assert old(Mirrors(n, h.cells[n]));
      }
      h := g;
    }

    // ---- insertion ----

    // the walk of TreeInsertHelp: down to the empty link where the key belongs
    method Descend(key: int) returns (y: Node, ghost left: bool)
      requires Valid() && 0 <= key < KEY_LIMIT && key !in Keys(h)
      modifies this`h
      ensures Valid() && h.cells.Keys == old(h.cells.Keys) && Keys(h) == old(Keys(h))
      ensures h.In(y) || (y == root && left)
      ensures Kid(h, y, left) == nil && RoomLo(h, y, left) < key < RoomHi(h, y, left)
      ensures left == (y == root || y.key > key)
    {
      Read(root);
      y := root;
      var x := root.left;
      left := true;
      while x != nil
        invariant Valid() && h.cells.Keys == old(h.cells.Keys) && Keys(h) == old(Keys(h))
        invariant h.In(y) || (y == root && left)
        invariant Kid(h, y, left) == x
        invariant RoomLo(h, y, left) < key < RoomHi(h, y, left)
        invariant left == (y == root || y.key > key)
        decreases RoomHi(h, y, left) - RoomLo(h, y, left)
      {
        Widen(x, y, left);
        assert x.key != key && x != root;
        y := x;
        if x.key > key {
          x := x.left;
          left := true;
        } else {
          x := x.right;
          left := false;
        }
      }
    }

    // gives x all the room its link allows
    ghost method Widen(x: Node, y: Node, left: bool)
      requires Valid() && (h.In(y) || (y == root && left)) && Kid(h, y, left) == x && x != nil
      modifies this`h
      ensures Valid() && h.cells.Keys == old(h.cells.Keys) && Keys(h) == old(Keys(h))
      ensures h.In(x) && h.Lo(x) == old(RoomLo(h, y, left)) && h.Hi(x) == old(RoomHi(h, y, left))
      ensures x.left == h.L(x) && x.right == h.R(x) && x.key == h.K(x) && x.key in Keys(h)
      ensures h.Lo(x) < x.key < h.Hi(x)
    {
      ghost var lo, hi := RoomLo(h, y, left), RoomHi(h, y, left);
      WidenedLinked(h, x, y, left);
      WidenedKeepsColours(h, x, lo, hi);
      WidenedKeepsKeys(h, x, lo, hi);
      ghost var g := Widened(h, x, lo, hi);
      forall n | n in g.cells ensures Mirrors(n, g.cells[n]) {
        assert Mirrors(n, h.cells[n]);
      }
      h := g;
      Read(x);
      assert h.At(x);
    }

    // every node but z agrees with its cell, and z does apart from its colour
    ghost predicate CoupledBut(z: Node)
      reads this, z, h.cells.Keys
    {
      && h.root == root && h.nil == nil && z in h.cells
      && z.key == h.cells[z].key && z.left == h.cells[z].left && z.right == h.cells[z].right
          && z.parent == h.cells[z].parent
      && forall n {:trigger h.cells[n]} :: n in h.cells && n != z ==> Mirrors(n, h.cells[n])
    }

    // the pointer writes of TreeInsertHelp: z becomes a leaf on the empty link of y
    method Hang(z: Node, y: Node, ghost left: bool)
      requires Coupled() && z !in h.cells && y in h.cells
      requires left == (y == root || y.key > z.key)
      modifies this`h, z`left, z`right, z`parent, y`left, y`right
      ensures h == Hung(old(h), z, z.key, y, left) && CoupledBut(z)
    {
      ghost var g := Hung(h, z, z.key, y, left);
      z.left, z.right := nil, nil;
      z.parent := y;
      if y == root || y.key > z.key {
        y.left := z;
      } else {
        y.right := z;
      }
      forall n | n in g.cells && n != z ensures Mirrors(n, g.cells[n]) {
        assert old(Mirrors(n, h.cells[n]));
      }
      h := g;
    }

    // z becomes a red leaf in the room left for its key
    method HangInRoom(z: Node, y: Node, ghost left: bool)
      requires Valid() && z !in h.cells && (h.In(y) || (y == root && left)) && left == (y == root || y.key > z.key)
      requires Kid(h, y, left) == nil && RoomLo(h, y, left) < z.key < RoomHi(h, y, left)
      modifies this`h, z`left, z`right, z`parent, y`left, y`right
      ensures h.cells.Keys == old(h.cells.Keys) + {z} && h.RedAt(z) && CoupledBut(z)
    {
      HungRed(h, z, z.key, y, left);
      Hang(z, y, left);
    }

    method TreeInsertHelp(z: Node)
      requires Valid() && z !in h.cells && 0 <= z.key < KEY_LIMIT && z.key !in Keys(h)
      modifies this`h, z`left, z`right, z`parent, h.cells.Keys`left, h.cells.Keys`right
      ensures h.cells.Keys == old(h.cells.Keys) + {z} && h.RedAt(z) && CoupledBut(z)
    {
      ghost var left;
      var y;
      y, left := Descend(z.key);
      HangInRoom(z, y, left);
    }

    // red uncle: the colours of parent, uncle and grandparent
    method Lighten(x: Node, y: Node)
      requires Coupled() && x in h.cells && y in h.cells && h.P(x) in h.cells && h.P(h.P(x)) in h.cells
      requires h.P(h.P(x)) != h.P(x) && y != h.P(h.P(x)) && y != h.P(x)
      modifies this`h, h.cells.Keys`red
      ensures Coupled() && h == Lightened(old(h), x, y) && h.cells.Keys == old(h.cells.Keys)
    {
      ghost var h0 := h;
      ghost var p, g := h.P(x), h.P(h.P(x));
      Read(x); Read(p);
      SetRed(x.parent, false, h0.Bh(p) + 1);
      SetRed(y, false, h0.Bh(y) + 1);
      SetRed(x.parent.parent, true, h0.Bh(g));
    }

    // a black parent below a red grandparent
    method PaintParents(p: Node, g: Node)
      requires Coupled() && p in h.cells && g in h.cells && p != g
      modifies this`h, h.cells.Keys`red
      ensures Coupled() && h == FinishPainted(old(h), p, g) && h.cells.Keys == old(h.cells.Keys)
    {
      ghost var bh := h.Bh(g) - 1;
      SetRed(p, false, h.Bh(p) + 1);
      SetRed(g, true, bh);
    }

    // black uncle, x and its parent on the left
    method FinishLeft(x: Node)
      requires Coupled() && FinishReady(h, x, true)
      modifies this`h, h.cells.Keys`left, h.cells.Keys`right, h.cells.Keys`parent, h.cells.Keys`red
      ensures Coupled() && h == Finished(old(h), x, true) && h.cells.Keys == old(h.cells.Keys)
    {
      ghost var p, g := h.P(x), h.P(h.P(x));
      Read(x); Read(p);
      var parent, grandparent := x.parent, x.parent.parent;
      PaintParents(parent, grandparent);
      RightRotate(grandparent);
    }

    // black uncle, x and its parent on the right
    method FinishRight(x: Node)
      requires Coupled() && FinishReady(h, x, false)
      modifies this`h, h.cells.Keys`left, h.cells.Keys`right, h.cells.Keys`parent, h.cells.Keys`red
      ensures Coupled() && h == Finished(old(h), x, false) && h.cells.Keys == old(h.cells.Keys)
    {
      ghost var p, g := h.P(x), h.P(h.P(x));
      Read(x); Read(p);
      var parent, grandparent := x.parent, x.parent.parent;
      PaintParents(parent, grandparent);
      LeftRotate(grandparent);
    }

    // black uncle: an inner x is turned outwards
    method StraightenLeft(x0: Node) returns (x: Node)
      requires Coupled() && InsertReady(h, x0) && h.P(x0) == h.L(h.P(h.P(x0))) && !h.Red(h.R(h.P(h.P(x0))))
      modifies this`h, h.cells.Keys`left, h.cells.Keys`right, h.cells.Keys`parent, h.cells.Keys`red
      ensures Coupled() && FinishReady(h, x, true) && (Finished(h, x, true), x) == InsertRound(old(h), x0)
              && h.cells.Keys == old(h.cells.Keys)
    {
      x := x0;
      ghost var p := h.P(x);
      Read(x); Read(p);
      if x == x.parent.right {
        x := x.parent;
        LeftRotate(x);
      }
    }

    // one round of the loop of RBTreeInsert, the parent of x on the left
    method InsertStepLeft(x0: Node) returns (x: Node)
      requires Coupled() && InsertReady(h, x0) && h.P(x0) == h.L(h.P(h.P(x0)))
      modifies this`h, h.cells.Keys`left, h.cells.Keys`right, h.cells.Keys`parent, h.cells.Keys`red
      ensures Coupled() && (h, x) == InsertRound(old(h), x0) && h.cells.Keys == old(h.cells.Keys)
    {
      x := x0;
      ghost var h0 := h;
      ghost var p, g := h.P(x), h.P(h.P(x));
      Read(x); Read(p); Read(g);
      var y := x.parent.parent.right;
      Read(y);
      if y.red {
        Lighten(x, y);
        x := x.parent.parent;
      } else {
        x := StraightenLeft(x);
        FinishLeft(x);
      }
    }

    // black uncle: an inner x is turned outwards
    method StraightenRight(x0: Node) returns (x: Node)
      requires Coupled() && InsertReady(h, x0) && !(h.P(x0) == h.L(h.P(h.P(x0)))) && !h.Red(h.L(h.P(h.P(x0))))
      modifies this`h, h.cells.Keys`left, h.cells.Keys`right, h.cells.Keys`parent, h.cells.Keys`red
      ensures Coupled() && FinishReady(h, x, false) && (Finished(h, x, false), x) == InsertRound(old(h), x0)
              && h.cells.Keys == old(h.cells.Keys)
    {
      x := x0;
      ghost var p := h.P(x);
      Read(x); Read(p);
      if x == x.parent.left {
        x := x.parent;
        RightRotate(x);
      }
    }

    // one round of the loop of RBTreeInsert, the parent of x on the right
    method InsertStepRight(x0: Node) returns (x: Node)
      requires Coupled() && InsertReady(h, x0) && !(h.P(x0) == h.L(h.P(h.P(x0))))
      modifies this`h, h.cells.Keys`left, h.cells.Keys`right, h.cells.Keys`parent, h.cells.Keys`red
      ensures Coupled() && (h, x) == InsertRound(old(h), x0) && h.cells.Keys == old(h.cells.Keys)
    {
      x := x0;
      ghost var h0 := h;
      ghost var p, g := h.P(x), h.P(h.P(x));
      Read(x); Read(p); Read(g);
      var y := x.parent.parent.left;
      Read(y);
      if y.red {
        Lighten(x, y);
        x := x.parent.parent;
      } else {
        x := StraightenRight(x);
        FinishRight(x);
      }
    }

    // the repair loop of RBTreeInsert
    method RepairInsert(x0: Node)
      requires Coupled() && h.RedAt(x0)
      modifies this`h, h.cells.Keys`left, h.cells.Keys`right, h.cells.Keys`parent, h.cells.Keys`red
      ensures Valid() && h.cells.Keys == old(h.cells.Keys)
    {
      var x := x0;
      ReadUp(x);
      while x.parent.red
        invariant Coupled() && h.cells.Keys == old(h.cells.Keys)
        invariant h.RedAt(x)
        invariant Climb(h, x) >= 0 && x.parent == h.P(x) && x.parent.red == h.Red(h.P(x))
        decreases x.parent.red, Climb(h, x)
      {
        InsertRoundRepairs(h, x);
        Read(h.P(x)); Read(h.P(h.P(x)));
        if x.parent == x.parent.parent.left {
          x := InsertStepLeft(x);
        } else {
          x := InsertStepRight(x);
        }
        ReadUp(x);
      }
      Blacken(x);
    }

    lemma ReadUp(x: Node)
      requires Coupled() && h.RedAt(x)
      ensures x.parent == h.P(x) && x.parent.red == h.Red(h.P(x)) && x in h.cells && h.P(x) in h.cells
              && Climb(h, x) >= 0
    {
      h.Around(x);
      assert h.At(x);
      Read(x); Read(h.P(x));
    }

    method Blacken(ghost x: Node)
      requires Coupled() && h.RedAt(x) && !h.Red(h.P(x))
      modifies this`h, h.cells.Keys`red
      ensures Valid() && h.cells.Keys == old(h.cells.Keys)
    {
      Read(root);
      h.InsertDone(x);
      SetRed(root.left, false, h.Bh(h.L(root)) + 1 - h.Blk(h.L(root)));
    }

    lemma CoupledWhole(z: Node)
      requires CoupledBut(z) && z.red == h.Red(z)
      ensures Coupled()
    {
    }

    // everything RBTreeInsert does to the tree once the node is allocated
    method InsertNode(x: Node)
      requires Valid() && x !in h.cells && 0 <= x.key < KEY_LIMIT && x.key !in Keys(h)
      modifies this`h, x`left, x`right, x`parent, x`red
      modifies h.cells.Keys`left, h.cells.Keys`right, h.cells.Keys`parent, h.cells.Keys`red
      ensures Valid() && h.cells.Keys == old(h.cells.Keys) + {x}
    {
      TreeInsertHelp(x);
      x.red := true;
      CoupledWhole(x);
      RepairInsert(x);
    }

    // the keys stored in the node objects
    lemma KeysInNodes()
      requires Coupled()
      ensures Keys(h) == KeysOf(h.Names()) && h.Names() == h.cells.Keys - {root, nil}
    {
      forall n | n in h.Names() ensures n.key == h.K(n) { Read(n); }
    }

    method Allocate(key: int, capability: int, group: Group) returns (n: Node)
      ensures fresh(n) && n.key == key && n.capability == capability && fresh(n.list) && n.list.groups == [group]
    {
      var list := new GroupList(group);
      n := new Node(key, capability, list);
    }

    method RBTreeInsert(key: int, capability: int, group: Group) returns (newNode: Node)
      requires Valid() && 0 <= key < KEY_LIMIT && key !in Keys(h)
      modifies this`h, h.cells.Keys`left, h.cells.Keys`right, h.cells.Keys`parent, h.cells.Keys`red
      ensures Valid() && fresh(newNode) && h.cells.Keys == old(h.cells.Keys) + {newNode}
      ensures h.Names() == old(h.Names()) + {newNode} && Keys(h) == old(Keys(h)) + {key}
      ensures newNode.key == key && newNode.capability == capability
      ensures fresh(newNode.list) && newNode.list.groups == [group]
    {
      newNode := Allocate(key, capability, group);
      InsertKey(newNode);
    }

    method InsertKey(x: Node)
      requires Valid() && x !in h.cells && 0 <= x.key < KEY_LIMIT && x.key !in Keys(h)
      modifies this`h, x`left, x`right, x`parent, x`red
      modifies h.cells.Keys`left, h.cells.Keys`right, h.cells.Keys`parent, h.cells.Keys`red
      ensures Valid() && h.cells.Keys == old(h.cells.Keys) + {x}
      ensures h.Names() == old(h.Names()) + {x} && Keys(h) == old(Keys(h)) + {x.key}
    {
      KeysInNodes();
      ghost var s := h.cells.Keys;
      InsertNode(x);
      KeysAfter(s + {x});
      OneMoreKey(s, x);
    }

    lemma OneMoreKey(s: set<Node>, x: Node)
      requires root in s && nil in s && x !in s
      ensures s + {x} - {root, nil} == s - {root, nil} + {x}
      ensures KeysOf(s + {x} - {root, nil}) == KeysOf(s - {root, nil}) + {x.key}
    {
      assert s + {x} - {root, nil} == s - {root, nil} + {x};
      KeysOfMore(s - {root, nil}, x);
    }

    // ---- deletion ----

    // case 2 of RBDeleteFixUp
    method BothBlack(x: Node, w: Node)
      requires Coupled() && x in h.cells && w in h.cells && h.P(x) in h.cells && w != h.P(x)
      modifies this`h, h.cells.Keys`red
      ensures Coupled() && h == Case2(old(h), old(h).P(x), w) && x.parent == old(h).P(x)
              && h.cells.Keys == old(h.cells.Keys)
    {
      ghost var h0 := h;
      ghost var p := h.P(x);
      Read(x);
      SetRed(w, true, h0.Bh(w) - 1);
      Repaint(p, h0.Bh(p) - 1);
    }

    // only the ghost black height changes
    ghost method Repaint(n: Node, bh: int)
      requires Coupled() && n in h.cells
      modifies this`h
      ensures Coupled() && h == old(h).Paint(n, old(h).Red(n), bh) && h.cells.Keys == old(h.cells.Keys)
    {
      ghost var g := h.Paint(n, h.Red(n), bh);
      forall m | m in g.cells ensures Mirrors(m, g.cells[m]) {
        assert Mirrors(m, h.cells[m]);
      }
      h := g;
    }

    // the colours of case 1
    method PaintRedSibling(x: Node, w: Node)
      requires Coupled() && x in h.cells && w in h.cells && h.P(x) in h.cells && w != h.P(x)
      modifies this`h, h.cells.Keys`red
      ensures Coupled() && h == Case1Painted(old(h), old(h).P(x), w) && h.cells.Keys == old(h.cells.Keys)
    {
      ghost var h0 := h;
      ghost var p := h.P(x);
      Read(x);
      SetRed(w, false, h0.Bh(w) + 1);
      SetRed(x.parent, true, h0.Bh(p) - 1);
      assert h == h0.Paint(w, false, h0.Bh(w) + 1).Paint(p, true, h0.Bh(p) - 1);
    }

    // case 1 of RBDeleteFixUp, x on the left: the sibling is made black
    method BlackSiblingLeft(x: Node) returns (w: Node)
      requires Coupled() && Case1Ready(h, x, true)
      modifies this`h, h.cells.Keys`left, h.cells.Keys`right, h.cells.Keys`parent, h.cells.Keys`red
      ensures Coupled() && h == AfterCase1(old(h), x, true) && w == Sibling(h, x, true)
              && h.cells.Keys == old(h.cells.Keys)
    {
      ghost var h0 := h;
      ghost var p := h.P(x);
      Read(x); Read(p);
      w := x.parent.right;
      Read(w);
      if w.red {
        PaintRedSibling(x, w);
        assert h == Case1Painted(h0, p, w) && x.parent == p;
        LeftRotate(x.parent);
        assert h == AfterCase1(h0, x, true) && h.P(x) == p;
        Read(x); Read(p);
        w := x.parent.right;
      }
    }

    method PaintNephew(w: Node, c: Node)
      requires Coupled() && w in h.cells && c in h.cells && c != w
      modifies this`h, h.cells.Keys`red
      ensures Coupled() && h == Case3Painted(old(h), w, c) && h.cells.Keys == old(h.cells.Keys)
    {
      ghost var bh := h.Bh(w) - 1;
      SetRed(c, false, h.Bh(c) + 1);
      SetRed(w, true, bh);
    }

    method TurnNephewLeft(x: Node, w: Node)
      requires Coupled() && Case3Ready(h, x, true) && w == Sibling(h, x, true) && !h.Red(Far(h, w, true))
      modifies this`h, h.cells.Keys`left, h.cells.Keys`right, h.cells.Keys`parent, h.cells.Keys`red
      ensures Coupled() && h == AfterCase3(old(h), x, true) && h.cells.Keys == old(h.cells.Keys)
    {
      Read(w);
      PaintNephew(w, w.left);
      RightRotate(w);
    }

    method TurnNephewRight(x: Node, w: Node)
      requires Coupled() && Case3Ready(h, x, false) && w == Sibling(h, x, false) && !h.Red(Far(h, w, false))
      modifies this`h, h.cells.Keys`left, h.cells.Keys`right, h.cells.Keys`parent, h.cells.Keys`red
      ensures Coupled() && h == AfterCase3(old(h), x, false) && h.cells.Keys == old(h.cells.Keys)
    {
      Read(w);
      PaintNephew(w, w.right);
      LeftRotate(w);
    }

    // case 3, x on the left: the far nephew is made red
    method RedNephewLeft(x: Node, w0: Node) returns (w: Node)
      requires Coupled() && Case3Ready(h, x, true) && w0 == Sibling(h, x, true)
      modifies this`h, h.cells.Keys`left, h.cells.Keys`right, h.cells.Keys`parent, h.cells.Keys`red
      ensures Coupled() && h == AfterCase3(old(h), x, true) && w == Sibling(h, x, true)
              && h.cells.Keys == old(h.cells.Keys)
    {
      w := w0;
      Read(w); Read(h.R(w));
      if !w.right.red {
        TurnNephewLeft(x, w);
        Read(x); Read(h.P(x));
        w := x.parent.right;
      }
    }

    // case 4: the sibling takes the colour of the parent, which turns black
    method PaintSibling(x: Node, w: Node)
      requires Coupled() && x in h.cells && w in h.cells && h.P(x) in h.cells && w != h.P(x)
      modifies this`h, h.cells.Keys`red
      ensures Coupled() && h == SiblingPainted(old(h), x, old(h).P(x), w)
      ensures h.cells.Keys == old(h.cells.Keys)
    {
      ghost var h0 := h;
      ghost var p := h.P(x);
      Read(x); Read(p);
      SetRed(w, x.parent.red, h0.Bh(p));
      SetRed(x.parent, false, h0.Bh(x) + 1);
    }

    method PaintFar(x: Node, w: Node, f: Node)
      requires Coupled() && x in h.cells && w in h.cells && f in h.cells && h.P(x) in h.cells
      requires f != w && w != h.P(x) && f != h.P(x)
      modifies this`h, h.cells.Keys`red
      ensures Coupled() && h == Case4Painted(old(h), x, old(h).P(x), w, f)
      ensures h.cells.Keys == old(h.cells.Keys)
    {
      ghost var bh := h.Bh(f) + 1;
      ghost var k := SiblingPainted(h, x, h.P(x), w);
      assert Case4Painted(h, x, h.P(x), w, f) == k.Paint(f, false, bh);
      PaintSibling(x, w);
      assert h == k;
      SetRed(f, false, bh);
    }

    // case 4, x on the left
    method FarNephewLeft(x: Node, w: Node)
      requires Coupled() && Case4Ready(h, x, true) && w == Sibling(h, x, true)
      modifies this`h, h.cells.Keys`left, h.cells.Keys`right, h.cells.Keys`parent, h.cells.Keys`red
      ensures Coupled() && h == AfterCase4(old(h), x, true) && h.cells.Keys == old(h.cells.Keys)
    {
      ghost var h0 := h;
      ghost var p, f := h.P(x), h.R(w);
      Read(x); Read(p); Read(w);
      PaintFar(x, w, w.right);
      assert h == Case4Painted(h0, x, p, w, f) && x.parent == p;
      LeftRotate(x.parent);
    }

    // one round of the loop of RBDeleteFixUp, x on the left
    method FixUpLeft(x0: Node, top: Node) returns (x: Node)
      requires Coupled() && DeleteReady(h, x0) && (x0 == h.L(h.P(x0)))
      modifies this`h, h.cells.Keys`left, h.cells.Keys`right, h.cells.Keys`parent, h.cells.Keys`red
      ensures Coupled() && (h, x) == DeleteRound(old(h), x0, top) && h.cells.Keys == old(h.cells.Keys)
    {
      x := x0;
      var w := BlackSiblingLeft(x);
      ghost var h1 := h;
      assert h1 == AfterCase1(old(h), x, true) && w == Sibling(h1, x, true);
      Read(w); Read(h1.L(w)); Read(h1.R(w));
      if !w.right.red && !w.left.red {
        BothBlack(x, w);
        x := x.parent;
      } else {
        w := RedNephewLeft(x, w);
        assert h == AfterCase3(h1, x, true);
        FarNephewLeft(x, w);
        x := top;
      }
    }

    // case 1 of RBDeleteFixUp, x on the right: the sibling is made black
    method BlackSiblingRight(x: Node) returns (w: Node)
      requires Coupled() && Case1Ready(h, x, false)
      modifies this`h, h.cells.Keys`left, h.cells.Keys`right, h.cells.Keys`parent, h.cells.Keys`red
      ensures Coupled() && h == AfterCase1(old(h), x, false) && w == Sibling(h, x, false)
              && h.cells.Keys == old(h.cells.Keys)
    {
      ghost var h0 := h;
      ghost var p := h.P(x);
      Read(x); Read(p);
      w := x.parent.left;
      Read(w);
      if w.red {
        PaintRedSibling(x, w);
        assert h == Case1Painted(h0, p, w) && x.parent == p;
        RightRotate(x.parent);
        assert h == AfterCase1(h0, x, false) && h.P(x) == p;
        Read(x); Read(p);
        w := x.parent.left;
      }
    }

    // case 3, x on the right: the far nephew is made red
    method RedNephewRight(x: Node, w0: Node) returns (w: Node)
      requires Coupled() && Case3Ready(h, x, false) && w0 == Sibling(h, x, false)
      modifies this`h, h.cells.Keys`left, h.cells.Keys`right, h.cells.Keys`parent, h.cells.Keys`red
      ensures Coupled() && h == AfterCase3(old(h), x, false) && w == Sibling(h, x, false)
              && h.cells.Keys == old(h.cells.Keys)
    {
      w := w0;
      Read(w); Read(h.L(w));
      if !w.left.red {
        TurnNephewRight(x, w);
        Read(x); Read(h.P(x));
        w := x.parent.left;
      }
    }

    // case 4, x on the right
    method FarNephewRight(x: Node, w: Node)
      requires Coupled() && Case4Ready(h, x, false) && w == Sibling(h, x, false)
      modifies this`h, h.cells.Keys`left, h.cells.Keys`right, h.cells.Keys`parent, h.cells.Keys`red
      ensures Coupled() && h == AfterCase4(old(h), x, false) && h.cells.Keys == old(h.cells.Keys)
    {
      ghost var h0 := h;
      ghost var p, f := h.P(x), h.L(w);
      Read(x); Read(p); Read(w);
      PaintFar(x, w, w.left);
      assert h == Case4Painted(h0, x, p, w, f) && x.parent == p;
      RightRotate(x.parent);
    }

    // one round of the loop of RBDeleteFixUp, x on the right
    method FixUpRight(x0: Node, top: Node) returns (x: Node)
      requires Coupled() && DeleteReady(h, x0) && !(x0 == h.L(h.P(x0)))
      modifies this`h, h.cells.Keys`left, h.cells.Keys`right, h.cells.Keys`parent, h.cells.Keys`red
      ensures Coupled() && (h, x) == DeleteRound(old(h), x0, top) && h.cells.Keys == old(h.cells.Keys)
    {
      x := x0;
      var w := BlackSiblingRight(x);
      ghost var h1 := h;
      assert h1 == AfterCase1(old(h), x, false) && w == Sibling(h1, x, false);
      Read(w); Read(h1.L(w)); Read(h1.R(w));
      if !w.right.red && !w.left.red {
        BothBlack(x, w);
        x := x.parent;
      } else {
        w := RedNephewRight(x, w);
        assert h == AfterCase3(h1, x, false);
        FarNephewRight(x, w);
        x := top;
      }
    }

    method RBDeleteFixUp(x0: Node)
      requires Coupled() && h.Short(x0, h.P(x0))
      modifies this`h, h.cells.Keys`left, h.cells.Keys`right, h.cells.Keys`parent, h.cells.Keys`red
      ensures Valid() && h.cells.Keys == old(h.cells.Keys)
    {
      var x := x0;
      Read(root);
      var top := root.left;
      FixUpStarts(h, x, h.P(x));
      Read(x);
      while !x.red && top != x
        invariant Coupled() && h.cells.Keys == old(h.cells.Keys)
        invariant x in h.cells && x.red == h.Red(x)
        invariant Fixing(h, x, top)
        invariant Looping(h, x, top) ==> Climb(h, x) >= 0
        decreases Looping(h, x, top), Climb(h, x)
      {
        DeleteRoundRepairs(h, x, top);
        Read(x); Read(h.P(x));
        if x == x.parent.left {
          x := FixUpLeft(x, top);
        } else {
          x := FixUpRight(x, top);
        }
        Read(x);
      }
      BlackenAt(x, top);
    }

    // the assignment after the loop of RBDeleteFixUp
    method BlackenAt(x: Node, ghost top: Node)
      requires Coupled() && Fixing(h, x, top) && !Looping(h, x, top)
      modifies this`h, h.cells.Keys`red
      ensures Valid() && h.cells.Keys == old(h.cells.Keys)
    {
      ghost var k := h.Paint(x, false, h.Bh(x) + 1 - h.Blk(x));
      FixUpEnds(h, x, top);
      SetRed(x, false, h.Bh(x) + 1 - h.Blk(x));
      assert h == k;
    }

    // ---- searching ----

    method RBFindNodeByID(q: int) returns (r: Node?, ghost visits: nat)
      requires Valid()
      ensures r == null <==> q !in Keys(h)
      ensures r != null ==> h.In(r) && r.key == q
      ensures visits == Visits(h, Top(h), q) && Pow2(visits) <= (|Keys(h)| + 1) * (|Keys(h)| + 1)
    {
      SearchIsLogarithmic(h, q);
      Read(root);
      var x := root.left;
      visits := 0;
      while x != nil
        invariant x == nil || h.In(x)
        invariant Search(h, Top(h), q) == Search(h, x, q)
        invariant visits + Visits(h, x, q) == Visits(h, Top(h), q)
        decreases Width(h, x)
      {
        Read(x);
        assert h.At(x);
        visits := visits + 1;
        if x.key == q {
          return x, visits;
        }
        if h.L(x) != nil { assert h.At(h.L(x)); }
        if h.R(x) != nil { assert h.At(h.R(x)); }
        if x.key > q {
          x := x.left;
        } else {
          x := x.right;
        }
      }
      if q in Keys(h) {
        ghost var n :| n in h.cells && h.In(n) && h.K(n) == q;
        SearchFinds(h, n);
      }
      r := null;
    }

    // the node with the least key above that of x0, or nil
    method TreeSuccessor(x0: Node) returns (y: Node)
      requires Valid() && h.In(x0)
      ensures y == nil ==> forall n {:trigger h.K(n)} :: n in h.cells && h.In(n) ==> h.K(n) <= h.K(x0)
      ensures y != nil ==> h.In(y) && h.K(x0) < h.K(y)
      ensures y != nil ==> forall n {:trigger h.K(n)} :: n in h.cells && h.In(n) && h.K(x0) < h.K(n) ==>
              h.K(y) <= h.K(n)
      ensures h.R(x0) != nil ==> y != nil && h.L(y) == nil
    {
      Read(x0);
      assert h.At(x0);
      y := x0.right;
      if y != nil {
        assert h.At(y);
        Read(y);
        while y.left != nil
          invariant h.In(y) && y.left == h.L(y) && h.K(x0) < h.K(y) && h.Hi(y) <= h.Hi(x0) && h.K(x0) <= h.Lo(y)
          invariant forall k {:trigger Search(h, x0, k)} :: h.K(x0) < k <= h.K(y) ==>
                    Search(h, x0, k) == Search(h, y, k)
          decreases Width(h, y)
        {
          assert h.At(y);
          assert h.At(h.L(y));
          y := y.left;
          Read(y);
        }
        forall n | n in h.cells && h.In(n) && h.K(x0) < h.K(n) ensures h.K(y) <= h.K(n) {
          NoneBetween(h, x0, y, n);
        }
      } else {
        var x := x0;
        y := x.parent;
        Read(y);
        while x == y.right
          invariant h.In(x) && h.P(x) == y && y in h.cells && y.right == h.R(y) && (y == root || h.In(y))
          invariant h.Lo(x) < h.K(x0) < h.Hi(x)
          invariant forall k {:trigger Search(h, x, k)} :: h.K(x0) < k ==> Search(h, x, k) == nil
          decreases KEY_LIMIT + 1 - Width(h, x)
        {
          assert h.At(x);
          assert h.At(y);
          x := y;
          Read(x);
          y := y.parent;
          Read(y);
        }
        assert h.At(x);
        assert x == h.L(y);
        forall n | n in h.cells && h.In(n) && h.K(x0) < h.K(n) ensures y != root && h.K(y) <= h.K(n) {
          NoneBelow(h, x0, x, y, n);
        }
        if y == root {
          y := nil;
        } else {
          assert h.At(y);
        }
      }
    }

    // the pointer writes of the splice at the start of RBDelete
    method SplicePointers(y: Node) returns (x: Node)
      requires y.parent !in {y, y.left, y.right} && y !in {y.left, y.right}
      modifies y.left`parent, y.right`parent, y.parent`left, y.parent`right
      ensures x == old(if y.left == nil then y.right else y.left) && x.parent == y.parent == old(y.parent)
      ensures var p := y.parent;
              && p.left == (if root == p || old(p.left) == y then x else old(p.left))
              && p.right == (if root == p || old(p.left) == y then old(p.right) else x)
      ensures forall n {:trigger n.parent} :: n in {y.left, y.right} && n != x ==> n.parent == old(n.parent)
    {
      x := if y.left == nil then y.right else y.left;
      x.parent := y.parent;
      if root == y.parent {
        root.left := x;
      } else {
        if y == y.parent.left {
          y.parent.left := x;
        } else {
          y.parent.right := x;
        }
      }
    }

    // splices y out and returns the child that moves up
    method SpliceOut(y: Node) returns (x: Node)
      requires Coupled() && y in h.cells && h.P(y) in h.cells && h.L(y) in h.cells && h.R(y) in h.cells
      requires h.P(y) !in {y, h.L(y), h.R(y)} && y !in {h.L(y), h.R(y)}
      modifies this`h, h.cells.Keys`left, h.cells.Keys`right, h.cells.Keys`parent
      ensures Coupled() && h == Spliced(old(h), y) && x == OnlyChild(old(h), y)
      ensures h.cells.Keys == old(h.cells.Keys) - {y}
    {
      ghost var g := Spliced(h, y);
      Read(y); Read(h.P(y));
      x := SplicePointers(y);
      forall n | n in g.cells ensures Mirrors(n, g.cells[n]) {
        assert old(Mirrors(n, h.cells[n]));
      }
      h := g;
    }

    // the pointer writes at the end of RBDelete: y takes over the place of z
    method TakeOverPointers(z: Node, y: Node)
      requires z.parent !in {z, z.left, z.right} && z !in {z.left, z.right} && y !in {z, z.left, z.right, z.parent}
      modifies y`left, y`right, y`parent, y`red, z.left`parent, z.right`parent, z.parent`left, z.parent`right
      ensures y.left == z.left && y.right == z.right && y.parent == z.parent && y.red == z.red
      ensures z.left.parent == y && z.right.parent == y
      ensures var p := z.parent;
              && p.left == (if old(p.left) == z then y else old(p.left))
              && p.right == (if old(p.left) == z then old(p.right) else y)
    {
      y.left := z.left;
      y.right := z.right;
      y.parent := z.parent;
      y.red := z.red;
      z.left.parent := y;
      z.right.parent := y;
      if z == z.parent.left {
        z.parent.left := y;
      } else {
        z.parent.right := y;
      }
    }

    method TakeOver(z: Node, y: Node)
      requires Coupled() && z in h.cells && y !in h.cells && h.P(z) in h.cells && h.L(z) in h.cells && h.R(z) in h.cells
      requires h.P(z) !in {z, h.L(z), h.R(z)} && z !in {h.L(z), h.R(z)}
      modifies this`h, h.cells.Keys`left, h.cells.Keys`right, h.cells.Keys`parent
      modifies y`left, y`right, y`parent, y`red
      ensures Coupled() && h == Replaced(old(h), z, y, y.key)
      ensures h.cells.Keys == old(h.cells.Keys) - {z} + {y}
    {
      ghost var g := Replaced(h, z, y, y.key);
      Read(z); Read(h.P(z));
      TakeOverPointers(z, y);
      forall n | n in g.cells ensures Mirrors(n, g.cells[n]) {
        if n != y { assert old(Mirrors(n, h.cells[n])); }
      }
      h := g;
    }

    // what splicing y out leaves: nothing to repair, or a tree short of a black node at the child
    method SpliceChecked(y: Node) returns (x: Node)
      requires Valid() && h.In(y) && h.Tipped(y)
      modifies this`h, h.cells.Keys`left, h.cells.Keys`right, h.cells.Keys`parent
      ensures Coupled() && y.red == old(h).Red(y) && h.cells.Keys == old(h.cells.Keys) - {y}
      ensures if old(h).Red(y) then h.Linked() && h.Balanced() else h.Short(x, h.P(x))
    {
      h.Around(y);
      Read(y);
      SplicedLinked(h, y);
      if h.Red(y) { SplicedRed(h, y); } else { SplicedBlack(h, y); SplicedParent(h, y); }
      ghost var k := Spliced(h, y);
      x := SpliceOut(y);
      assert h == k;
    }

    // splices out a node with at most one child and repairs the black heights
    method Unlink(y: Node)
      requires Valid() && h.In(y) && h.Tipped(y)
      modifies this`h, h.cells.Keys`left, h.cells.Keys`right, h.cells.Keys`parent, h.cells.Keys`red
      ensures Valid() && h.cells.Keys == old(h.cells.Keys) - {y}
    {
      var x := SpliceChecked(y);
      if !y.red {
        RBDeleteFixUp(x);
      }
    }

    lemma SuccessorKept(z: Node, y: Node)
      requires Coupled() && h.Linked() && h.In(z) && y !in h.cells && z.key < y.key < KEY_LIMIT
      requires forall n {:trigger n.key} :: n in h.Names() && n != z && n.key > z.key ==> n.key > y.key
      ensures Successor(h, z, y, y.key)
    {
      Read(z);
      forall n | n in h.cells && h.In(n) && n != z && h.K(n) > h.K(z) ensures h.K(n) > y.key { Read(n); }
    }

    lemma SwapOut(s: set<Node>, y: Node, z: Node)
      requires y in s && y != z
      ensures s - {y} - {z} + {y} == s - {z}
    {
    }

    // the node RBDelete unlinks: z itself, or its successor when z has two children
    method SpliceTarget(z: Node) returns (y: Node)
      requires Valid() && h.In(z)
      ensures h.In(y) && h.Tipped(y) && z.key <= y.key < KEY_LIMIT && (y != z ==> z.key < y.key)
      ensures y != z ==> forall n {:trigger n.key} :: n in h.Names() && n != z && n != y && n.key > z.key ==>
              n.key > y.key
    {
      Read(z);
      assert h.At(z);
      y := z;
      if z.left != nil && z.right != nil {
        y := TreeSuccessor(z);
        Read(y);
        assert h.At(y);
        forall n | n in h.Names() && n != z && n != y && n.key > z.key ensures n.key > y.key {
          Read(n);
          if n.key == y.key { KeysDistinct(h, n, y); }
        }
      }
    }

    // y, already unlinked, replaces z
    method StepIn(z: Node, y: Node)
      requires Valid() && h.In(z) && y !in h.cells && z.key < y.key < KEY_LIMIT
      requires forall n {:trigger n.key} :: n in h.Names() && n != z && n.key > z.key ==> n.key > y.key
      modifies this`h, h.cells.Keys`left, h.cells.Keys`right, h.cells.Keys`parent
      modifies y`left, y`right, y`parent, y`red
      ensures Valid() && h.cells.Keys == old(h.cells.Keys) - {z} + {y}
    {
      ghost var k := Replaced(h, z, y, y.key);
      SuccessorKept(z, y);
      h.Around(z);
      ReplacedLinked(h, z, y, y.key);
      ReplacedColours(h, z, y, y.key);
      TakeOver(z, y);
      assert h == k;
    }

    method RBDelete(z: Node)
      requires Valid() && h.In(z)
      modifies this`h, h.cells.Keys`left, h.cells.Keys`right, h.cells.Keys`parent, h.cells.Keys`red
      ensures Valid() && h.cells.Keys == old(h.cells.Keys) - {z}
      ensures h.Names() == old(h.Names()) - {z} && Keys(h) == old(Keys(h)) - {z.key}
    {
      OtherKeys(z);
      ghost var s := h.cells.Keys;
      DeleteNode(z);
      KeysAfter(s - {z});
    }

    // everything RBDelete does to the tree
    method DeleteNode(z: Node)
      requires Valid() && h.In(z)
      modifies this`h, h.cells.Keys`left, h.cells.Keys`right, h.cells.Keys`parent, h.cells.Keys`red
      ensures Valid() && h.cells.Keys == old(h.cells.Keys) - {z}
    {
      ghost var s := h.cells.Keys;
      var y := SpliceTarget(z);
      Unlink(y);
      if y != z {
        StepIn(z, y);
        SwapOut(s, y, z);
      }
    }

    // stored is what the tree holds now
    lemma KeysAfter(stored: set<Node>)
      requires Coupled() && stored == h.cells.Keys
      ensures h.Names() == stored - {root, nil} && Keys(h) == KeysOf(stored - {root, nil})
    {
      KeysInNodes();
    }

    lemma OtherKeys(z: Node)
      requires Valid() && h.In(z)
      ensures KeysOf(h.Names() - {z}) == Keys(h) - {z.key}
    {
      KeysInNodes();
      Read(z);
      forall n | n in h.Names() && n.key == z.key ensures n == z { Read(n); KeysDistinct(h, n, z); }
    }

    // ---- the three operations, for a caller that keeps a map from keys to nodes ----

    ghost predicate Holds(nodes: map<int, Node>)
      reads this, h.cells.Keys
    {
      && Valid() && nodes.Keys == Keys(h)
      && forall k {:trigger nodes[k]} :: k in nodes ==> nodes[k] in h.Names() && nodes[k].key == k
    }

    // Holds, for proofs that only carry it along
    ghost predicate Keeps(nodes: map<int, Node>)
      reads this, h.cells.Keys
    {
      forall u: Gate {:trigger Opened(u)} :: Opened(u) && u == TreeGate ==> Holds(nodes)
    }

    method Find(key: int, ghost nodes: map<int, Node>) returns (n: Node?)
      requires Keeps(nodes)
      ensures n == null <==> key !in nodes
      ensures n != null ==> key in nodes && n == nodes[key]
    {
      ghost var visits;
      assert Opened(TreeGate);
      n, visits := RBFindNodeByID(key);
      if n != null {
        assert key in nodes;
        Read(n); Read(nodes[key]);
        KeysDistinct(h, n, nodes[key]);
      }
    }

    method Add(key: int, capability: int, group: Group, ghost nodes: map<int, Node>) returns (n: Node)
      requires Keeps(nodes) && 0 <= key < KEY_LIMIT && key !in nodes
      modifies this`h, h.cells.Keys
      ensures Keeps(nodes[key := n]) && fresh(n) && h.cells.Keys == old(h.cells.Keys) + {n}
      ensures n.capability == capability && fresh(n.list) && n.list.groups == [group]
    {
      assert Opened(TreeGate);
      ghost var names, keys := h.Names(), Keys(h);
      n := RBTreeInsert(key, capability, group);
      HoldsMore(nodes, names, keys, n);
    }

    lemma HoldsMore(nodes: map<int, Node>, names: set<Node>, keys: set<int>, n: Node)
      requires Valid() && h.Names() == names + {n} && Keys(h) == keys + {n.key} && nodes.Keys == keys
      requires forall k {:trigger nodes[k]} :: k in nodes ==> nodes[k] in names && nodes[k].key == k
      ensures Keeps(nodes[n.key := n])
    {
    }

    method Remove(n: Node, ghost key: int, ghost nodes: map<int, Node>)
      requires Keeps(nodes) && key in nodes && nodes[key] == n
      modifies this`h, h.cells.Keys
      ensures Keeps(nodes - {key}) && h.cells.Keys == old(h.cells.Keys) - {n}
    {
      assert Opened(TreeGate);
      ghost var names, keys := h.Names(), Keys(h);
      RBDelete(n);
      HoldsLess(nodes, names, keys, n);
    }

    lemma HoldsLess(nodes: map<int, Node>, names: set<Node>, keys: set<int>, n: Node)
      requires Valid() && h.Names() == names - {n} && Keys(h) == keys - {n.key} && nodes.Keys == keys
      requires n.key in nodes && nodes[n.key] == n
      requires forall k {:trigger nodes[k]} :: k in nodes ==> nodes[k] in names && nodes[k].key == k
      ensures Keeps(nodes - {n.key})
    {
    }
  }
}
