// The doubly linked intrusive list every registry and moderator list is made of.
module SnList {
  import opened Basics

  class Element {
    var next: Element?
    var prev: Element?

    constructor ()
      ensures next == null && prev == null
    {
      next, prev := null, null;
    }
  }

  // the element n steps along next, or along prev
  ghost function After(e: Element?, n: nat): Element?
    reads *
  {
    if n == 0 || e == null then e else After(e.next, n - 1)
  }

  ghost function Before(e: Element?, n: nat): Element?
    reads *
  {
    if n == 0 || e == null then e else Before(e.prev, n - 1)
  }

  ghost function Members(s: seq<Element>): set<Element> { set x | x in s }

  ghost predicate Apart(s: seq<Element>, t: seq<Element>) { forall i, j :: 0 <= i < |s| && 0 <= j < |t| ==>
      s[i] != t[j] }

  // Distinct, for proofs that only carry it along
  ghost predicate Separate(s: seq<Element>) { forall u: Gate {:trigger Opened(u)} :: Opened(u) && u == ListGate ==>
      Distinct(s) }

  ghost function Or(s: seq<Element>, i: int): Element? { if 0 <= i < |s| then s[i] else null }

  ghost predicate Joined(s: seq<Element>, i: int)
    requires 0 <= i < |s|
    reads {s[i]}`next, {s[i]}`prev
  {
    s[i].next == Or(s, i + 1) && s[i].prev == Or(s, i - 1)
  }

  // the sequence with e put before b, at the end when b is null
  ghost function Inserted(s: seq<Element>, e: Element, b: Element?): seq<Element>
    requires b == null || b in s
  {
    if b == null then s + [e] else var k := IndexOf(s, b); s[..k] + [e] + s[k..]
  }

  ghost function Removed(s: seq<Element>, e: Element): seq<Element>
    requires e in s
  {
    var k := IndexOf(s, e); s[..k] + s[k + 1..]
  }

  ghost function IndexOf(s: seq<Element>, e: Element): (k: nat)
    requires e in s
    ensures k < |s| && s[k] == e
    ensures forall i :: 0 <= i < k ==> s[i] != e
  {
    if s[0] == e then 0 else 1 + IndexOf(s[1..], e)
  }

  lemma RemovedMembers(s: seq<Element>, e: Element)
    requires Separate(s) && e in s
    ensures Separate(Removed(s, e)) && |Removed(s, e)| == |s| - 1
    ensures forall x :: x in Removed(s, e) <==> x in s && x != e
  {
    assert Opened(ListGate);
    var k := IndexOf(s, e);
    var r := Removed(s, e);
    forall x | x in s && x != e ensures x in r {
      var i :| 0 <= i < |s| && s[i] == x;
      assert r[if i < k then i else i - 1] == x;
    }
  }

  lemma InsertedMembers(s: seq<Element>, e: Element, b: Element?)
    requires Separate(s) && e !in s && (b == null || b in s)
    ensures Separate(Inserted(s, e, b)) && |Inserted(s, e, b)| == |s| + 1
    ensures forall x :: x in Inserted(s, e, b) <==> x in s || x == e
  {
    var k := if b == null then |s| else IndexOf(s, b);
    assert Inserted(s, e, b) == s[..k] + [e] + s[k..];
    assert s == s[..k] + s[k..];
    StillSeparate(s, e, k);
  }

  lemma StillSeparate(s: seq<Element>, e: Element, k: nat)
    requires Separate(s) && e !in s && k <= |s|
    ensures Separate(s[..k] + [e] + s[k..])
  {
    assert Opened(ListGate);
    var r := s[..k] + [e] + s[k..];
    forall i, j | 0 <= i < j < |r| ensures r[i] != r[j] {
      assert r[i] == if i < k then s[i] else if i == k then e else s[i - 1];
      assert r[j] == if j < k then s[j] else if j == k then e else s[j - 1];
    }
  }

  lemma InsertedAt(s: seq<Element>, e: Element, b: Element?, i: int)
    requires b == null || b in s
    ensures var k := if b == null then |s| else IndexOf(s, b);
            Or(Inserted(s, e, b), i) == if i < k then Or(s, i) else if i == k then e else Or(s, i - 1)
  {
  }

  // e stands between its neighbours at position k
  ghost predicate LinkedIn(s: seq<Element>, e: Element, k: int)
    reads e`next, e`prev, s`next, s`prev
  {
    e.next == Or(s, k) && e.prev == Or(s, k - 1) && forall j :: 0 <= j < |s| ==> Beside(s, e, k, j)
  }

  ghost predicate Beside(s: seq<Element>, e: Element, k: int, j: nat)
    requires j < |s|
    reads {s[j]}`next, {s[j]}`prev
  {
    s[j].next == (if j == k - 1 then e else Or(s, j + 1)) && s[j].prev == (if j == k then e else Or(s, j - 1))
  }

  ghost predicate Chain(s: seq<Element>)
    reads s`next, s`prev
  {
    forall i :: 0 <= i < |s| ==> Joined(s, i)
  }

  // Chain, for proofs that only carry it along
  ghost predicate Linked(s: seq<Element>)
    reads s`next, s`prev
  {
    forall u: Gate {:trigger Opened(u)} :: Opened(u) && u == ListGate ==> Chain(s)
  }

  lemma InsertedChain(s: seq<Element>, e: Element, b: Element?, k: nat)
    requires (b == null || b in s) && k == (if b == null then |s| else IndexOf(s, b)) && LinkedIn(s, e, k)
    ensures Linked(Inserted(s, e, b))
  {
    forall i | 0 <= i < |Inserted(s, e, b)| ensures Joined(Inserted(s, e, b), i) {
      if i < k { assert Beside(s, e, k, i); }
      if i > k { assert Beside(s, e, k, i - 1); }
      InsertedAt(s, e, b, i - 1);
      InsertedAt(s, e, b, i);
      InsertedAt(s, e, b, i + 1);
    }
  }

  lemma InsertedWhole(s: seq<Element>, e: Element, b: Element?, k: nat) returns (t: seq<Element>)
    requires (b == null || b in s) && k == (if b == null then |s| else IndexOf(s, b)) && LinkedIn(s, e, k)
             && Separate(s) && e !in s
    ensures t == Inserted(s, e, b) && Separate(t) && Linked(t) && |t| == |s| + 1
    ensures Or(t, 0) == (if k == 0 then e else Or(s, 0)) && Or(t, |s|) == (if k == |s| then e else Or(s, |s| - 1))
  {
    t := Inserted(s, e, b);
    InsertedMembers(s, e, b);
    InsertedChain(s, e, b, k);
    InsertedAt(s, e, b, 0);
    InsertedAt(s, e, b, |s|);
  }

  lemma Removing(a: seq<Element>, e: Element, b: seq<Element>)
    requires e !in a
    ensures e in a + ([e] + b) && Removed(a + ([e] + b), e) == a + b
  {
    var r := a + ([e] + b);
    assert r[|a|] == e;
    assert forall i :: 0 <= i < |a| ==> r[i] == a[i];
    var k := IndexOf(r, e);
    assert k == |a|;
    assert r[..k] == a && r[k + 1..] == b;
  }

  // unlinking what was just inserted gives the old list back
  lemma InsertedSplit(s: seq<Element>, e: Element, b: Element?) returns (l: seq<Element>, r: seq<Element>)
    requires e !in s && (b == null || b in s)
    ensures l + r == s && e !in l && Inserted(s, e, b) == l + ([e] + r)
  {
    if b == null {
      l, r := s, [];
      assert [e] + r == [e];
    } else {
      var k := IndexOf(s, b);
      l, r := s[..k], s[k..];
      assert l + [e] + r == l + ([e] + r);
    }
  }

  lemma RemoveUndoesInsert(s: seq<Element>, e: Element, b: Element?)
    requires e !in s && (b == null || b in s)
    ensures e in Inserted(s, e, b) && Removed(Inserted(s, e, b), e) == s
  {
    var l, r := InsertedSplit(s, e, b);
    Removing(l, e, r);
  }

  // s without its element at k is joined up around the gap
  ghost predicate Closed(s: seq<Element>, k: int)
    reads s`next, s`prev
  {
    forall j :: 0 <= j < |s| && j != k ==> Bridged(s, k, j)
  }

  ghost predicate Bridged(s: seq<Element>, k: int, j: nat)
    requires j < |s|
    reads {s[j]}`next, {s[j]}`prev
  {
    s[j].next == (if j == k - 1 then Or(s, k + 1) else Or(s, j + 1))
        && s[j].prev == (if j == k + 1 then Or(s, k - 1) else Or(s, j - 1))
  }

  lemma RemovedAt(s: seq<Element>, e: Element, i: int)
    requires e in s
    ensures var k := IndexOf(s, e); Or(Removed(s, e), i) == if i < k then Or(s, i) else Or(s, i + 1)
  {
  }

  lemma RemovedWhole(s: seq<Element>, e: Element) returns (t: seq<Element>)
    requires e in s && Separate(s) && Closed(s, IndexOf(s, e))
    ensures t == Removed(s, e) && Separate(t) && Linked(t) && |t| == |s| - 1
    ensures Or(t, 0) == (if IndexOf(s, e) == 0 then Or(s, 1) else Or(s, 0))
    ensures Or(t, |t| - 1) == (if IndexOf(s, e) == |s| - 1 then Or(s, |s| - 2) else Or(s, |s| - 1))
  {
    t := Removed(s, e);
    RemovedMembers(s, e);
    forall i | 0 <= i < |t| ensures Joined(t, i) {
      assert Bridged(s, IndexOf(s, e), if i < IndexOf(s, e) then i else i + 1);
      RemovedAt(s, e, i - 1);
      RemovedAt(s, e, i);
      RemovedAt(s, e, i + 1);
    }
    RemovedAt(s, e, 0);
    RemovedAt(s, e, |t| - 1);
  }

  class List {
    // list.prev and list.next of the source's head element
    var head: Element?
    var tail: Element?
    var length: nat
    ghost var elems: seq<Element>

    ghost predicate Valid()
      reads this, elems`next, elems`prev
    {
      && Separate(elems)
      && head == Or(elems, 0) && tail == Or(elems, |elems| - 1)
      && length == |elems|
      && Linked(elems)
    }

    constructor ()
      ensures Valid() && elems == []
    {
      head, tail, length, elems := null, null, 0, [];
    }

    // the two traversals are finite, and each is the other reversed
    lemma TraversalsMirror(i: nat)
      requires Valid() && i <= |elems|
      ensures After(head, i) == Or(elems, i)
      ensures Before(tail, i) == Or(elems, |elems| - 1 - i)
      ensures i < |elems| ==> After(head, i) == Before(tail, |elems| - 1 - i) != null
      ensures After(head, length) == null == Before(tail, length)
    {
      AfterAt(0, i); BeforeAt(|elems|, i);
      AfterAt(0, |elems|); BeforeAt(|elems|, |elems|);
      if i < |elems| { BeforeAt(|elems|, |elems| - 1 - i); }
    }

    lemma {:induction false} AfterAt(k: nat, n: nat)
      requires Valid() && k + n <= |elems|
      ensures After(Or(elems, k), n) == Or(elems, k + n)
      decreases n
    {
      assert Opened(ListGate);
      if n > 0 { assert Joined(elems, k); AfterAt(k + 1, n - 1); }
    }

    lemma {:induction false} BeforeAt(k: nat, n: nat)
      requires Valid() && n <= k <= |elems|
      ensures Before(Or(elems, k - 1), n) == Or(elems, k - 1 - n)
      decreases n
    {
      assert Opened(ListGate);
      if n > 0 { assert Joined(elems, k - 1); BeforeAt(k - 1, n - 1); }
    }

    // the pointer writes of an insertion at position k
    method LinkIn(e: Element, b: Element?, ghost k: nat)
      requires Valid() && e !in elems && k <= |elems| && b == Or(elems, k)
      modifies this`head, this`tail, e, elems
      ensures LinkedIn(elems, e, k)
      ensures head == (if k == 0 then e else old(head)) && tail == (if k == |elems| then e else old(tail))
    {
      assert Opened(ListGate);
      if k < |elems| { assert Joined(elems, k); }
      if b == head {
        e.prev := null;
        e.next := head;
        head := e;
        if e.next != null {
          e.next.prev := e;
        } else {
          tail := e;
        }
      } else if b == null {
        assert k == |elems| && tail == elems[k - 1];
        e.next := null;
        e.prev := tail;
        if e.prev != null {
          e.prev.next := e;
        }
        tail := e;
      } else {
        assert b == elems[k] && b.prev == elems[k - 1];
        e.next := b;
        e.prev := b.prev;
        e.prev.next := e;
        e.next.prev := e;
      }
      forall j | 0 <= j < |elems| ensures Beside(elems, e, k, j) {
        assert old(Joined(elems, j));
      }
    }

    method InsertBefore(e: Element, b: Element?)
      requires Valid() && e !in elems && (b == null || b in elems)
      modifies this, e, elems
      ensures Valid() && elems == Inserted(old(elems), e, b)
    {
      ghost var s := elems;
      ghost var k := if b == null then |s| else IndexOf(s, b);
      LinkIn(e, b, k);
      ghost var t := InsertedWhole(s, e, b, k);
      Grow(t);
    }

    method Grow(ghost t: seq<Element>)
      requires Separate(t) && Linked(t) && |t| == length + 1 && head == Or(t, 0) && tail == Or(t, |t| - 1)
      modifies this`length, this`elems
      ensures Valid() && elems == t
    {
      length := length + 1;
      elems := t;
    }

    method InsertHead(e: Element)
      requires Valid() && e !in elems
      modifies this, e, elems
      ensures Valid() && elems == [e] + old(elems)
    {
      InsertBefore(e, head);
    }

    method InsertTail(e: Element)
      requires Valid() && e !in elems
      modifies this, e, elems
      ensures Valid() && elems == old(elems) + [e]
    {
      InsertBefore(e, null);
    }

    // the pointer writes of a removal at position k
    method LinkOut(e: Element, ghost k: nat)
      requires Valid() && k < |elems| && elems[k] == e
      modifies this`head, this`tail, elems
      ensures e.next == null && e.prev == null && Closed(elems, k)
      ensures head == (if k == 0 then Or(elems, 1) else old(head))
              && tail == (if k == |elems| - 1 then Or(elems, k - 1) else old(tail))
    {
      assert Opened(ListGate);
      assert Joined(elems, k);
      if e.prev != null {
        e.prev.next := e.next;
      } else {
        head := e.next;
      }
      if e.next != null {
        e.next.prev := e.prev;
      } else {
        tail := e.prev;
      }
      e.next := null;
      e.prev := null;
      forall j | 0 <= j < |elems| && j != k ensures Bridged(elems, k, j) {
        assert old(Joined(elems, j));
      }
    }

    // the unlinked element loses its own links, so a scan standing on it ends
    method Unlink(e: Element)
      requires Valid() && e in elems
      modifies this, elems
      ensures Valid() && elems == Removed(old(elems), e)
      ensures e.next == null && e.prev == null
    {
      ghost var s := elems;
      LinkOut(e, IndexOf(s, e));
      ghost var t := RemovedWhole(s, e);
      Shrink(t);
    }

    method Shrink(ghost t: seq<Element>)
      requires Separate(t) && Linked(t) && |t| == length - 1 && head == Or(t, 0) && tail == Or(t, |t| - 1)
      modifies this`length, this`elems
      ensures Valid() && elems == t
    {
      length := length - 1;
      elems := t;
    }

    method RemoveHead() returns (e: Element?)
      requires Valid()
      modifies this, elems
      ensures Valid()
      ensures old(elems) == [] ==> e == null && elems == []
      ensures old(elems) != [] ==> e == old(elems)[0] && elems == old(elems)[1..]
    {
      e := head;
      if e != null {
        Unlink(e);
      }
    }

    method RemoveTail() returns (e: Element?)
      requires Valid()
      modifies this, elems
      ensures Valid()
      ensures old(elems) == [] ==> e == null && elems == []
      ensures old(elems) != [] ==> var n := |old(elems)| - 1; e == old(elems)[n] && elems == old(elems)[..n]
    {
      assert Opened(ListGate);
      e := tail;
      if e != null {
        ghost var n := |elems| - 1;
        assert IndexOf(elems, e) == n;
        Unlink(e);
      }
    }

    method Contains(e: Element) returns (found: bool)
      requires Valid()
      ensures found <==> e in elems
    {
      assert Opened(ListGate);
      ghost var i := 0;
      var p := head;
      found := false;
      while p != null
        invariant 0 <= i <= |elems| && p == Or(elems, i)
        invariant e !in elems[..i] && !found
        decreases |elems| - i
      {
        if p == e {
          found := true;
          break;
        }
        assert Joined(elems, i);
        i := i + 1;
        p := p.next;
      }
    }

    method Count() returns (n: nat)
      requires Valid()
      ensures n == length
    {
      assert Opened(ListGate);
      n := 0;
      var p := head;
      while p != null
        invariant n <= |elems| && p == Or(elems, n)
        decreases |elems| - n
      {
        assert Joined(elems, n);
        n := n + 1;
        p := p.next;
      }
    }
  }

  // move_moderator_node_pending_to_done_list
  method MoveToDone(pending: List, done: List, node: Element)
    requires pending != done && pending.Valid() && done.Valid() && node in pending.elems
    requires Apart(pending.elems, done.elems)
    modifies pending, done, pending.elems, done.elems
    ensures pending.Valid() && done.Valid()
    ensures pending.elems == Removed(old(pending.elems), node) && done.elems == [node] + old(done.elems)
    ensures Apart(pending.elems, done.elems)
    ensures Members(pending.elems) + Members(done.elems) == old(Members(pending.elems) + Members(done.elems))
  {
    RemovedMembers(pending.elems, node);
    pending.Unlink(node);
    assert done.Valid();
    done.InsertHead(node);
    assert pending.Valid();
  }
}
