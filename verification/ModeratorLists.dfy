// The pending and done lists of a moderator: nodes threaded through the elements of two linked lists.
module ModeratorLists {
  import opened Basics
  import opened SnList

  datatype ModNode = ModNode(id: int, refCount: int, heartbeat: int)

  ghost predicate Has(s: seq<ModNode>, id: int) { exists i :: 0 <= i < |s| && s[i].id == id }

  ghost function Shortened(s: seq<ModNode>, i: nat): seq<ModNode>
    requires i < |s|
  {
    s[..i] + s[i + 1..]
  }

  // s are the nodes around these elements
  ghost predicate Around(nodes: map<Element, ModNode>, elems: seq<Element>, s: seq<ModNode>) {
    |elems| == |s| && forall i :: 0 <= i < |s| ==> elems[i] in nodes && nodes[elems[i]] == s[i]
  }

  ghost predicate Threaded(nodes: map<Element, ModNode>, a: seq<Element>, s: seq<ModNode>, b: seq<Element>,
      t: seq<ModNode>) {
    Around(nodes, a, s) && Around(nodes, b, t) && Distinct(a) && Apart(a, b)
  }

  lemma ThreadedMore(nodes: map<Element, ModNode>, a: seq<Element>, s: seq<ModNode>, b: seq<Element>, t: seq<ModNode>,
      e: Element, n: ModNode)
    requires Threaded(nodes, a, s, b, t) && e !in a && e !in b
    ensures Threaded(nodes[e := n], [e] + a, [n] + s, b, t)
  {
    assert forall i :: 0 <= i < |a| ==> a[i] in a;
    assert forall i :: 0 <= i < |b| ==> b[i] in b;
  }

  lemma ThreadedPut(nodes: map<Element, ModNode>, a: seq<Element>, s: seq<ModNode>, b: seq<Element>, t: seq<ModNode>,
      i: nat, n: ModNode)
    requires Threaded(nodes, a, s, b, t) && i < |s|
    ensures Threaded(nodes[a[i] := n], a, s[i := n], b, t)
  {
  }

  lemma ThreadedLess(nodes: map<Element, ModNode>, a: seq<Element>, s: seq<ModNode>, b: seq<Element>, t: seq<ModNode>,
      i: nat)
    requires Threaded(nodes, a, s, b, t) && i < |s|
    ensures IndexOf(a, a[i]) == i && Threaded(nodes, Removed(a, a[i]), Shortened(s, i), b, t)
    ensures Members(Removed(a, a[i])) == Members(a) - {a[i]}
    ensures Apart([a[i]], Removed(a, a[i]))
  {
    var r := Removed(a, a[i]);
    assert forall k :: 0 <= k < |r| ==> r[k] == a[if k < i then k else k + 1];
    forall e | e in a && e != a[i] ensures e in r {
      var k :| 0 <= k < |a| && a[k] == e;
      assert r[if k < i then k else k - 1] == e;
    }
  }

  lemma ThreadedMoved(nodes: map<Element, ModNode>, a: seq<Element>, s: seq<ModNode>, b: seq<Element>, t: seq<ModNode>,
      i: nat)
    requires Threaded(nodes, a, s, b, t) && i < |s|
    ensures IndexOf(a, a[i]) == i && Threaded(nodes, Removed(a, a[i]), Shortened(s, i), [a[i]] + b, [s[i]] + t)
  {
    ThreadedLess(nodes, a, s, b, t, i);
  }

  class ClientLists {
    const pend: List
    const done: List
    // the node around every element
    var nodes: map<Element, ModNode>
    // the nodes in the order of the two lists
    ghost var pending: seq<ModNode>
    ghost var finished: seq<ModNode>

    ghost predicate Sound()
      reads this, pend, done, Elements()
    {
      pend != done && pend.Valid() && done.Valid() && Threaded(nodes, pend.elems, pending, done.elems, finished)
    }

    ghost function Elements(): set<Element>
      reads pend, done
    {
      Members(pend.elems) + Members(done.elems)
    }

    ghost predicate Valid()
      reads this, pend, done, Elements()
    {
      |pend.elems| == |pending| && forall u: Gate {:trigger Opened(u)} :: Opened(u) && u == NodeGate ==> Sound()
    }

    constructor ()
      ensures Valid() && pending == [] && finished == [] && Elements() == {} && fresh(pend) && fresh(done)
    {
      pend := new List();
      done := new List();
      nodes, pending, finished := map[], [], [];
    }

    method First() returns (e: Element?)
      requires Valid()
      ensures e == Or(pend.elems, 0)
    {
      assert Opened(NodeGate);
      e := pend.head;
    }

    // the element after the one at i
    lemma Next(i: nat)
      requires Valid() && i < |pending|
      ensures pend.elems[i].next == Or(pend.elems, i + 1)
    {
      assert Opened(NodeGate) && Opened(ListGate);
      assert Joined(pend.elems, i);
    }

    // get_client_from_moderator_pending_list
    method Find(id: int) returns (e: Element?, ghost i: nat)
      requires Valid()
      ensures e == Or(pend.elems, i) && i <= |pending| && forall k :: 0 <= k < i ==> pending[k].id != id
      ensures e == null <==> i == |pending|
      ensures i < |pending| ==> pending[i].id == id
    {
      assert Opened(NodeGate);
      i := 0;
      e := pend.head;
      while e != null && nodes[e].id != id
        invariant 0 <= i <= |pending| && e == Or(pend.elems, i)
        invariant forall k :: 0 <= k < i ==> pending[k].id != id
        decreases |pending| - i
      {
        Next(i);
        i := i + 1;
        e := e.next;
      }
    }

    // allocate_clnt_moderator_node, and the id its caller fills in
    method Allocate(id: int)
      requires Valid()
      modifies this, pend, done, Elements()
      ensures Valid() && finished == old(finished)
      ensures pending == [ModNode(id, 1, MAX_ALLOWED_KA_MISSES)] + old(pending)
      ensures fresh(Elements() - old(Elements()))
    {
      assert Opened(NodeGate);
      var n := ModNode(id, 1, MAX_ALLOWED_KA_MISSES);
      var e := new Element();
      ThreadedMore(nodes, pend.elems, pending, done.elems, finished, e, n);
      pend.InsertHead(e);
      assert done.Valid();
      nodes := nodes[e := n];
      pending := [n] + pending;
    }

    // the node around e
    method Get(e: Element, ghost i: nat) returns (n: ModNode)
      requires Valid() && i < |pending| && e == pend.elems[i]
      ensures n == pending[i]
    {
      assert Opened(NodeGate);
      n := nodes[e];
    }

    method Put(e: Element, ghost i: nat, n: ModNode)
      requires Valid() && i < |pending| && e == pend.elems[i]
      modifies this`nodes, this`pending
      ensures Valid() && pending == old(pending)[i := n]
    {
      assert Opened(NodeGate);
      ThreadedPut(nodes, pend.elems, pending, done.elems, finished, i, n);
      nodes := nodes[e := n];
      pending := pending[i := n];
    }

    // move_moderator_node_pending_to_done_list
    method Finish(e: Element, ghost i: nat)
      requires Valid() && i < |pending| && e == pend.elems[i]
      modifies this, pend, done, Elements()
      ensures Valid() && pending == Shortened(old(pending), i) && finished == [old(pending)[i]] + old(finished)
      ensures Elements() == old(Elements())
    {
      assert Opened(NodeGate);
      ThreadedMoved(nodes, pend.elems, pending, done.elems, finished, i);
      MoveToDone(pend, done, e);
      finished := [pending[i]] + finished;
      pending := Shortened(pending, i);
    }

    // unlinking clears the links of e: a walk that stands on it has no next element
    method Drop(e: Element, ghost i: nat)
      requires Valid() && i < |pending| && e == pend.elems[i]
      modifies this, pend, done, Elements()
      ensures Valid() && pending == Shortened(old(pending), i) && finished == old(finished)
      ensures e.next == null
      ensures Elements() == old(Elements()) - {e}
    {
      assert Opened(NodeGate);
      ThreadedLess(nodes, pend.elems, pending, done.elems, finished, i);
      assert e !in done.elems;
      pend.Unlink(e);
      assert done.Valid();
      pending := Shortened(pending, i);
    }
  }
}
