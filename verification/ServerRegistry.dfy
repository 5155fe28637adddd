// The server's index over the real tree: every method does to the objects what the model does to values.
module ServerRegistry {
  import opened Basics
  import opened RegistryModel
  import opened Replication
  import opened ServerTypes
  import opened RbShape
  import opened RedBlackTree

  ghost function ListsOf(nodes: map<int, Node>): set<GroupList?> { set k | k in nodes :: nodes[k].list }

  lemma ListsOfMore(nodes: map<int, Node>, k: int, n: Node)
    ensures ListsOf(nodes[k := n]) <= ListsOf(nodes) + {n.list}
  {
  }

  // where a join request stands after some of its names
  datatype JoinState = JoinState(r: Registry, accepted: seq<bool>, sent: seq<Checkpoint>)

  // the state after all of these names
  ghost function JoinedAll(j: JoinState, names: seq<string>, client: int, capability: int, last: nat,
      standby: bool): JoinState {
    var all := JoinAll(j.r, names, client, capability, last);
    JoinState(all.0, j.accepted + all.1, j.sent + ForwardedBy(j.r,
        Resolved(j.r.groups, names, client, capability, last),
        standby))
  }

  // the checkpoints for a standby server
  ghost function ForwardedBy(r: Registry, qs: seq<Request>, standby: bool): seq<Checkpoint>
      { if standby then Emissions(r, qs) else [] }

  // the checkpoint of one of the joins
  ghost function PassedOne(r: Registry, at: nat, client: int, capability: int, standby: bool): seq<Checkpoint> {
    if standby && at < |r.groups| && client > 0 then [Add(client, r.groups[at].name, capability)] else []
  }

  // the state after one more name
  ghost function JoinedOne(j: JoinState, at: nat, client: int, capability: int, standby: bool): JoinState {
    JoinState(Enter(j.r, at, client, capability), j.accepted + [at < |j.r.groups|],
        j.sent + PassedOne(j.r, at, client, capability, standby))
  }

  // what is left of a request leads from here to the wanted end
  ghost predicate Toward(j: JoinState, names: seq<string>, i: int, client: int, capability: int, last: nat,
      standby: bool, want: JoinState) {
    && NamesApart(j.r.groups)
    && forall u: Gate {:trigger Opened(u)} :: Opened(u) && u == IndexGate && 0 <= i <= |names| ==>
         JoinedAll(j, names[i..], client, capability, last, standby) == want
  }

  lemma TowardStarts(j: JoinState, names: seq<string>, client: int, capability: int, last: nat, standby: bool)
    requires NamesApart(j.r.groups)
    ensures Toward(j, names, 0, client, capability, last, standby,
            JoinedAll(j, names, client, capability, last, standby))
  {
    assert names[0..] == names;
  }

  lemma TowardStep(j: JoinState, names: seq<string>, i: nat, client: int, capability: int, last: nat, standby: bool,
      want: JoinState)
    requires i < |names| && Toward(j, names, i, client, capability, last, standby, want)
    ensures var at := At(j.r, names[i], last);
            Toward(JoinedOne(j, at, client, capability, standby), names, i + 1, client, capability, at, standby, want)
  {
    assert Opened(IndexGate);
    var rest := names[i..];
    assert rest[0] == names[i] && rest[1..] == names[i + 1..];
    JoinedFirst(j, rest, client, capability, last, standby);
  }

  lemma Assoc<T>(a: seq<T>, b: seq<T>, c: seq<T>)
    ensures a + b + c == a + (b + c)
  {
  }

  lemma JoinAllFirst(r: Registry, names: seq<string>, client: int, capability: int, last: nat)
    requires names != []
    ensures var at := At(r, names[0], last); var all := JoinAll(r, names, client, capability, last);
            var rest := JoinAll(Enter(r, at, client, capability), names[1..], client, capability, at);
            all.0 == rest.0 && all.1 == [at < |r.groups|] + rest.1
  {
  }

  lemma PassedFirst(r: Registry, names: seq<string>, client: int, capability: int, last: nat, standby: bool)
    requires names != [] && NamesApart(r.groups)
    ensures var at := At(r, names[0], last); var t := Enter(r, at, client, capability);
            && NamesApart(t.groups)
            && ForwardedBy(r, Resolved(r.groups, names, client, capability, last), standby)
               == PassedOne(r, at, client, capability, standby)
                   + ForwardedBy(t, Resolved(t.groups, names[1..], client, capability, at), standby)
  {
    var at := At(r, names[0], last);
    var t := Enter(r, at, client, capability);
    var later := Resolved(t.groups, names[1..], client, capability, at);
    ResolvedStep(r, names, client, capability, last);
    if at < |r.groups| {
      NamedAt(r.groups, at);
      var q := JoinReq(client, r.groups[at].name, capability);
      assert ([q] + later)[1..] == later;
    }
  }

  lemma JoinedFirst(j: JoinState, names: seq<string>, client: int, capability: int, last: nat, standby: bool)
    requires names != [] && NamesApart(j.r.groups)
    ensures var at := At(j.r, names[0], last); var next := JoinedOne(j, at, client, capability, standby);
            NamesApart(next.r.groups) && JoinedAll(next, names[1..], client, capability, at, standby)
                == JoinedAll(j, names, client, capability, last, standby)
  {
    var at := At(j.r, names[0], last);
    var t := Enter(j.r, at, client, capability);
    JoinAllFirst(j.r, names, client, capability, last);
    PassedFirst(j.r, names, client, capability, last, standby);
    Assoc(j.accepted, [at < |j.r.groups|], JoinAll(t, names[1..], client, capability, at).1);
    Assoc(j.sent, PassedOne(j.r, at, client, capability, standby),
        ForwardedBy(t, Resolved(t.groups, names[1..], client, capability, at), standby));
  }

  lemma TowardEnds(j: JoinState, names: seq<string>, client: int, capability: int, last: nat, standby: bool,
      want: JoinState)
    requires Toward(j, names, |names|, client, capability, last, standby, want)
    ensures j == want
  {
    assert Opened(IndexGate);
    assert names[|names|..] == [];
    var none: seq<Request>, nothing: seq<bool> := [], [];
    assert Emissions(j.r, none) == [] && j.accepted + nothing == j.accepted;
  }

  class Server {
    const tree: RBTree
    const groups: seq<Group>
    var standby: bool
    var sent: seq<Checkpoint>
    // the node of each key, and the index as values
    ghost var index: map<int, Node>
    ghost var gs: seq<GroupView>
    ghost var ns: map<int, NodeView>

    ghost function View(): Registry
      reads this`gs, this`ns
    {
      Registry(gs, ns)
    }

    ghost predicate GroupsShown()
      reads this`gs, groups
    {
      && |gs| == |groups| && NamesApart(gs)
      && forall i :: 0 <= i < |groups| ==> groups[i].View() == gs[i]
    }

    ghost predicate NodeShown(n: Node, v: NodeView)
      reads n.list
    {
      && n.list != null && v == NodeView(n.capability, NamesOf(n.list.groups))
      && forall g :: g in n.list.groups ==> g in groups
    }

    // every tree node has a list of its own
    ghost predicate ListsApart()
      reads this`index
    {
      forall j, k {:trigger index[j], index[k]} :: j in index && k in index && j != k ==> index[j].list != index[k].list
    }

    ghost function Lists(): set<GroupList?>
      reads this`index
    {
      ListsOf(index)
    }

    ghost predicate NodesShown()
      reads this`ns, this`index, Lists()
    {
      && ns.Keys == index.Keys && ListsApart()
      && forall k {:trigger index[k]} :: k in index ==> NodeShown(index[k], ns[k])
    }

    ghost predicate Valid()
      reads this`gs, this`ns, this`index, tree, tree.h.cells.Keys, groups, Lists()
    {
      tree.Keeps(index) && GroupsShown() && NodesShown()
    }

    constructor (groups: seq<Group>, standby: bool)
      requires forall i, j :: 0 <= i < j < |groups| ==> Stem(groups[i].name) != Stem(groups[j].name)
      requires forall i :: 0 <= i < |groups| ==> groups[i].View() == GroupView(groups[i].name, 0, 0, [])
      ensures Valid() && Empty(View()) && sent == [] && this.groups == groups && this.standby == standby
      ensures fresh(tree) && fresh(tree.h.cells.Keys) && Lists() == {}
    {
      tree := new RBTree();
      this.groups, this.standby, sent := groups, standby, [];
      index, ns := map[], map[];
      gs := seq(|groups|, i requires 0 <= i < |groups| => GroupView(groups[i].name, 0, 0, []));
    }

    lemma GroupAt(g: Group) returns (i: nat)
      requires GroupsShown() && g in groups
      ensures i < |groups| && groups[i] == g && Named(gs, g.name) == i == Lookup(gs, g.name)
      ensures forall j :: 0 <= j < |groups| && j != i ==> groups[j] != g
    {
      i :| 0 <= i < |groups| && groups[i] == g;
      assert g.View() == gs[i];
      NamedAt(gs, i);
      forall j | 0 <= j < |groups| && j != i ensures groups[j] != g {
        assert groups[j].View() == gs[j];
      }
    }

    // g, at position i, takes the client in
    method Grow(g: Group, ghost i: nat, client: int, capability: int)
      requires GroupsShown() && i < |groups| && groups[i] == g
      requires forall j :: 0 <= j < |groups| && j != i ==> groups[j] != g
      modifies this`gs, g
      ensures GroupsShown() && gs == old(gs)[i := Entered(old(gs)[i], client, capability)]
    {
      assert g.View() == gs[i];
      RenamedGroup(gs, i, Entered(gs[i], client, capability), g.name);
      g.capability := (g.capability + capability) % WORD;
      var found := g.RemoveClient(client);
      g.AddClient(client);
      gs := gs[i := Entered(gs[i], client, capability)];
    }

    // these views show these nodes, for proofs that only carry it along
    ghost predicate StillShown(nodes: map<int, Node>, views: map<int, NodeView>)
      reads ListsOf(nodes)
    {
      forall u: Gate {:trigger Opened(u)} :: Opened(u) && u == IndexGate ==> AllShown(nodes, views)
    }

    ghost predicate AllShown(nodes: map<int, Node>, views: map<int, NodeView>)
      reads ListsOf(nodes)
    {
      forall k {:trigger nodes[k]} :: k in nodes ==> k in views && NodeShown(nodes[k], views[k])
    }

    // a new node for the client
    method Plant(g: Group, client: int, capability: int, ghost nodes: map<int, Node>, ghost views: map<int, NodeView>)
        returns (n: Node)
      requires tree.Keeps(nodes) && 0 < client < KEY_LIMIT && client !in nodes && StillShown(nodes, views)
      modifies tree`h, tree.h.cells.Keys
      ensures tree.Keeps(nodes[client := n]) && n.capability == capability && StillShown(nodes, views)
      ensures fresh(n.list) && n.list.groups == [g]
      ensures fresh(n) && tree.h.cells.Keys == old(tree.h.cells.Keys) + {n}
    {
      n := tree.Add(client, capability, g, nodes);
      assert StillShown(nodes, views);
    }

    method FileNew(g: Group, client: int, capability: int) returns (ghost n: Node)
      requires tree.Keeps(index) && NodesShown() && g in groups && 0 < client < KEY_LIMIT && client !in index
      modifies this`ns, this`index, tree`h, tree.h.cells.Keys
      ensures tree.Keeps(index) && NodesShown() && ns == FiledIn(old(ns), g.name, client, capability)
      ensures index == old(index)[client := n] && fresh(n.list)
      ensures fresh(n) && tree.h.cells.Keys == old(tree.h.cells.Keys) + {n}
    {
      ghost var nodes, views := index, ns;
      assert AllShown(nodes, views);
      n := Plant(g, client, capability, nodes, views);
      assert Opened(IndexGate) && AllShown(nodes, views);
      Enroll(g, client, capability, nodes, n);
    }

    ghost method Enroll(g: Group, client: int, capability: int, nodes: map<int, Node>, n: Node)
      requires tree.Keeps(nodes[client := n]) && g in groups && client !in nodes && index == nodes
               && ns.Keys == nodes.Keys
      requires AllShown(nodes, ns) && n.list != null && n.list.groups == [g] && n.capability == capability
      requires ListsApart() && forall k {:trigger nodes[k]} :: k in nodes ==> nodes[k].list != n.list
      modifies this`ns, this`index
      ensures tree.Keeps(index) && NodesShown() && ns == FiledIn(old(ns), g.name, client, capability)
      ensures index == old(index)[client := n]
    {
      index := nodes[client := n];
      assert tree.Keeps(index);
      assert AllShown(nodes, ns);
      ns := FiledIn(ns, g.name, client, capability);
      assert NodeShown(n, ns[client]);
    }

    method AddToList(l: GroupList, g: Group)
      requires tree.Keeps(index)
      modifies l
      ensures tree.Keeps(index) && l.groups == [g] + old(l.groups)
              && NamesOf(l.groups) == [g.name] + NamesOf(old(l.groups))
    {
      l.AddGroup(g);
    }

    method FileMore(n: Node, l: GroupList, g: Group, client: int, ghost capability: int)
      requires tree.Keeps(index) && NodesShown() && g in groups && client in index && index[client] == n && n.list == l
      modifies this`ns, l
      ensures tree.Keeps(index) && NodesShown() && ns == FiledIn(old(ns), g.name, client, capability)
    {
      ghost var before, v := ns, ns[client];
      assert NodeShown(n, v);
      AddToList(l, g);
      ns := before[client := v.(groups := [g.name] + v.groups)];
      assert NodeShown(n, ns[client]);
      forall k | k in index ensures NodeShown(index[k], ns[k]) {
        if k != client { assert old(NodeShown(index[k], ns[k])); }
      }
    }

    // the group's side of a join
    method JoinGroup(g: Group, client: int, capability: int)
      requires Valid() && g in groups
      modifies this`gs, g
      ensures Named(old(gs), g.name) < |old(gs)| == |gs|
      ensures Valid() && View() == Admitted(old(View()), Named(old(gs), g.name), client, capability)
    {
      ghost var i := GroupAt(g);
      Grow(g, i, client, capability);
    }

    // the tree's side of a join
    method JoinTree(g: Group, client: int, capability: int)
      requires Valid() && g in groups && 0 < client < KEY_LIMIT
      modifies this`ns, this`index, tree`h, tree.h.cells.Keys, Lists()
      ensures Valid() && View() == old(View()).(nodes := FiledIn(old(ns), g.name, client, capability))
      ensures fresh(tree.h.cells.Keys - old(tree.h.cells.Keys)) && fresh(Lists() - old(Lists()))
    {
      var n := tree.Find(client, index);
      if n == null {
        JoinNew(g, client, capability);
      } else {
        assert NodeShown(n, ns[client]);
        JoinMore(n, n.list, g, client, capability);
      }
    }

    method JoinNew(g: Group, client: int, capability: int)
      requires Valid() && g in groups && 0 < client < KEY_LIMIT && client !in index
      modifies this`ns, this`index, tree`h, tree.h.cells.Keys
      ensures Valid() && View() == old(View()).(nodes := FiledIn(old(ns), g.name, client, capability))
      ensures fresh(tree.h.cells.Keys - old(tree.h.cells.Keys)) && fresh(Lists() - old(Lists()))
    {
      ghost var nodes := index;
      ghost var n := FileNew(g, client, capability);
      ListsOfMore(nodes, client, n);
    }

    method JoinMore(n: Node, l: GroupList, g: Group, client: int, ghost capability: int)
      requires Valid() && g in groups && client in index && index[client] == n && n.list == l
      modifies this`ns, l
      ensures Valid() && View() == old(View()).(nodes := FiledIn(old(ns), g.name, client, capability))
    {
      FileMore(n, l, g, client, capability);
    }

    // send_checkpoint
    method Send(c: Checkpoint)
      requires Valid()
      modifies this`sent
      ensures Valid() && sent == old(sent) + if standby then [c] else []
    {
      if standby {
        sent := sent + [c];
      }
    }

    // insert_client_info_in_server_DS
    method Insert(g: Group?, client: int, capability: int)
      requires Valid() && (g != null ==> g in groups) && 0 <= client < KEY_LIMIT
      modifies this`index, this`gs, this`ns, this`sent, g, tree`h, tree.h.cells.Keys, Lists()
      ensures Valid()
      ensures View() == if g == null then old(View())
              else Enter(old(View()), Named(old(gs), g.name), client, capability)
      ensures sent == old(sent) + if g != null && client > 0 && standby then [Add(client, g.name, capability)] else []
      ensures fresh(tree.h.cells.Keys - old(tree.h.cells.Keys)) && fresh(Lists() - old(Lists()))
    {
      if g != null {
        JoinGroup(g, client, capability);
        if client > 0 {
          Register(g, client, capability);
        }
      }
    }

    method Register(g: Group, client: int, capability: int)
      requires Valid() && g in groups && 0 < client < KEY_LIMIT
      modifies this`index, this`ns, this`sent, tree`h, tree.h.cells.Keys, Lists()
      ensures Valid() && View() == old(View()).(nodes := FiledIn(old(ns), g.name, client, capability))
      ensures sent == old(sent) + if standby then [Add(client, g.name, capability)] else []
      ensures fresh(tree.h.cells.Keys - old(tree.h.cells.Keys)) && fresh(Lists() - old(Lists()))
    {
      JoinTree(g, client, capability);
      Send(Add(client, g.name, capability));
    }

    // g, at position i, lets the client go
    method Shrink(g: Group, ghost i: nat, client: int, capability: int)
      requires GroupsShown() && i < |groups| && groups[i] == g
      requires forall j :: 0 <= j < |groups| && j != i ==> groups[j] != g
      modifies this`gs, g
      ensures GroupsShown() && gs == old(gs)[i := Left(old(gs)[i], client, capability)]
    {
      assert g.View() == gs[i];
      RenamedGroup(gs, i, Left(gs[i], client, capability), g.name);
      g.capability := (g.capability - capability) % WORD;
      var found := g.RemoveClient(client);
      gs := gs[i := Left(gs[i], client, capability)];
    }

    method LeaveGroup(g: Group, client: int, capability: int)
      requires Valid() && g in groups
      modifies this`gs, g
      ensures Named(old(gs), g.name) < |old(gs)| == |gs|
      ensures Valid() && View() == Dismissed(old(View()), Named(old(gs), g.name), client, capability)
    {
      ghost var i := GroupAt(g);
      Shrink(g, i, client, capability);
    }

    // takes the group off the client's list
    method DelistClient(n: Node, l: GroupList, client: int, name: string) returns (g: Group?)
      requires Valid() && client in index && index[client] == n && n.list == l
      modifies this`ns, l
      ensures Valid() && ns == Delisted(old(ns), name, client)
      ensures g == null <==> name !in old(ns)[client].groups
      ensures g != null ==> g in groups && g.name == name
    {
      g := Delist(n, l, client, name);
    }

    method Delist(n: Node, l: GroupList, client: int, name: string) returns (g: Group?)
      requires tree.Keeps(index) && NodesShown() && client in index && index[client] == n && n.list == l
      modifies this`ns, l
      ensures tree.Keeps(index) && NodesShown() && ns == Delisted(old(ns), name, client)
      ensures g == null <==> name !in old(ns)[client].groups
      ensures g != null ==> g in groups && g.name == name
    {
      assert NodeShown(n, ns[client]);
      g := l.RemoveGroup(name);
      assert tree.Keeps(index);
      ns := Delisted(ns, name, client);
    }

    method DropNode(n: Node, ghost client: int)
      requires tree.Keeps(index) && NodesShown() && client in index && index[client] == n
      modifies this`ns, this`index, tree`h, tree.h.cells.Keys
      ensures tree.Keeps(index) && NodesShown() && ns == old(ns) - {client}
      ensures tree.h.cells.Keys <= old(tree.h.cells.Keys) && Lists() <= old(Lists())
    {
      ghost var nodes := index;
      tree.Remove(n, client, nodes);
      index := nodes - {client};
      ns := ns - {client};
      forall k | k in index ensures NodeShown(index[k], ns[k]) {
        assert old(NodeShown(index[k], ns[k]));
      }
    }

    // a node left without groups leaves the tree
    method Prune(n: Node, ghost client: int)
      requires Valid() && client in index && index[client] == n
      modifies this`ns, this`index, tree`h, tree.h.cells.Keys
      ensures Valid() && gs == old(gs) && ns == Pruned(old(ns), client)
      ensures tree.h.cells.Keys <= old(tree.h.cells.Keys) && Lists() <= old(Lists())
    {
      assert NodeShown(n, ns[client]);
      if |n.list.groups| == 0 {
        DropNode(n, client);
      }
    }

    // remove_client_info_from_server_DS
    method Remove(client: int, name: string) returns (ok: bool)
      requires Valid() && 0 <= client < KEY_LIMIT
      modifies this`index, this`gs, this`ns, this`sent, groups, tree`h, tree.h.cells.Keys, Lists()
      ensures Valid() && View() == Leave(old(View()), client, name)
      ensures ok == Listed(old(View()), client, name)
      ensures sent == old(sent) + if ok && standby then [Del(client, name, old(ns)[client].capability)] else []
      ensures tree.h.cells.Keys <= old(tree.h.cells.Keys) && Lists() <= old(Lists())
    {
      ok := false;
      if client > 0 {
        var n := tree.Find(client, index);
        if n != null {
          ok := Expel(n, client, name);
        }
      }
    }

    method Release(g: Group, n: Node, client: int, name: string)
      requires Valid() && g in groups && g.name == name && client in index && index[client] == n
      modifies this`index, this`gs, this`ns, this`sent, g, tree`h, tree.h.cells.Keys
      ensures Named(old(gs), name) < |old(gs)|
      ensures Valid() && View() == Dismissed(old(View()), Named(old(gs), name), client,
              n.capability).(nodes := Pruned(old(ns), client))
      ensures sent == old(sent) + if standby then [Del(client, name, n.capability)] else []
      ensures tree.h.cells.Keys <= old(tree.h.cells.Keys) && Lists() <= old(Lists())
    {
      LeaveGroup(g, client, n.capability);
      Prune(n, client);
      Send(Del(client, name, n.capability));
    }

    method Expel(n: Node, client: int, name: string) returns (ok: bool)
      requires Valid() && client > 0 && client in index && index[client] == n
      modifies this`index, this`gs, this`ns, this`sent, groups, tree`h, tree.h.cells.Keys, Lists()
      ensures Valid() && View() == Leave(old(View()), client, name)
      ensures ok == Listed(old(View()), client, name)
      ensures sent == old(sent) + if ok && standby then [Del(client, name, old(ns)[client].capability)] else []
      ensures tree.h.cells.Keys <= old(tree.h.cells.Keys) && Lists() <= old(Lists())
    {
      assert NodeShown(n, ns[client]);
      var g := DelistClient(n, n.list, client, name);
      ok := g != null;
      if g != null {
        Release(g, n, client, name);
      } else {
        WithoutNone(old(ns)[client].groups, name);
        assert ns == old(ns);
      }
    }

    // get_group_node_by_name
    method FindGroup(name: string) returns (g: Group?)
      requires GroupsShown()
      ensures g == null <==> Lookup(gs, name) == |gs|
      ensures g != null ==> g in groups && Named(gs, g.name) == Lookup(gs, name) && g.name == gs[Lookup(gs, name)].name
    {
      var i := 0;
      while i < |groups|
        invariant 0 <= i <= |groups|
        invariant forall j :: 0 <= j < i ==> Stem(gs[j].name) != Stem(name)
      {
        assert groups[i].View() == gs[i];
        if Stem(groups[i].name) == Stem(name) {
          NamedAt(gs, i);
          return groups[i];
        }
        i := i + 1;
      }
      g := null;
    }

    // one group of handle_join_req
    method Join(client: int, name: string, capability: int) returns (accepted: bool)
      requires Valid() && 0 <= client < KEY_LIMIT
      modifies this`index, this`gs, this`ns, this`sent, groups, tree`h, tree.h.cells.Keys, Lists()
      ensures Valid() && View() == Serve(old(View()), JoinReq(client, name, capability))
      ensures accepted == (Lookup(old(gs), name) < |old(gs)|)
      ensures sent == old(sent) + if standby then Emitted(old(View()), JoinReq(client, name, capability)) else []
      ensures fresh(tree.h.cells.Keys - old(tree.h.cells.Keys)) && fresh(Lists() - old(Lists()))
    {
      var g := FindGroup(name);
      Insert(g, client, capability);
      accepted := g != null;
    }

    // handle_leave_req
    method LeaveRequest(client: int, name: string) returns (accepted: bool)
      requires Valid() && 0 <= client < KEY_LIMIT
      modifies this`index, this`gs, this`ns, this`sent, groups, tree`h, tree.h.cells.Keys, Lists()
      ensures Valid() && View() == Serve(old(View()), LeaveReq(client, name))
      ensures accepted == Listed(old(View()), client, name)
      ensures sent == old(sent) + if standby then Emitted(old(View()), LeaveReq(client, name)) else []
      ensures fresh(tree.h.cells.Keys - old(tree.h.cells.Keys)) && fresh(Lists() - old(Lists()))
    {
      if Listed(View(), client, name) { ListedIsNamed(client, name); }
      accepted := Remove(client, name);
    }

    lemma ListedIsNamed(client: int, name: string)
      requires GroupsShown() && NodesShown() && Listed(View(), client, name)
      ensures Named(gs, name) < |gs|
    {
      assert NodeShown(index[client], ns[client]);
      var l := index[client].list;
      var i :| 0 <= i < |l.groups| && l.groups[i].name == name;
      var j := GroupAt(l.groups[i]);
    }

    // handle_checkpoint_req; with a further standby behind this server the checkpoint goes out
    // once from the operation itself and once more from here
    method HandleCheckpoint(c: Checkpoint)
      requires Valid() && 0 <= c.client < KEY_LIMIT
      modifies this`index, this`gs, this`ns, this`sent, groups, tree`h, tree.h.cells.Keys, Lists()
      ensures Valid() && View() == Applied(old(View()), c)
      ensures sent == old(sent) + if standby then Emitted(old(View()), AsRequest(c)) + [c] else []
      ensures fresh(tree.h.cells.Keys - old(tree.h.cells.Keys)) && fresh(Lists() - old(Lists()))
    {
      Apply(c);
      Send(c);
    }

    method Apply(c: Checkpoint)
      requires Valid() && 0 <= c.client < KEY_LIMIT
      modifies this`index, this`gs, this`ns, this`sent, groups, tree`h, tree.h.cells.Keys, Lists()
      ensures Valid() && View() == Applied(old(View()), c)
      ensures sent == old(sent) + if standby then Emitted(old(View()), AsRequest(c)) else []
      ensures fresh(tree.h.cells.Keys - old(tree.h.cells.Keys)) && fresh(Lists() - old(Lists()))
    {
      var ok;
      match c {
        case Add(client, name, capability) => ok := Join(client, name, capability);
        case Del(client, name, _) => ok := LeaveRequest(client, name);
      }
    }

    // the loop of handle_join_req; the group pointer is not reset between the names
    method JoinGroups(client: int, names: seq<string>, capability: int) returns (accepted: seq<bool>)
      requires Valid() && 0 <= client < KEY_LIMIT && |names| < 256
      modifies this`index, this`gs, this`ns, this`sent, groups, tree`h, tree.h.cells.Keys, Lists()
      ensures Valid() && View() == JoinAll(old(View()), names, client, capability, |old(gs)|).0
      ensures accepted == JoinAll(old(View()), names, client, capability, |old(gs)|).1
      ensures sent == old(sent) + if standby
              then Emissions(old(View()), Asked(old(View()), Batch(client, names, capability))) else []
      ensures fresh(tree.h.cells.Keys - old(tree.h.cells.Keys)) && fresh(Lists() - old(Lists()))
    {
      ghost var j;
      accepted, j := JoinEach(client, names, capability);
      assert Opened(IndexGate);
    }

    method JoinEach(client: int, names: seq<string>, capability: int) returns (accepted: seq<bool>, ghost j: JoinState)
      requires Valid() && 0 <= client < KEY_LIMIT
      modifies this`index, this`gs, this`ns, this`sent, groups, tree`h, tree.h.cells.Keys, Lists()
      ensures Ready() && j == JoinedAll(JoinState(old(View()), [], old(sent)), names, client, capability, |old(gs)|,
              standby)
      ensures j == JoinState(View(), accepted, sent)
      ensures fresh(tree.h.cells.Keys - old(tree.h.cells.Keys)) && fresh(Lists() - old(Lists()))
    {
      j := JoinState(View(), [], sent);
      ghost var last: nat, want := |gs|, JoinedAll(j, names, client, capability, |gs|, standby);
      var g: Group? := null;
      accepted := [];
      var i := 0;
      TowardStarts(j, names, client, capability, last, standby);
      assert Ready();
      while i < |names|
        invariant 0 <= i <= |names| && Ready() && Stands(g, last)
        invariant j == JoinState(View(), accepted, sent) && Toward(j, names, i, client, capability, last, standby, want)
        invariant fresh(tree.h.cells.Keys - old(tree.h.cells.Keys)) && fresh(Lists() - old(Lists()))
      {
        g, last, j := JoinNext(names, i, g, last, j, client, capability, want);
        accepted := accepted + [g != null];
        i := i + 1;
      }
      TowardEnds(j, names, client, capability, last, standby, want);
    }

    // Valid, for a loop that only carries it along
    ghost predicate Ready()
      reads this`gs, this`ns, this`index, tree, tree.h.cells.Keys, groups, Lists()
    {
      forall u: Gate {:trigger Opened(u)} :: Opened(u) && u == IndexGate ==> Valid()
    }

    // the group pointer stands at this position, or nowhere
    ghost predicate Stands(g: Group?, last: nat)
      reads this`gs
    {
      forall u: Gate {:trigger Opened(u)} :: Opened(u) && u == IndexGate ==>
        if g == null then last == |gs| else g in groups && Named(gs, g.name) == last < |gs|
    }

    // one name of the loop
    method JoinNext(names: seq<string>, i: nat, g0: Group?, ghost last0: nat, ghost j0: JoinState, client: int,
        capability: int, ghost want: JoinState)
      returns (g: Group?, ghost last: nat, ghost j: JoinState)
      requires Ready() && 0 <= client < KEY_LIMIT && Stands(g0, last0) && i < |names|
      requires j0.r == View() && j0.sent == sent && Toward(j0, names, i, client, capability, last0, standby, want)
      modifies this`index, this`gs, this`ns, this`sent, groups, tree`h, tree.h.cells.Keys, Lists()
      ensures Ready() && Stands(g, last) && Toward(j, names, i + 1, client, capability, last, standby, want)
      ensures j == JoinState(View(), j0.accepted + [g != null], sent)
      ensures fresh(tree.h.cells.Keys - old(tree.h.cells.Keys)) && fresh(Lists() - old(Lists()))
    {
      TowardStep(j0, names, i, client, capability, last0, standby, want);
      g, last := NextGroup(names[i], g0, last0);
      InsertAt(g, last, client, capability);
      j := JoinedOne(j0, last, client, capability, standby);
    }

    method InsertAt(g: Group?, ghost last: nat, client: int, capability: int)
      requires Ready() && 0 <= client < KEY_LIMIT && Stands(g, last)
      modifies this`index, this`gs, this`ns, this`sent, g, tree`h, tree.h.cells.Keys, Lists()
      ensures Ready() && Stands(g, last) && View() == Enter(old(View()), last, client, capability)
      ensures sent == old(sent) + if standby && last < |old(gs)| && client > 0
              then [Add(client, old(gs)[last].name, capability)] else []
      ensures fresh(tree.h.cells.Keys - old(tree.h.cells.Keys)) && fresh(Lists() - old(Lists()))
    {
      assert Opened(IndexGate);
      EnterKeepsLookup(View(), last, client, capability, if g == null then "" else g.name);
      Insert(g, client, capability);
      assert Ready();
    }

    method NextGroup(name: string, g0: Group?, ghost last0: nat) returns (g: Group?, ghost last: nat)
      requires Ready() && Stands(g0, last0)
      ensures Stands(g, last) && last == At(View(), name, last0) && (g != null <==> last < |gs|)
      ensures g == null <==> g0 == null && Lookup(gs, name) == |gs|
      ensures g != null ==> g in groups && (Lookup(gs, name) < |gs| ==> Named(gs, g.name) == Lookup(gs, name))
    {
      assert Opened(IndexGate);
      g, last := g0, last0;
      var found := FindGroup(name);
      if found != null {
        g, last := found, Lookup(gs, name);
      }
    }
  }
}
