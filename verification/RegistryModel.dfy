// What the server's two-way client index means, as values: a join and a leave are functions on it.
module RegistryModel {
  import opened Basics

  datatype GroupView = GroupView(name: string, capability: int, count: int, clients: seq<int>)
  datatype NodeView = NodeView(capability: int, groups: seq<string>)
  datatype Registry = Registry(groups: seq<GroupView>, nodes: map<int, NodeView>)

  // the list without its first x
  function Without<T(==)>(s: seq<T>, x: T): seq<T> {
    if s == [] then [] else if s[0] == x then s[1..] else [s[0]] + Without(s[1..], x)
  }

  lemma {:induction false} WithoutAt<T>(s: seq<T>, i: nat)
    requires i < |s| && s[i] !in s[..i]
    ensures Without(s, s[i]) == s[..i] + s[i + 1..]
  {
    if i > 0 {
      assert s[..i][0] == s[0];
      assert s[1..][..i - 1] == s[1..i] && forall k :: 0 <= k < i - 1 ==> s[1..i][k] == s[..i][k + 1];
      WithoutAt(s[1..], i - 1);
      assert s == [s[0]] + s[1..];
    }
  }

  lemma {:induction false} WithoutNone<T>(s: seq<T>, x: T)
    requires x !in s
    ensures Without(s, x) == s
  {
    if s != [] { WithoutNone(s[1..], x); }
  }

  lemma {:induction false} WithoutMember<T>(s: seq<T>, x: T, y: T)
    requires Distinct(s)
    ensures y in Without(s, x) <==> y in s && y != x
  {
    if s != [] {
      assert y in s <==> y == s[0] || y in s[1..];
      WithoutMember(s[1..], x, y);
    }
  }

  lemma {:induction false} WithoutDistinct<T>(s: seq<T>, x: T)
    requires Distinct(s)
    ensures Distinct(Without(s, x)) && |Without(s, x)| == |s| - if x in s then 1 else 0
  {
    if s != [] {
      WithoutDistinct(s[1..], x);
      assert x in s <==> x == s[0] || x in s[1..];
      var r := Without(s[1..], x);
      forall i | 0 <= i < |r| ensures r[i] != s[0] { WithoutMember(s[1..], x, r[i]); }
    }
  }

  lemma WithoutMembers<T>(s: seq<T>, x: T)
    requires Distinct(s)
    ensures Distinct(Without(s, x)) && forall y :: y in Without(s, x) <==> y in s && y != x
    ensures |Without(s, x)| == |s| - if x in s then 1 else 0
  {
    WithoutDistinct(s, x);
    forall y ensures y in Without(s, x) <==> y in s && y != x { WithoutMember(s, x, y); }
  }

  // only the first two characters of a group name are compared when a group is looked up
  function Stem(name: string): string { if |name| <= 2 then name else name[..2] }

  lemma StemsAgree(a: string, b: string)
    ensures Stem(a) == Stem(b) <==> a == b || (|a| >= 2 && |b| >= 2 && a[0] == b[0] && a[1] == b[1])
  {
    if |a| >= 2 { assert Stem(a) == [a[0], a[1]]; }
    if |b| >= 2 { assert Stem(b) == [b[0], b[1]]; }
  }

  // the position of the first group whose name starts like the given one, or the number of groups
  function Lookup(gs: seq<GroupView>, name: string): (i: nat)
    ensures i <= |gs| && (i < |gs| ==> Stem(gs[i].name) == Stem(name))
    ensures forall j :: 0 <= j < i ==> Stem(gs[j].name) != Stem(name)
  {
    if gs == [] then 0 else if Stem(gs[0].name) == Stem(name) then 0 else 1 + Lookup(gs[1..], name)
  }

  function Named(gs: seq<GroupView>, name: string): (i: nat)
    ensures i <= |gs| && (i < |gs| ==> gs[i].name == name)
    ensures forall j :: 0 <= j < i ==> gs[j].name != name
  {
    if gs == [] then 0 else if gs[0].name == name then 0 else 1 + Named(gs[1..], name)
  }

  function Entered(g: GroupView, client: int, capability: int): GroupView {
    var rest := Without(g.clients, client);
    g.(capability := (g.capability + capability) % WORD, count := g.count + (if client in g.clients then 0 else 1),
        clients := [client] + rest)
  }

  function Left(g: GroupView, client: int, capability: int): GroupView {
    g.(capability := (g.capability - capability) % WORD, count := g.count - (if client in g.clients then 1 else 0),
        clients := Without(g.clients, client))
  }

  function Admitted(r: Registry, i: nat, client: int, capability: int): Registry
    requires i < |r.groups|
  {
    r.(groups := r.groups[i := Entered(r.groups[i], client, capability)])
  }

  function FiledIn(ns: map<int, NodeView>, name: string, client: int, capability: int): map<int, NodeView> {
    ns[client := if client in ns then ns[client].(groups := [name] + ns[client].groups)
        else NodeView(capability, [name])]
  }

  // insert_client_info_in_server_DS on the group at position i, or on no group
  function Enter(r: Registry, i: nat, client: int, capability: int): Registry {
    if i >= |r.groups| then r
    else
      var t := Admitted(r, i, client, capability);
      if client <= 0 then t else t.(nodes := FiledIn(r.nodes, r.groups[i].name, client, capability))
  }

  predicate Listed(r: Registry, client: int, name: string) {
    client > 0 && client in r.nodes && name in r.nodes[client].groups
  }

  function Dismissed(r: Registry, i: nat, client: int, capability: int): Registry
    requires i < |r.groups|
  {
    r.(groups := r.groups[i := Left(r.groups[i], client, capability)])
  }

  function Delisted(ns: map<int, NodeView>, name: string, client: int): map<int, NodeView>
    requires client in ns
  {
    ns[client := ns[client].(groups := Without(ns[client].groups, name))]
  }

  // a node without groups leaves the tree
  function Pruned(ns: map<int, NodeView>, client: int): map<int, NodeView>
    requires client in ns
  {
    if ns[client].groups == [] then ns - {client} else ns
  }

  // remove_client_info_from_server_DS; it succeeds exactly when the client is listed
  function Leave(r: Registry, client: int, name: string): Registry {
    var i := Named(r.groups, name);
    if !Listed(r, client, name) || i == |r.groups| then r
    else Dismissed(r, i, client, r.nodes[client].capability).(nodes := Pruned(Delisted(r.nodes, name, client), client))
  }

  // a join, written out: the client comes first in the group, and the group first in the client's list
  lemma JoinIs(r: Registry, i: nat, client: int, capability: int)
    requires i < |r.groups| && client > 0
    ensures var t, g := Enter(r, i, client, capability), r.groups[i];
            && |t.groups| == |r.groups| && (forall j :: 0 <= j < |r.groups| && j != i ==> t.groups[j] == r.groups[j])
            && t.groups[i].name == g.name && t.groups[i].capability == (g.capability + capability) % 0x1_0000_0000
            && (client !in g.clients ==>
                  t.groups[i].count == g.count + 1 && t.groups[i].clients == [client] + g.clients)
            && (client in g.clients ==>
                  && t.groups[i].count == g.count && t.groups[i].clients[0] == client
                  && multiset(t.groups[i].clients) == multiset(g.clients))
            && (forall k :: k != client ==>
                (k in t.nodes <==> k in r.nodes) && (k in r.nodes ==> t.nodes[k] == r.nodes[k]))
            && client in t.nodes
            && t.nodes[client] == if client in r.nodes
                                  then NodeView(r.nodes[client].capability, [g.name] + r.nodes[client].groups)
                                  else NodeView(capability, [g.name])
  {
    var clients := r.groups[i].clients;
    if client in clients { WithoutLosesOne(clients, client); } else { WithoutNone(clients, client); }
  }

  lemma {:induction false} WithoutLosesOne<T>(s: seq<T>, x: T)
    requires x in s
    ensures multiset(Without(s, x)) == multiset(s) - multiset{x}
  {
    assert s == [s[0]] + s[1..];
    if s[0] != x { WithoutLosesOne(s[1..], x); }
  }

  // a leave of a listed client from an existing group, written out
  lemma LeaveIs(r: Registry, client: int, name: string)
    requires client > 0 && client in r.nodes && name in r.nodes[client].groups && Named(r.groups, name) < |r.groups|
    ensures var t, i, n := Leave(r, client, name), Named(r.groups, name), r.nodes[client]; var g := r.groups[i];
            && |t.groups| == |r.groups| && (forall j :: 0 <= j < |r.groups| && j != i ==> t.groups[j] == r.groups[j])
            && t.groups[i].name == g.name && t.groups[i].capability == (g.capability - n.capability) % 0x1_0000_0000
            && t.groups[i].count == g.count - (if client in g.clients then 1 else 0)
            && multiset(t.groups[i].clients) == multiset(g.clients) - multiset{client}
            && (forall k :: k != client ==>
                (k in t.nodes <==> k in r.nodes) && (k in r.nodes ==> t.nodes[k] == r.nodes[k]))
            && (client in t.nodes <==> |n.groups| > 1)
            && (client in t.nodes ==>
                  && t.nodes[client].capability == n.capability
                  && multiset(t.nodes[client].groups) == multiset(n.groups) - multiset{name})
  {
    var g, n := r.groups[Named(r.groups, name)], r.nodes[client];
    WithoutLosesOne(n.groups, name);
    WithoutSize(n.groups, name);
    if client in g.clients { WithoutLosesOne(g.clients, client); } else { WithoutNone(g.clients, client); }
  }

  lemma {:induction false} WithoutSize<T>(s: seq<T>, x: T)
    requires x in s
    ensures |Without(s, x)| == |s| - 1
  {
    if s[0] != x { WithoutSize(s[1..], x); }
  }

  // a leave of anybody else changes nothing
  lemma LeaveOfNobody(r: Registry, client: int, name: string)
    requires client <= 0 || client !in r.nodes || name !in r.nodes[client].groups || Named(r.groups, name) == |r.groups|
    ensures Leave(r, client, name) == r
  {
  }

  // ---- runs ----

  datatype Request = JoinReq(client: int, name: string, capability: int) | LeaveReq(client: int, name: string)

  function Serve(r: Registry, q: Request): Registry {
    match q
    case JoinReq(c, name, cap) => Enter(r, Lookup(r.groups, name), c, cap)
    case LeaveReq(c, name) => Leave(r, c, name)
  }

  predicate InGroup(r: Registry, client: int, i: nat) { i < |r.groups| && client in r.groups[i].clients }

  function Total(clients: seq<int>, cap: int -> int): int {
    if clients == [] then 0 else cap(clients[0]) + Total(clients[1..], cap)
  }

  ghost predicate GroupOk(g: GroupView, cap: int -> int) {
    Distinct(g.clients) && g.count == |g.clients| && g.capability == Total(g.clients, cap) % WORD
  }

  ghost predicate NodeOk(r: Registry, k: int, cap: int -> int)
    requires k in r.nodes
  {
    && k > 0 && r.nodes[k].capability == cap(k) && r.nodes[k].groups != [] && Distinct(r.nodes[k].groups)
    && forall name :: name in r.nodes[k].groups ==> Named(r.groups, name) < |r.groups|
  }

  ghost predicate NamesApart(gs: seq<GroupView>) {
    forall i, j :: 0 <= i < j < |gs| ==> Stem(gs[i].name) != Stem(gs[j].name)
  }

  // the two sides of the index agree, and every group's totals are those of its members
  ghost predicate Agree(r: Registry, cap: int -> int) {
    && NamesApart(r.groups)
    && (forall i :: 0 <= i < |r.groups| ==> GroupOk(r.groups[i], cap))
    && (forall k :: k in r.nodes ==> NodeOk(r, k, cap))
    && (forall i: nat, k {:trigger InGroup(r, k, i)} :: i < |r.groups| ==>
        (InGroup(r, k, i) <==> Listed(r, k, r.groups[i].name)))
  }

  lemma {:induction false} TotalWithout(s: seq<int>, x: int, cap: int -> int)
    ensures Total(Without(s, x), cap) == Total(s, cap) - if x in s then cap(x) else 0
  {
    if s != [] && s[0] != x {
      TotalWithout(s[1..], x, cap);
      assert x in s <==> x in s[1..];
      assert Without(s, x)[1..] == Without(s[1..], x);
    }
  }

  lemma NamedAt(gs: seq<GroupView>, i: nat)
    requires NamesApart(gs) && i < |gs|
    ensures Named(gs, gs[i].name) == i && Lookup(gs, gs[i].name) == i
  {
  }

  lemma EnteredOk(g: GroupView, client: int, cap: int -> int)
    requires GroupOk(g, cap) && client !in g.clients
    ensures GroupOk(Entered(g, client, cap(client)), cap)
  {
    WithoutNone(g.clients, client);
    var e := Entered(g, client, cap(client));
    assert e.clients[1..] == g.clients;
    assert (Total(g.clients, cap) % WORD + cap(client)) % WORD == (Total(g.clients, cap) + cap(client)) % WORD;
  }

  lemma LeftOk(g: GroupView, client: int, cap: int -> int)
    requires GroupOk(g, cap) && client in g.clients
    ensures GroupOk(Left(g, client, cap(client)), cap)
  {
    WithoutMembers(g.clients, client);
    TotalWithout(g.clients, client, cap);
    assert (Total(g.clients, cap) % WORD - cap(client)) % WORD == (Total(g.clients, cap) - cap(client)) % WORD;
  }

  lemma RenamedGroup(gs: seq<GroupView>, i: nat, g: GroupView, name: string)
    requires i < |gs| && g.name == gs[i].name
    ensures Named(gs[i := g], name) == Named(gs, name) && Lookup(gs[i := g], name) == Lookup(gs, name)
    ensures NamesApart(gs) ==> NamesApart(gs[i := g])
  {
    var hs := gs[i := g];
    assert forall j :: 0 <= j < |gs| ==> hs[j].name == gs[j].name;
  }

  // the exact condition under which a join at an existing group keeps the two sides in agreement
  lemma JoinKeepsAgreement(r: Registry, name: string, client: int, cap: int -> int)
    requires Agree(r, cap) && Lookup(r.groups, name) < |r.groups|
    ensures Agree(Serve(r, JoinReq(client, name, cap(client))), cap)
            <==> client > 0 && !InGroup(r, client, Lookup(r.groups, name))
  {
    var i := Lookup(r.groups, name);
    var g := r.groups[i];
    var t := Enter(r, i, client, cap(client));
    var e := Entered(g, client, cap(client));
    forall m ensures Named(t.groups, m) == Named(r.groups, m) { RenamedGroup(r.groups, i, e, m); }
    NamedAt(r.groups, i);
    if client > 0 && !InGroup(r, client, i) {
      JoinAgrees(r, i, client, cap);
    } else if client <= 0 {
      assert InGroup(t, client, i);
    } else {
      assert Listed(r, client, g.name);
      var ns := t.nodes[client].groups;
      assert ns == [g.name] + r.nodes[client].groups;
      var j :| 0 <= j < |r.nodes[client].groups| && r.nodes[client].groups[j] == g.name;
      assert ns[0] == ns[j + 1];
      assert !NodeOk(t, client, cap);
    }
  }

  lemma JoinAgrees(r: Registry, i: nat, client: int, cap: int -> int)
    requires Agree(r, cap) && i < |r.groups| && client > 0 && !InGroup(r, client, i)
    ensures Agree(Enter(r, i, client, cap(client)), cap)
  {
    var g := r.groups[i];
    var e := Entered(g, client, cap(client));
    var t := Enter(r, i, client, cap(client));
    WithoutNone(g.clients, client);
    EnteredOk(g, client, cap);
    NamedAt(r.groups, i);
    RenamedGroup(r.groups, i, e, g.name);
    assert !Listed(r, client, g.name);
    forall k | k in t.nodes ensures NodeOk(t, k, cap) {
      assert k in r.nodes ==> NodeOk(r, k, cap);
      forall m | m in t.nodes[k].groups ensures Named(t.groups, m) < |t.groups| { RenamedGroup(r.groups, i, e, m); }
    }
    forall j: nat, k | j < |t.groups| ensures InGroup(t, k, j) <==> Listed(t, k, t.groups[j].name) {
      assert InGroup(r, k, j) <==> Listed(r, k, r.groups[j].name);
      if j != i { assert Stem(r.groups[j].name) != Stem(g.name); }
    }
  }

  lemma LeaveAgrees(r: Registry, client: int, name: string, cap: int -> int)
    requires Agree(r, cap)
    ensures Agree(Leave(r, client, name), cap)
  {
    var i := Named(r.groups, name);
    if Listed(r, client, name) && i < |r.groups| { MemberLeaves(r, client, i, cap); }
  }

  lemma MemberLeaves(r: Registry, client: int, i: nat, cap: int -> int)
    requires Agree(r, cap) && i < |r.groups| && Listed(r, client, r.groups[i].name)
    ensures Agree(Leave(r, client, r.groups[i].name), cap)
  {
    var g, n := r.groups[i], r.nodes[client];
    NamedAt(r.groups, i);
    assert NodeOk(r, client, cap);
    assert InGroup(r, client, i);
    var l := Left(g, client, n.capability);
    var t := Leave(r, client, g.name);
    LeftOk(g, client, cap);
    RenamedGroup(r.groups, i, l, g.name);
    forall k | k in t.nodes ensures NodeOk(t, k, cap) { NodeAfterLeave(r, client, i, cap, k); }
    forall j: nat, k | j < |t.groups| ensures InGroup(t, k, j) <==> Listed(t, k, t.groups[j].name) {
      assert InGroup(r, k, j) <==> Listed(r, k, r.groups[j].name);
      WithoutMembers(n.groups, g.name);
      WithoutMembers(g.clients, client);
      if j != i { assert Stem(r.groups[j].name) != Stem(g.name); }
    }
  }

  lemma NodeAfterLeave(r: Registry, client: int, i: nat, cap: int -> int, k: int)
    requires Agree(r, cap) && i < |r.groups| && Listed(r, client, r.groups[i].name)
    requires k in Leave(r, client, r.groups[i].name).nodes
    ensures NodeOk(Leave(r, client, r.groups[i].name), k, cap)
  {
    var g, n := r.groups[i], r.nodes[client];
    var t := Leave(r, client, g.name);
    NamedAt(r.groups, i);
    assert NodeOk(r, k, cap);
    WithoutMembers(r.nodes[k].groups, g.name);
    forall m | m in t.nodes[k].groups ensures Named(t.groups, m) < |t.groups| {
      RenamedGroup(r.groups, i, Left(g, client, n.capability), m);
    }
  }

  // joins come from clients that are not members yet, each always with its own capability
  ghost predicate Orderly(r: Registry, q: Request, cap: int -> int) {
    q.JoinReq? ==> q.client > 0 && q.capability == cap(q.client) && !InGroup(r, q.client, Lookup(r.groups, q.name))
  }

  function Run(r: Registry, qs: seq<Request>): Registry
    decreases |qs|
  {
    if qs == [] then r else Run(Serve(r, qs[0]), qs[1..])
  }

  ghost predicate OrderlyRun(r: Registry, qs: seq<Request>, cap: int -> int)
    decreases |qs|
  {
    qs == [] || (Orderly(r, qs[0], cap) && OrderlyRun(Serve(r, qs[0]), qs[1..], cap))
  }

  // on every orderly run the two sides agree
  lemma {:induction false} RunAgrees(r: Registry, qs: seq<Request>, cap: int -> int)
    requires Agree(r, cap) && OrderlyRun(r, qs, cap)
    ensures Agree(Run(r, qs), cap)
    decreases |qs|
  {
    if qs != [] {
      var q := qs[0];
      match q {
        case JoinReq(c, name, _) => if Lookup(r.groups, name) < |r.groups| { JoinKeepsAgreement(r, name, c, cap); }
        case LeaveReq(c, name) => LeaveAgrees(r, c, name, cap);
      }
      RunAgrees(Serve(r, q), qs[1..], cap);
    }
  }

  // before anybody has joined
  predicate Empty(r: Registry) {
    r.nodes == map[] && forall i :: 0 <= i < |r.groups| ==> r.groups[i] == GroupView(r.groups[i].name, 0, 0, [])
  }

  lemma FreshRunAgrees(r: Registry, qs: seq<Request>, cap: int -> int)
    requires Empty(r) && NamesApart(r.groups) && OrderlyRun(r, qs, cap)
    ensures Agree(Run(r, qs), cap)
  {
    assert forall i :: 0 <= i < |r.groups| ==> GroupOk(r.groups[i], cap);
    RunAgrees(r, qs, cap);
  }

  // in agreement, a leave succeeds exactly when the client is a member, and then it is one no longer;
  // and it is known to the index exactly when some group has it
  lemma LeaveFitsMembership(r: Registry, i: nat, client: int, cap: int -> int)
    requires Agree(r, cap) && i < |r.groups|
    ensures Listed(r, client, r.groups[i].name) <==> InGroup(r, client, i)
    ensures !InGroup(Leave(r, client, r.groups[i].name), client, i)
    ensures client in r.nodes <==> exists j: nat :: InGroup(r, client, j)
  {
    var name := r.groups[i].name;
    assert Listed(r, client, name) <==> InGroup(r, client, i);
    NamedAt(r.groups, i);
    WithoutMembers(r.groups[i].clients, client);
    if client in r.nodes {
      assert NodeOk(r, client, cap);
      var m := r.nodes[client].groups[0];
      var j := Named(r.groups, m);
      assert InGroup(r, client, j);
    }
    if exists j: nat :: InGroup(r, client, j) {
      var j: nat :| InGroup(r, client, j);
      assert Listed(r, client, r.groups[j].name);
    }
  }

  lemma LeftUndoesEntered(g: GroupView, client: int, cap: int -> int)
    requires GroupOk(g, cap) && client !in g.clients
    ensures Left(Entered(g, client, cap(client)), client, cap(client)) == g
  {
    WithoutNone(g.clients, client);
    assert ((g.capability + cap(client)) % WORD - cap(client)) % WORD == g.capability;
  }

  lemma PrunedUndoesFiled(ns: map<int, NodeView>, name: string, client: int, capability: int)
    requires client in ns ==> ns[client].groups != []
    ensures Pruned(Delisted(FiledIn(ns, name, client, capability), name, client), client) == ns
  {
    var before := if client in ns then ns[client].groups else [];
    assert Without([name] + before, name) == before;
  }

  // leaving undoes joining
  lemma LeaveUndoesJoin(r: Registry, i: nat, client: int, cap: int -> int)
    requires Agree(r, cap) && i < |r.groups| && client > 0 && !InGroup(r, client, i)
    ensures Leave(Enter(r, i, client, cap(client)), client, r.groups[i].name) == r
  {
    var g, name := r.groups[i], r.groups[i].name;
    var e := Entered(g, client, cap(client));
    NamedAt(r.groups, i);
    RenamedGroup(r.groups, i, e, name);
    LeftUndoesEntered(g, client, cap);
    if client in r.nodes { assert NodeOk(r, client, cap); }
    PrunedUndoesFiled(r.nodes, name, client, cap(client));
    assert r.groups[i := e][i := g] == r.groups;
  }

  const R0 := Registry([GroupView("G1", 0, 0, [])], map[])
  const R1 := Registry([GroupView("G1", 5, 1, [1])], map[1 := NodeView(5, ["G1"])])
  const R2 := Registry([GroupView("G1", 10, 1, [1])], map[1 := NodeView(5, ["G1", "G1"])])
  const R3 := Registry([GroupView("G1", 5, 0, [])], map[1 := NodeView(5, ["G1"])])

  lemma FirstJoin()
    ensures Serve(R0, JoinReq(1, "G1", 5)) == R1
  {
    assert Lookup(R0.groups, "G1") == 0 && Without<int>([], 1) == [];
    var r := Serve(R0, JoinReq(1, "G1", 5));
    assert r.groups[0] == GroupView("G1", 5, 1, [1]) && r.groups == [r.groups[0]];
    assert r.nodes == R1.nodes;
  }

  lemma SecondJoin()
    ensures Serve(R1, JoinReq(1, "G1", 5)) == R2
  {
    assert Lookup(R1.groups, "G1") == 0 && Without([1], 1) == [];
    var r := Serve(R1, JoinReq(1, "G1", 5));
    assert r.groups[0] == GroupView("G1", 10, 1, [1]) && r.groups == [r.groups[0]] && ["G1"] + ["G1"] == ["G1", "G1"];
    assert r.nodes == map[1 := NodeView(5, ["G1"] + ["G1"])];
  }

  lemma OneLeave()
    ensures Serve(R2, LeaveReq(1, "G1")) == R3
  {
    assert Without(["G1", "G1"], "G1") == ["G1"] && Without([1], 1) == [];
    assert Named(R2.groups, "G1") == 0;
    var r := Serve(R2, LeaveReq(1, "G1"));
    assert r.groups[0] == GroupView("G1", 5, 0, []) && r.groups == [r.groups[0]];
    assert r.nodes == map[1 := NodeView(5, ["G1"])];
  }

  lemma ThreeRequests()
    ensures Run(R0, [JoinReq(1, "G1", 5), JoinReq(1, "G1", 5), LeaveReq(1, "G1")]) == R3
  {
    FirstJoin();
    SecondJoin();
    OneLeave();
    var qs := [JoinReq(1, "G1", 5), JoinReq(1, "G1", 5), LeaveReq(1, "G1")];
    assert qs[1..] == [JoinReq(1, "G1", 5), LeaveReq(1, "G1")] && qs[1..][1..] == [LeaveReq(1, "G1")];
    assert Run(R0, qs) == Run(R1, qs[1..]) == Run(R2, qs[1..][1..]) == Run(R3, []) == R3;
  }

  // a client that joins twice stays in the index after it has left the group
  lemma RejoinBreaksAgreement()
    ensures exists r: Registry, cap: int -> int :: Agree(r, cap) &&
              var t := Run(r, [JoinReq(1, "G1", cap(1)), JoinReq(1, "G1", cap(1)), LeaveReq(1, "G1")]);
              !InGroup(t, 1, 0) && Listed(t, 1, "G1")
  {
    var cap := (c: int) => 5;
    assert Agree(R0, cap);
    ThreeRequests();
    assert !InGroup(R3, 1, 0) && Listed(R3, 1, "G1");
  }

  // ---- one request for several groups ----

  function At(r: Registry, name: string, last: nat): nat {
    var i := Lookup(r.groups, name);
    if i < |r.groups| then i else last
  }

  // the group found for one name stays in place for the next: last is its position, or the number of groups
  function JoinAll(r: Registry, names: seq<string>, client: int, capability: int, last: nat): (Registry, seq<bool>)
    decreases |names|
  {
    if names == [] then (r, [])
    else
      var at := At(r, names[0], last);
      var rest := JoinAll(Enter(r, at, client, capability), names[1..], client, capability, at);
      (rest.0, [at < |r.groups|] + rest.1)
  }

  // a known name joins its group, an unknown one the group that the last known name before it has left behind, if any
  lemma JoinAllFirst(r: Registry, name: string, rest: seq<string>, client: int, capability: int, last: nat)
    ensures var i := Lookup(r.groups, name); var all := JoinAll(r, [name] + rest, client, capability, last);
            && (i < |r.groups| ==>
                  var next := JoinAll(Enter(r, i, client, capability), rest, client, capability, i);
                  all == (next.0, [true] + next.1))
            && (i == |r.groups| && last < |r.groups| ==>
                  var next := JoinAll(Enter(r, last, client, capability), rest, client, capability, last);
                  all == (next.0, [true] + next.1))
            && (i == |r.groups| && last >= |r.groups| ==>
                  var next := JoinAll(r, rest, client, capability, last);
                  all == (next.0, [false] + next.1))
  {
    assert ([name] + rest)[1..] == rest;
  }

  predicate Known(r: Registry, name: string) { Lookup(r.groups, name) < |r.groups| }

  lemma EnterKeepsLookup(r: Registry, i: nat, client: int, capability: int, name: string)
    ensures var t := Enter(r, i, client, capability);
            |t.groups| == |r.groups| && Lookup(t.groups, name) == Lookup(r.groups, name)
                && Named(t.groups, name) == Named(r.groups, name)
            && (NamesApart(r.groups) ==> NamesApart(t.groups))
  {
    if i < |r.groups| { RenamedGroup(r.groups, i, Entered(r.groups[i], client, capability), name); }
  }

  predicate SomeKnown(r: Registry, names: seq<string>, k: nat)
    requires k < |names|
  {
    exists j :: 0 <= j <= k && Known(r, names[j])
  }

  lemma SomeKnownStep(r: Registry, t: Registry, names: seq<string>, k: nat)
    requires 0 < k < |names| && forall name :: Known(t, name) == Known(r, name)
    ensures SomeKnown(r, names, k) <==> Known(r, names[0]) || SomeKnown(t, names[1..], k - 1)
  {
    if SomeKnown(r, names, k) {
      var j :| 0 <= j <= k && Known(r, names[j]);
      if j > 0 { assert names[1..][j - 1] == names[j]; }
    }
    if SomeKnown(t, names[1..], k - 1) {
      var j :| 0 <= j <= k - 1 && Known(t, names[1..][j]);
      assert names[1..][j] == names[j + 1];
    }
  }

  // a name is accepted exactly when it, or one before it in the same request, names a group
  lemma {:induction false} JoinAllAccepts(r: Registry, names: seq<string>, client: int, capability: int, last: nat,
      k: nat)
    requires k < |names|
    ensures var accepted := JoinAll(r, names, client, capability, last).1;
            |accepted| == |names| && (accepted[k] <==> last < |r.groups| || SomeKnown(r, names, k))
    decreases |names|
  {
    var at := At(r, names[0], last);
    var t := Enter(r, at, client, capability);
    JoinAllLength(t, names[1..], client, capability, at);
    EnterKeepsLookup(r, at, client, capability, "");
    if k > 0 {
      JoinAllAccepts(t, names[1..], client, capability, at, k - 1);
      forall name ensures Known(t, name) == Known(r, name) { EnterKeepsLookup(r, at, client, capability, name); }
      SomeKnownStep(r, t, names, k);
    }
  }

  lemma {:induction false} JoinAllLength(r: Registry, names: seq<string>, client: int, capability: int, last: nat)
    ensures |JoinAll(r, names, client, capability, last).1| == |names|
    decreases |names|
  {
    if names != [] {
      var at := At(r, names[0], last);
      JoinAllLength(Enter(r, at, client, capability), names[1..], client, capability, at);
    }
  }

  function Joins(names: seq<string>, client: int, capability: int): seq<Request> {
    if names == [] then [] else [JoinReq(client, names[0], capability)] + Joins(names[1..], client, capability)
  }

  // when every name is known, the request is the run of its joins
  lemma {:induction false} JoinAllIsRun(r: Registry, names: seq<string>, client: int, capability: int, last: nat)
    requires forall i :: 0 <= i < |names| ==> Known(r, names[i])
    ensures JoinAll(r, names, client, capability, last).0 == Run(r, Joins(names, client, capability))
    decreases |names|
  {
    if names != [] {
      assert Known(r, names[0]);
      var i := Lookup(r.groups, names[0]);
      var t := Enter(r, i, client, capability);
      forall k | 0 <= k < |names[1..]| ensures Known(t, names[1..][k]) {
        assert Known(r, names[k + 1]);
        EnterKeepsLookup(r, i, client, capability, names[k + 1]);
      }
      JoinAllIsRun(t, names[1..], client, capability, i);
      assert Joins(names, client, capability)[1..] == Joins(names[1..], client, capability);
    }
  }

  // the groups a request for these names joins, one after the other
  function Positions(gs: seq<GroupView>, names: seq<string>, last: nat): (ps: seq<nat>)
    ensures forall k :: 0 <= k < |ps| ==> ps[k] < |gs|
  {
    if names == [] then []
    else
      var i := Lookup(gs, names[0]);
      var at := if i < |gs| then i else last;
      (if at < |gs| then [at] else []) + Positions(gs, names[1..], at)
  }

  // one join for each of these groups
  function Joining(gs: seq<GroupView>, ps: seq<nat>, client: int, capability: int): seq<Request>
    requires forall k :: 0 <= k < |ps| ==> ps[k] < |gs|
  {
    if ps == [] then [] else [JoinReq(client, gs[ps[0]].name, capability)] + Joining(gs, ps[1..], client, capability)
  }

  // the request as one join after the other, each with the name of the group it goes to
  function Resolved(gs: seq<GroupView>, names: seq<string>, client: int, capability: int, last: nat): seq<Request> {
    Joining(gs, Positions(gs, names, last), client, capability)
  }

  lemma {:induction false} PositionsKept(gs: seq<GroupView>, hs: seq<GroupView>, names: seq<string>, last: nat)
    requires |gs| == |hs| && forall name :: Lookup(hs, name) == Lookup(gs, name)
    ensures Positions(hs, names, last) == Positions(gs, names, last)
    decreases |names|
  {
    if names != [] {
      var i := Lookup(gs, names[0]);
      PositionsKept(gs, hs, names[1..], if i < |gs| then i else last);
    }
  }

  lemma {:induction false} JoiningKept(gs: seq<GroupView>, hs: seq<GroupView>, ps: seq<nat>, client: int,
      capability: int)
    requires |gs| == |hs| && (forall k :: 0 <= k < |ps| ==> ps[k] < |gs|) && forall i :: 0 <= i < |gs| ==>
             gs[i].name == hs[i].name
    ensures Joining(hs, ps, client, capability) == Joining(gs, ps, client, capability)
  {
    if ps != [] { JoiningKept(gs, hs, ps[1..], client, capability); }
  }

  lemma PositionsFirst(gs: seq<GroupView>, names: seq<string>, last: nat, at: nat)
    requires names != [] && at == if Lookup(gs, names[0]) < |gs| then Lookup(gs, names[0]) else last
    ensures at < |gs| ==> Positions(gs, names, last) == [at] + Positions(gs, names[1..], at)
    ensures at >= |gs| ==> Positions(gs, names, last) == Positions(gs, names[1..], at)
  {
  }

  lemma ResolvedFirst(gs: seq<GroupView>, names: seq<string>, client: int, capability: int, last: nat, at: nat)
    requires names != [] && at == if Lookup(gs, names[0]) < |gs| then Lookup(gs, names[0]) else last
    ensures var rest := Resolved(gs, names[1..], client, capability, at);
            Resolved(gs, names, client, capability, last) == if at < |gs|
                then [JoinReq(client, gs[at].name, capability)] + rest else rest
  {
    var rest := Positions(gs, names[1..], at);
    PositionsFirst(gs, names, last, at);
    if at < |gs| { assert ([at] + rest)[1..] == rest; }
  }

  lemma EnterKeepsNames(r: Registry, at: nat, client: int, capability: int)
    ensures var t := Enter(r, at, client, capability);
            && |t.groups| == |r.groups| && (NamesApart(r.groups) ==> NamesApart(t.groups))
            && (forall i :: 0 <= i < |r.groups| ==> r.groups[i].name == t.groups[i].name)
            && (forall name :: Lookup(t.groups, name) == Lookup(r.groups, name))
  {
    var t := Enter(r, at, client, capability);
    assert forall i :: 0 <= i < |r.groups| ==> r.groups[i].name == t.groups[i].name;
    SameNames(r.groups, t.groups);
  }

  lemma SameNames(gs: seq<GroupView>, hs: seq<GroupView>)
    requires |gs| == |hs| && forall i :: 0 <= i < |gs| ==> gs[i].name == hs[i].name
    ensures (NamesApart(gs) ==> NamesApart(hs)) && forall name :: Lookup(hs, name) == Lookup(gs, name)
  {
  }

  // entering a client changes no name
  lemma EnterKeepsPositions(r: Registry, at: nat, client: int, capability: int, names: seq<string>, last: nat)
    ensures var t := Enter(r, at, client, capability);
            && |t.groups| == |r.groups| && Positions(t.groups, names, last) == Positions(r.groups, names, last)
            && (NamesApart(r.groups) ==> NamesApart(t.groups))
            && Resolved(t.groups, names, client, capability, last)
                == Resolved(r.groups, names, client, capability, last)
  {
    var t := Enter(r, at, client, capability);
    EnterKeepsNames(r, at, client, capability);
    PositionsKept(r.groups, t.groups, names, last);
    JoiningKept(r.groups, t.groups, Positions(r.groups, names, last), client, capability);
  }

  lemma ResolvedStep(r: Registry, names: seq<string>, client: int, capability: int, last: nat)
    requires names != [] && NamesApart(r.groups)
    ensures var at := At(r, names[0], last); var t := Enter(r, at, client, capability);
            && NamesApart(t.groups) && Positions(t.groups, names[1..], at) == Positions(r.groups, names[1..], at)
            && Resolved(r.groups, names, client, capability, last)
               == (var rest := Resolved(t.groups, names[1..], client, capability, at);
                   if at < |r.groups| then [JoinReq(client, r.groups[at].name, capability)] + rest else rest)
            && (at < |r.groups| ==> t == Serve(r, JoinReq(client, r.groups[at].name, capability)))
  {
    var at := At(r, names[0], last);
    ResolvedFirst(r.groups, names, client, capability, last, at);
    EnterKeepsPositions(r, at, client, capability, names[1..], at);
    if at < |r.groups| { NamedAt(r.groups, at); }
  }

  // a request for any names is the run of the joins it stands for
  lemma {:induction false} JoinAllIsResolvedRun(r: Registry, names: seq<string>, client: int, capability: int,
      last: nat)
    requires NamesApart(r.groups)
    ensures JoinAll(r, names, client, capability, last).0 == Run(r, Resolved(r.groups, names, client, capability, last))
    decreases |names|
  {
    if names != [] {
      var at := At(r, names[0], last);
      var t := Enter(r, at, client, capability);
      ResolvedStep(r, names, client, capability, last);
      JoinAllIsResolvedRun(t, names[1..], client, capability, at);
      var rest := Resolved(t.groups, names[1..], client, capability, at);
      if at < |r.groups| {
        var q := JoinReq(client, r.groups[at].name, capability);
        assert ([q] + rest)[1..] == rest;
      }
    }
  }

  // ---- when a whole request keeps the two sides in agreement ----

  // joins at these positions by a client that is none of their members
  ghost predicate Unentered(r: Registry, client: int, ps: seq<nat>) {
    ps == [] || (client > 0 && Distinct(ps) && forall k :: 0 <= k < |ps| ==> !InGroup(r, client, ps[k]))
  }

  // no further join of the client mends this
  ghost predicate Broken(r: Registry, client: int) {
    || (client <= 0 && exists i: nat :: InGroup(r, client, i))
    || (client > 0 && client in r.nodes && !Distinct(r.nodes[client].groups))
  }

  lemma BrokenDisagrees(r: Registry, client: int, cap: int -> int)
    requires Broken(r, client)
    ensures !Agree(r, cap)
  {
    if client <= 0 {
      var i: nat :| InGroup(r, client, i);
      assert !Listed(r, client, r.groups[i].name);
    } else {
      assert !NodeOk(r, client, cap);
    }
  }

  lemma BrokenStays(r: Registry, i: nat, client: int, capability: int)
    requires Broken(r, client)
    ensures Broken(Enter(r, i, client, capability), client)
  {
    var t := Enter(r, i, client, capability);
    if client <= 0 {
      var j: nat :| InGroup(r, client, j);
      assert InGroup(t, client, j);
    } else if i < |r.groups| {
      var s := r.nodes[client].groups;
      var a, b :| 0 <= a < b < |s| && s[a] == s[b];
      assert t.nodes[client].groups[a + 1] == t.nodes[client].groups[b + 1];
    }
  }

  lemma {:induction false} BrokenForGood(r: Registry, names: seq<string>, client: int, capability: int, last: nat)
    requires Broken(r, client)
    ensures Broken(JoinAll(r, names, client, capability, last).0, client)
    decreases |names|
  {
    if names != [] {
      var at := At(r, names[0], last);
      BrokenStays(r, at, client, capability);
      BrokenForGood(Enter(r, at, client, capability), names[1..], client, capability, at);
    }
  }

  lemma JoinBreaks(r: Registry, i: nat, client: int, cap: int -> int)
    requires Agree(r, cap) && i < |r.groups| && (client <= 0 || InGroup(r, client, i))
    ensures Broken(Enter(r, i, client, cap(client)), client)
  {
    var t := Enter(r, i, client, cap(client));
    if client <= 0 {
      assert InGroup(t, client, i);
    } else {
      var name, s := r.groups[i].name, t.nodes[client].groups;
      assert Listed(r, client, name);
      var j :| 0 <= j < |r.nodes[client].groups| && r.nodes[client].groups[j] == name;
      assert s[0] == s[j + 1];
    }
  }

  lemma UnenteredStep(r: Registry, client: int, capability: int, at: nat, rest: seq<nat>)
    requires client > 0 && at < |r.groups| && forall k :: 0 <= k < |rest| ==> rest[k] < |r.groups|
    ensures Unentered(r, client, [at] + rest) <==>
            !InGroup(r, client, at) && Unentered(Enter(r, at, client, capability), client, rest)
  {
    var t := Enter(r, at, client, capability);
    var ps := [at] + rest;
    assert ps[0] == at && t.groups[at].clients[0] == client;
    assert forall p: nat :: InGroup(t, client, p) <==> InGroup(r, client, p) || p == at;
    assert forall k :: 0 <= k < |rest| ==> ps[k + 1] == rest[k];
    assert Distinct(ps) <==> Distinct(rest) && forall k :: 0 <= k < |rest| ==> rest[k] != at by {
      assert forall k :: 0 < k < |ps| ==> ps[k] == rest[k - 1];
    }
  }

  // a request keeps the two sides in agreement exactly when it joins no group, or different groups that the
  // client is not a member of
  lemma {:induction false} RequestKeepsAgreement(r: Registry, names: seq<string>, client: int, cap: int -> int,
      last: nat)
    requires Agree(r, cap)
    ensures Agree(JoinAll(r, names, client, cap(client), last).0, cap) <==>
            Unentered(r, client, Positions(r.groups, names, last))
    decreases |names|
  {
    if names != [] {
      var at := At(r, names[0], last);
      var t := Enter(r, at, client, cap(client));
      var rest := Positions(r.groups, names[1..], at);
      ResolvedStep(r, names, client, cap(client), last);
      if at >= |r.groups| {
        assert Positions(r.groups, names, last) == rest;
        RequestKeepsAgreement(t, names[1..], client, cap, at);
      } else if client > 0 && !InGroup(r, client, at) {
        JoinAgrees(r, at, client, cap);
        UnenteredStep(r, client, cap(client), at, rest);
        RequestKeepsAgreement(t, names[1..], client, cap, at);
      } else {
        JoinBreaks(r, at, client, cap);
        BrokenForGood(t, names[1..], client, cap(client), at);
        BrokenDisagrees(JoinAll(t, names[1..], client, cap(client), at).0, client, cap);
        assert ([at] + rest)[0] == at;
      }
    }
  }

  // an unknown name behind a known one joins the same group again, and breaks the agreement
  lemma UnknownNameBreaksAgreement(cap: int -> int)
    ensures Agree(R0, cap) && !Agree(JoinAll(R0, ["G1", "X1"], 1, cap(1), 1).0, cap)
  {
    var gs := R0.groups;
    assert "G1"[0] != "X1"[0];
    assert Lookup(gs, "G1") == 0 && Lookup(gs, "X1") == 1;
    var one := ["X1"];
    assert ["G1", "X1"][1..] == one && one[1..] == [];
    assert Positions(gs, one, 0) == [0] + Positions(gs, one[1..], 0) == [0];
    var ps := Positions(gs, ["G1", "X1"], 1);
    assert ps == [0] + Positions(gs, one, 0) && ps[0] == ps[1];
    RequestKeepsAgreement(R0, ["G1", "X1"], 1, cap, 1);
  }
}
