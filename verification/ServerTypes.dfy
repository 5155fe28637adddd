// The nodes the server's two lists and its tree are made of.
module ServerTypes {
  import opened RegistryModel

  class Group {
    const name: string
    var capability: int
    var numberOfClients: int
    var clients: seq<int>

    ghost function View(): GroupView
      reads this
    {
      GroupView(name, capability, numberOfClients, clients)
    }

    constructor (name: string)
      ensures View() == GroupView(name, 0, 0, [])
    {
      this.name := name;
      capability, numberOfClients, clients := 0, 0, [];
    }

    // remove_client_from_mcast_group_node
    method RemoveClient(client: int) returns (found: bool)
      modifies this`clients, this`numberOfClients
      ensures clients == Without(old(clients), client) && found == (client in old(clients))
      ensures numberOfClients == old(numberOfClients) - if found then 1 else 0
    {
      var i := 0;
      while i < |clients|
        invariant 0 <= i <= |clients| && client !in clients[..i]
      {
        if clients[i] == client {
          WithoutAt(clients, i);
          clients := clients[..i] + clients[i + 1..];
          numberOfClients := numberOfClients - 1;
          return true;
        }
        i := i + 1;
      }
      WithoutNone(clients, client);
      found := false;
    }

    // ADD_CLIENT_IN_GROUP
    method AddClient(client: int)
      modifies this`clients, this`numberOfClients
      ensures clients == [client] + old(clients) && numberOfClients == old(numberOfClients) + 1
    {
      numberOfClients := numberOfClients + 1;
      clients := [client] + clients;
    }
  }

  ghost function NamesOf(gs: seq<Group>): (r: seq<string>)
    ensures |r| == |gs| && forall i :: 0 <= i < |gs| ==> r[i] == gs[i].name
  {
    seq(|gs|, i requires 0 <= i < |gs| => gs[i].name)
  }

  // the groups of one client
  class GroupList {
    var groups: seq<Group>

    constructor (g: Group)
      ensures groups == [g]
    {
      groups := [g];
    }

    // remove_rb_grp_node
    method RemoveGroup(name: string) returns (g: Group?)
      modifies this
      ensures NamesOf(groups) == Without(NamesOf(old(groups)), name)
      ensures g == null <==> name !in NamesOf(old(groups))
      ensures g != null ==> g in old(groups) && g.name == name
      ensures forall x :: x in groups ==> x in old(groups)
    {
      var i := 0;
      ghost var names := NamesOf(groups);
      while i < |groups|
        invariant 0 <= i <= |groups| && groups == old(groups) && name !in names[..i]
      {
        if groups[i].name == name {
          g := groups[i];
          WithoutAt(names, i);
          groups := groups[..i] + groups[i + 1..];
          assert NamesOf(groups) == names[..i] + names[i + 1..];
          return;
        }
        i := i + 1;
      }
      WithoutNone(names, name);
      g := null;
    }

    method AddGroup(g: Group)
      modifies this
      ensures groups == [g] + old(groups) && NamesOf(groups) == [g.name] + NamesOf(old(groups))
    {
      groups := [g] + groups;
    }
  }

  class Node {
    const key: int
    const capability: int
    const list: GroupList?
    var red: bool
    var left: Node
    var right: Node
    var parent: Node

    constructor (key: int, capability: int, list: GroupList?)
      ensures this.key == key && this.capability == capability && this.list == list
      ensures !red && left == right == parent == this
    {
      this.key, this.capability, this.list := key, capability, list;
      red, left, right, parent := false, this, this, this;
    }
  }
}
