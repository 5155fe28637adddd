// What a group goes through, from one message to the next.
module GroupLife {
  import opened Basics
  import opened Selection
  import opened TaskMap
  import opened GroupRun
  import opened GroupProtocol

  // a task is assigned, and a client answers
  method Elect(g: ServerGroup, client: int) returns (states: seq<GroupState>)
    requires g.Valid() && g.state == StateNone && g.at == -1 && client > 0 && client in Ids(g.clients)
    modifies g, g.distributionMap
    ensures g.Valid() && states == [ModeratorSelectionPending, ModeratorSelected] && g.state == ModeratorSelected
    ensures 0 <= g.at < |g.clients| == |old(g.clients)| && g.clients[g.at].id == client && !g.clients[g.at].free
    ensures forall k :: 0 <= k < |g.clients| && k != g.at ==> g.clients[k] == old(g.clients)[k]
    ensures Ids(g.clients) == old(Ids(g.clients)) && (g.distributionMap == old(g.distributionMap)
            || fresh(g.distributionMap))
  {
    var accepted, echoed := g.AssignTask();
    states := [g.state];
    var req := g.Receive(EchoRsp(client));
    assert g.Moderator() == Some(client);
    states := states + [g.state];
  }

  // a task from its assignment to its response, the elected client being the only moderator. It is busy as long as it
  // moderates and free afterwards, and nobody else's flag changes
  method OneTask(g: ServerGroup, client: int, ids: seq<int>, files: seq<string>, taskCount: nat)
    returns (states: seq<GroupState>)
    requires g.Valid() && g.state == StateNone && g.at == -1 && client > 0 && client in Ids(g.clients)
    requires taskCount > 0 && Startable(ids, files, taskCount)
    modifies g, g.distributionMap
    ensures states == [ModeratorSelectionPending, ModeratorSelected, GroupTaskInProgress, StateNone]
    ensures g.Valid() && g.state == StateNone && g.at == -1 && g.Live() == [] && !g.watching
    ensures |g.clients| == |old(g.clients)|
    ensures forall k :: 0 <= k < |g.clients| ==>
              g.clients[k].id == old(g.clients)[k].id
                  && g.clients[k].free == (old(g.clients)[k].free || g.clients[k].id == client)
  {
    states := Elect(g, client);
    Distribute(g, ids, files, taskCount);
    states := states + [g.state];
    Conclude(g, client);
    states := states + [g.state];
  }

  method Distribute(g: ServerGroup, ids: seq<int>, files: seq<string>, taskCount: nat)
    requires g.Valid() && g.state == ModeratorSelected && taskCount > 0 && Startable(ids, files, taskCount)
    modifies g, g.distributionMap
    ensures g.Valid() && g.state == GroupTaskInProgress && g.watching && g.Moderator() == old(g.Moderator())
    ensures g.clients == old(g.clients) && (g.distributionMap == old(g.distributionMap) || fresh(g.distributionMap))
    ensures |g.Live()| == |ids| && forall k :: 0 <= k < |ids| ==> g.Live()[k] == Entry(ids[k], [files[k]])
  {
    var req := g.Receive(ModNotifyRsp(ids, files, taskCount));
  }

  method Conclude(g: ServerGroup, client: int)
    requires g.Valid() && g.state == GroupTaskInProgress && client > 0
    requires 0 <= g.at < |g.clients| && g.clients[g.at].id == client
    modifies g, g.distributionMap
    ensures g.Valid() && g.state == StateNone && g.at == -1 && g.Live() == [] && !g.watching
    ensures |g.clients| == |old(g.clients)|
    ensures forall k :: 0 <= k < |g.clients| ==>
              g.clients[k].id == old(g.clients)[k].id && g.clients[k].free == (old(g.clients)[k].free || k == old(g.at))
  {
    assert Ids(g.clients)[g.at] == client;
    var req := g.Receive(ModTaskRsp(client));
  }

  // the client elected for one task is among the first to be echoed for the next one
  method NextTask(g: ServerGroup, client: int, ids: seq<int>, files: seq<string>, taskCount: nat)
    returns (echoed: seq<int>)
    requires g.Valid() && g.state == StateNone && g.at == -1 && client > 0 && client in Ids(g.clients)
    requires taskCount > 0 && Startable(ids, files, taskCount)
    modifies g, g.distributionMap
    ensures g.Valid() && g.state == ModeratorSelectionPending
    ensures var cs := old(g.clients);
            forall k :: 0 <= k < 3 && k < |cs| && (cs[k].free || cs[k].id == client) ==> cs[k].id in echoed
  {
    var states := OneTask(g, client, ids, files, taskCount);
    ghost var cs := g.clients;
    var accepted;
    accepted, echoed := g.AssignTask();
    forall k | 0 <= k < 3 && k < |cs| ensures cs[k].free ==> cs[k].id in echoed {
      EchoesGoToFree(cs, Cursor(-1, 2), k);
    }
  }

  // a moderator that falls silent before it reports its clients: the sixth tick starts the search again, and since it
  // is
  // still busy, it gets no echo itself
  method FallsSilent(g: ServerGroup, client: int) returns (echoed: seq<int>)
    requires g.Valid() && g.state == StateNone && g.at == -1 && client > 0 && client in Ids(g.clients)
    modifies g, g.distributionMap
    ensures g.Valid() && client !in echoed && g.beats == [Tick, Tick, Tick, Tick, Tick, Tick]
  {
    Seated(g, client);
    ghost var k, cs := g.at, g.clients;
    var reselecting;
    var n := 0;
    while n < 5
      invariant 0 <= n <= 5 && g.Valid() && g.state == ModeratorSelected && g.heartbeat == 5 - n && |g.beats| == n
      invariant forall i :: 0 <= i < n ==> g.beats[i] == Tick
      invariant g.at == k && g.clients == cs
    {
      reselecting, echoed := g.ResponseTickBeforeTask();
      n := n + 1;
    }
    ghost var c := Cursor(g.at, g.reach);
    EchoesGoToFree(cs, c, k);
    reselecting, echoed := g.ResponseTickBeforeTask();
  }

  method Seated(g: ServerGroup, client: int)
    requires g.Valid() && g.state == StateNone && g.at == -1 && client > 0 && client in Ids(g.clients)
    modifies g, g.distributionMap
    ensures g.Valid() && g.state == ModeratorSelected && g.heartbeat == 5 && g.beats == []
    ensures 0 <= g.at < |g.clients| && g.clients[g.at].id == client && !g.clients[g.at].free
    ensures g.distributionMap == old(g.distributionMap)
  {
    var accepted, echoed := g.AssignTask();
    g.ModeratorFound(client);
  }

  // while a task is in progress, an echo of the moderator counts, with a report or without
  method Hears(g: ServerGroup, reported: seq<int>) returns (req: Option<TaskRequest>)
    requires g.Valid() && g.state == GroupTaskInProgress && 0 <= g.at < |g.clients| && Reportable(g.Live(), reported)
    modifies g, g.distributionMap
    ensures g.Valid() && g.state == GroupTaskInProgress && g.clients == old(g.clients) && g.heartbeat == 5
    ensures reported != [] ==> Resent(old(g.Live()), g.Live(), reported, old(g.clients)[old(g.at)].id, req)
  {
    req := g.Fsm(EchoReq(g.clients[g.at].id, reported));
  }

  // while a moderator is sought, any client of the group that answers becomes the moderator, is busy from now on, and
  // gets the files that wait
  method Succeeds(g: ServerGroup, client: int) returns (req: Option<TaskRequest>)
    requires g.Valid() && g.state == TaskInProgressModSelPend && client > 0 && client in Ids(g.clients)
    modifies g, g.distributionMap
    ensures g.Valid() && g.state == GroupTaskInProgress && g.watching && g.heartbeat == 5
            && g.Moderator() == Some(client)
    ensures req.Some? && req.value.files == old(g.deadFiles) && g.deadFiles == []
    ensures forall k :: 0 <= k < |g.clients| == |old(g.clients)| ==>
              g.clients[k] == if k == g.at then Member(client, false) else old(g.clients)[k]
  {
    req := g.Fsm(EchoRsp(client));
  }
}
