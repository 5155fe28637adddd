// A group on the server: its states, the moderator it watches, and the map of the task it works on.
module GroupProtocol {
  import opened Basics
  import opened Selection
  import opened TaskMap
  import opened GroupRun

  function Ids(cs: seq<Member>): (r: seq<int>)
    ensures |r| == |cs| && forall i :: 0 <= i < |cs| ==> r[i] == cs[i].id
  {
    seq(|cs|, i requires 0 <= i < |cs| => cs[i].id)
  }

  // the clients of a group are distinct, and each has an address
  ghost predicate Membership(cs: seq<Member>) { Distinct(Ids(cs)) && 0 !in Ids(cs) }

  // a client that is busy gets no echo, one that is free does when it is among the next three
  lemma EchoesGoToFree(cs: seq<Member>, c: Cursor, k: nat)
    requires Membership(cs) && Proper(cs, c) && k < |cs|
    ensures !cs[k].free ==> cs[k].id !in Echoed(cs, c)
    ensures var first := if c.at == -1 then 0 else c.at;
            cs[k].free && first <= k < first + 3 ==> cs[k].id in Echoed(cs, c)
  {
    assert forall i, j :: 0 <= i < j < |cs| ==> Ids(cs)[i] != Ids(cs)[j];
    WhoIsEchoed(cs, c, k);
  }

  // this message makes a client of the group its moderator
  predicate Elects(state: GroupState, ids: seq<int>, e: Event) {
    e.EchoRsp? && Handled(state, e) && e.client > 0 && e.client in ids
  }

  method NewMap(clientIds: seq<int>, files: seq<string>) returns (m: array<Entry>)
    requires |clientIds| == |files|
    ensures fresh(m) && m.Length == |files| && m[..] == Initial(clientIds, files)
  {
    m := new Entry[|clientIds|](i requires 0 <= i < |clientIds| == |files| => Entry(clientIds[i], [files[i]]));
  }

  // every client has been given something
  ghost predicate Loaded(s: seq<Entry>) { forall i :: 0 <= i < |s| ==> |s[i].files| >= 1 }

  // the first entries of the map are in use, the others are marked; it has a place for every file of the task
  ghost predicate Booked(all: seq<Entry>, working: nat, buffer: seq<string>) {
    && working <= |all| && Tracked(all[..working]) && Loaded(all[..working])
    && (forall k :: working <= k < |all| ==> all[k].client == 0)
    && |Files(all[..working])| + |buffer| <= |all|
  }

  class ServerGroup {
    var state: GroupState
    var clients: seq<Member>
    // moderator_client as a position in clients, or NOBODY
    var at: int
    var reach: int
    var heartbeat: int
    // whether the recurring timer that watches the moderator runs
    var watching: bool
    var distributionMap: array<Entry>
    var working: nat
    // num_of_responses_expected: what the task started with
    var expected: int
    var deadFiles: seq<string>
    // the ticks and echoes since the moderator was chosen
    ghost var beats: seq<Beat>
    // whether the counter had run out before the task started
    ghost var overdue: bool

    ghost function Live(): seq<Entry>
      reads this`working, this`distributionMap, distributionMap
    {
      if working <= distributionMap.Length then distributionMap[..working] else []
    }

    ghost function Moderator(): Option<int>
      reads this`at, this`clients
    {
      if 0 <= at < |clients| then Some(clients[at].id) else None
    }

    ghost function Shot(): Snap
      reads this, distributionMap
    {
      Snap(state, Ids(clients), Moderator(), watching, Live(), deadFiles)
    }

    ghost predicate Cursored()
      reads this
    {
      && Membership(clients) && NOBODY <= at < |clients| && 0 <= heartbeat < 256 && 0 <= reach < 256
      && (state != StateNone ==> clients != [] && reach > 0)
    }

    // Booked, for proofs that only carry it along
    ghost predicate Accounted()
      reads this`deadFiles, this`working, this`distributionMap, distributionMap
    {
      && working <= distributionMap.Length
      && forall u: Gate {:trigger Opened(u)} :: Opened(u) && u == AccountGate ==>
          Booked(distributionMap[..], working, deadFiles)
    }

    // the counter stands for the beats so far, none of which has started a re-selection
    ghost predicate Watched()
      reads this`heartbeat, this`beats, this`overdue
    {
      heartbeat == CounterAfter(beats) && (!overdue ==> Quiet(beats))
    }

    ghost predicate Valid()
      reads this, distributionMap
    {
      && Cursored() && (TaskRunning(Shot()) ==> Accounted())
      && (watching ==> state == GroupTaskInProgress && deadFiles == [])
      && (watching || state == ModeratorSelected ==> Watched())
    }

    constructor (clients: seq<Member>)
      requires Membership(clients)
      ensures Valid() && state == StateNone && at == NOBODY && this.clients == clients && fresh(distributionMap)
    {
      state, this.clients, at, reach, heartbeat, watching := StateNone, clients, NOBODY, GROUP_REACHABLE, 0, false;
      distributionMap, working, deadFiles, expected := new Entry[0], 0, [], 0;
      beats, overdue := [], false;
    }

    // set_group_available
    method SetAvailable()
      modifies this`at, this`working, this`state, this`watching
      ensures at == NOBODY && working == 0 && state == StateNone && !watching
    {
      watching := false;
      at := NOBODY;
      working := 0;
      state := StateNone;
    }

    // moderator_selection
    method ModeratorSelection() returns (echoed: seq<int>, armed: bool)
      requires Cursored() && clients != [] && reach > 0
      modifies this`at, this`reach, this`working, this`state, this`watching
      ensures Cursored() && armed == (reach > 0)
      ensures var c := Next(clients, Cursor(old(at), old(reach)));
              echoed == Echoed(clients, Cursor(old(at), old(reach))) && at == c.at && reach == c.reach
      ensures if armed then state == old(state) && working == old(working) && watching == old(watching)
              else state == StateNone && working == 0 && !watching
    {
      echoed, at := SendEchoes(clients, at);
      if at == NOBODY {
        reach := (reach - 1) % 256;
        if reach == 0 {
          SetAvailable();
          return echoed, false;
        }
      }
      armed := true;
    }

    // assign_task
    method AssignTask() returns (accepted: bool, echoed: seq<int>)
      requires Valid() && (at == NOBODY ==> !watching)
      modifies this`state, this`at, this`reach, this`working, this`watching
      ensures Valid() && accepted == (old(at) == NOBODY && clients != [])
      ensures accepted ==>
                var c := Cursor(NOBODY, GROUP_REACHABLE);
                echoed == Echoed(clients, c) && Cursor(at, reach) == Next(clients, c)
                    && state == ModeratorSelectionPending
      ensures !accepted ==> Shot() == old(Shot()) && at == old(at) && reach == old(reach)
    {
      if at != NOBODY { return false, []; }
      if |clients| == 0 { return false, []; }
      state := ModeratorSelectionPending;
      reach := GROUP_REACHABLE;
      var armed;
      echoed, armed := ModeratorSelection();
      accepted := true;
    }

    // handle_timeout_real, MOD_SEL_TIMEOUT
    method SelectionTimeout() returns (echoed: seq<int>)
      requires Valid() && (state == ModeratorSelectionPending || state == TaskInProgressModSelPend)
      modifies this`state, this`at, this`reach, this`working, this`watching
      ensures Valid() && Step(old(Shot()), Input.SelectionTimeout, Shot())
      ensures echoed == Echoed(clients, Cursor(old(at), old(reach)))
              && Cursor(at, reach) == Next(clients, Cursor(old(at), old(reach)))
      ensures state == if reach == 0 then StateNone else old(state)
    {
      var armed;
      echoed, armed := ModeratorSelection();
    }

    // a task for which nobody ever answers: two passes over the free clients, and the group is given up
    method NobodyAnswers() returns (echoes: seq<int>, attempts: nat)
      requires Valid() && state == StateNone && at == NOBODY && clients != []
      modifies this`state, this`at, this`reach, this`working, this`watching
      ensures Valid() && state == StateNone && at == NOBODY && reach == 0
      ensures attempts == 2 * ((|clients| + 2) / 3) && echoes == FreeIds(clients) + FreeIds(clients)
    {
      var cs := clients;
      TwoPasses(cs);
      NextTry(cs, Cursor(NOBODY, GROUP_REACHABLE), 0, []);
      var accepted;
      accepted, echoes := AssignTask();
      attempts := 1;
      assert [] + echoes == echoes;
      while state != StateNone
        invariant Valid() && clients == cs && Tried(cs, Cursor(at, reach), attempts, echoes)
        invariant if reach == 0 then state == StateNone && at == NOBODY else state == ModeratorSelectionPending
        decreases reach, |cs| - First(Cursor(at, reach))
      {
        NextTry(cs, Cursor(at, reach), attempts, echoes);
        var more := SelectionTimeout();
        echoes, attempts := echoes + more, attempts + 1;
      }
    }

    // update_moderator_info: the client becomes the moderator and is busy from now on
    method UpdateModeratorInfo(client: int) returns (found: bool)
      requires Cursored()
      modifies this`at, this`clients
      ensures Cursored() && Ids(clients) == Ids(old(clients)) && found == (client in Ids(clients))
      ensures found ==>
                && 0 <= at < |clients| == |old(clients)| && clients[at].id == client && !clients[at].free
                && forall k :: 0 <= k < |clients| && k != at ==> clients[k] == old(clients)[k]
      ensures !found ==> at == old(at) && clients == old(clients)
    {
      var i := 0;
      while i < |clients| && clients[i].id != client
        invariant 0 <= i <= |clients| && forall k :: 0 <= k < i ==> clients[k].id != client
      {
        i := i + 1;
      }
      found := i < |clients|;
      if found {
        at := i;
        clients := clients[i := clients[i].(free := false)];
        assert Ids(clients) == Ids(old(clients)) && Ids(clients)[i] == client;
      }
    }

    // the client that has answered takes the moderation over, with a full counter
    method Seat(client: int) returns (found: bool)
      requires Cursored()
      modifies this`at, this`clients, this`heartbeat, this`beats, this`overdue
      ensures Cursored() && Ids(clients) == Ids(old(clients)) && found == (client > 0 && client in Ids(clients))
      ensures if found
              then
                && Moderator() == Some(client) && 0 <= at < |clients| == |old(clients)| && !clients[at].free
                && (forall k :: 0 <= k < |clients| && k != at ==> clients[k] == old(clients)[k])
                && heartbeat == MAX_ALLOWED_KA_MISSES && beats == [] && !overdue && Watched()
              else
                && at == old(at) && clients == old(clients) && heartbeat == old(heartbeat)
                && beats == old(beats) && overdue == old(overdue)
    {
      if client <= 0 { return false; }
      found := UpdateModeratorInfo(client);
      if found {
        heartbeat, beats, overdue := MAX_ALLOWED_KA_MISSES, [], false;
      }
    }

    // mcast_send_chk_alive_msg
    method ModeratorFound(client: int)
      requires Valid() && state == ModeratorSelectionPending
      modifies this`at, this`clients, this`reach, this`state, this`heartbeat, this`beats,
               this`overdue
      ensures Valid() && reach == GROUP_REACHABLE && MessageStep(old(Shot()), EchoRsp(client), Shot())
      ensures if client > 0 && client in Ids(clients)
              then
                && Moderator() == Some(client) && 0 <= at < |clients| == |old(clients)| && !clients[at].free
                && (forall k :: 0 <= k < |clients| && k != at ==> clients[k] == old(clients)[k])
                && heartbeat == MAX_ALLOWED_KA_MISSES && beats == [] && !overdue
              else clients == old(clients) && at == old(at) && clients == old(clients) && heartbeat == old(heartbeat)
    {
      reach := GROUP_REACHABLE;
      var found := Seat(client);
      if found {
        state := ModeratorSelected;
      }
    }

    // mcast_start_task_distribution: one file for each client that answered
    method StartTask(clientIds: seq<int>, files: seq<string>, taskCount: nat)
      requires Valid() && state == ModeratorSelected && (taskCount > 0 ==> Startable(clientIds, files, taskCount))
      modifies this`distributionMap, this`working, this`expected, this`deadFiles, this`state, this`watching
      ensures Valid() && MessageStep(old(Shot()), ModNotifyRsp(clientIds, files, taskCount), Shot())
      ensures if taskCount == 0
              then distributionMap == old(distributionMap) && working == old(working) && expected == old(expected)
              else fresh(distributionMap) && working == expected == |clientIds|
    {
      if taskCount == 0 { return; }
      FillMap(clientIds, files);
      expected := working;
      watching := true;
      state := GroupTaskInProgress;
    }

    method FillMap(clientIds: seq<int>, files: seq<string>)
      requires |clientIds| == |files| && Distinct(clientIds) && 0 !in clientIds
      modifies this`distributionMap, this`working, this`deadFiles
      ensures Accounted() && deadFiles == [] && Live() == Initial(clientIds, files) && working == |clientIds|
              && fresh(distributionMap)
    {
      InitialBooked(clientIds, files);
      deadFiles, working := [], |clientIds|;
      distributionMap := NewMap(clientIds, files);
      assert distributionMap[..] == Initial(clientIds, files);
    }

    // the search for a client's entry
    method Find(client: int) returns (j: nat)
      requires working <= distributionMap.Length && Tracked(Live()) && client in Clients(Live())
      ensures j < working && distributionMap[j].client == client && distributionMap[j].files == FilesOf(Live(), client)
    {
      ghost var s := Live();
      ghost var k := PlaceOf(Clients(s), client);
      assert forall i :: 0 <= i < working ==> Clients(s)[i] == distributionMap[i].client;
      j := 0;
      while j < working && distributionMap[j].client != client
        invariant 0 <= j <= k
      {
        j := j + 1;
      }
    }

    // the loop over the reported clients: the buffer keeps the files of the last one only
    method Collect(reported: seq<int>)
      requires working <= distributionMap.Length && Tracked(Live()) && reported != [] && Reportable(Live(), reported)
      modifies this`deadFiles
      ensures deadFiles == FilesOf(Live(), reported[|reported| - 1])
    {
      var iter := 0;
      while iter < |reported|
        invariant 0 <= iter <= |reported|
        invariant iter > 0 ==> deadFiles == FilesOf(Live(), reported[iter - 1])
      {
        var j := Find(reported[iter]);
        deadFiles := distributionMap[j].files;
        iter := iter + 1;
      }
    }

    // the files of the last reported client are in the buffer, and none of the reported ones is in use any more
    method TakeOut(reported: seq<int>)
      requires Accounted() && reported != [] && Reportable(Live(), reported)
      modifies this`deadFiles, this`working, distributionMap
      ensures Accounted() && deadFiles == FilesOf(old(Live()), reported[|reported| - 1])
              && Compacted(old(Live()), reported, Live())
    {
      assert Opened(AccountGate);
      ghost var all, n := distributionMap[..], working;
      assert Live() == all[..n];
      ReportedInUse(all[..n], reported);
      Collect(reported);
      working := MarkDeadClients(distributionMap, working, reported);
      ghost var rest := distributionMap[..];
      assert Live() == rest[..working] && rest[n..] == all[n..];
      TakenOutBooked(all, n, rest, working, reported);
    }

    // retransmit_task_req_for_client for the files in the buffer
    method Resend(moderator: int) returns (req: TaskRequest)
      requires Accounted() && moderator != 0
      modifies this`deadFiles, distributionMap
      ensures Accounted() && deadFiles == [] && Live() == Handed(old(Live()), old(deadFiles))
      ensures req.files == old(deadFiles) && req.reassigned && |req.clients| == |req.files|
      ensures forall j :: 0 <= j < |req.files| ==> req.clients[j] == Chosen(old(Live()), moderator)
    {
      assert Opened(AccountGate);
      ghost var all := distributionMap[..];
      assert Live() == all[..working];
      req := Retransmit(distributionMap, working, moderator, deadFiles);
      HandedBooked(all, working, deadFiles);
      deadFiles := [];
      assert Live() == distributionMap[..][..working];
    }

    // server_echo_req_task_in_progress_state with a report
    method Report(reported: seq<int>) returns (req: TaskRequest)
      requires Accounted() && Cursored() && at != NOBODY && reported != [] && Reportable(Live(), reported)
      modifies this`deadFiles, this`working, distributionMap
      ensures Accounted() && deadFiles == [] && Resent(old(Live()), Live(), reported, clients[at].id, Some(req))
    {
      ghost var s := Live();
      assert Ids(clients)[at] != 0;
      TakeOut(reported);
      ghost var kept := Live();
      req := Resend(clients[at].id);
      assert Compacted(s, reported, kept);
    }

    method Hear()
      modifies this`heartbeat, this`beats
      ensures heartbeat == MAX_ALLOWED_KA_MISSES && beats == old(beats) + [Echo] && (old(Watched()) ==> Watched())
    {
      EchoFiresNothing(beats);
      heartbeat, beats := MAX_ALLOWED_KA_MISSES, beats + [Echo];
    }

    // server_echo_req_task_in_progress_state
    method EchoRequest(sender: int, reported: seq<int>) returns (req: Option<TaskRequest>)
      requires Valid() && state == GroupTaskInProgress && at != NOBODY
               && (sender == clients[at].id ==> Reportable(Live(), reported))
      modifies this`heartbeat, this`beats, this`deadFiles, this`working, distributionMap
      ensures Valid() && MessageStep(old(Shot()), EchoReq(sender, reported), Shot())
      ensures sender != clients[at].id ==> req == None && heartbeat == old(heartbeat)
      ensures sender == clients[at].id ==>
              heartbeat == MAX_ALLOWED_KA_MISSES && beats == old(beats) + [Echo] && (req.Some? <==> reported != [])
      ensures sender == clients[at].id && reported != [] ==> Resent(old(Live()), Live(), reported, sender, req)
    {
      req := None;
      if sender != clients[at].id { return; }
      Hear();
      if |reported| > 0 { req := HandleReport(reported); }
    }

    method HandleReport(reported: seq<int>) returns (req: Option<TaskRequest>)
      requires Valid() && state == GroupTaskInProgress && at != NOBODY && reported != [] && Reportable(Live(), reported)
      modifies this`deadFiles, this`working, distributionMap
      ensures Valid() && req.Some? && Reported(old(Shot()), clients[at].id, reported, Shot())
      ensures Resent(old(Live()), Live(), reported, clients[at].id, req)
    {
      var r := Report(reported);
      req := Some(r);
    }

    // the moderator is given up, and another one is sought
    method ModeratorDown() returns (echoed: seq<int>)
      requires Cursored() && state == GroupTaskInProgress && Accounted() && MayGo(Shot())
      modifies this`deadFiles, this`working, this`state, this`at, this`reach, this`watching, distributionMap
      ensures Valid() && ModeratorLost(old(Shot()), Shot())
      ensures var c := Cursor(old(at), old(reach));
              echoed == Echoed(clients, c) && Cursor(at, reach) == Next(clients, c)
    {
      watching := false;
      TakeOut([clients[at].id]);
      echoed := SeekModerator();
    }

    method SeekModerator() returns (echoed: seq<int>)
      requires Cursored() && state == GroupTaskInProgress && Accounted() && !watching
      modifies this`working, this`state, this`at, this`reach, this`watching
      ensures Valid()
      ensures Searched(old(Shot()).(state := TaskInProgressModSelPend), Shot())
      ensures var c := Cursor(old(at), old(reach));
              echoed == Echoed(clients, c) && Cursor(at, reach) == Next(clients, c)
    {
      state := TaskInProgressModSelPend;
      var armed;
      echoed, armed := ModeratorSelection();
    }

    // a tick: the counter goes down, and runs out exactly on the sixth tick in a row without an echo
    method CountDown() returns (ranOut: bool)
      requires Watched() && 0 <= heartbeat < 256
      modifies this`heartbeat, this`beats
      ensures beats == old(beats) + [Tick] && ranOut == (old(heartbeat) == 0) && 0 <= heartbeat < 256
      ensures heartbeat == CounterAfter(beats) && (!ranOut ==> Watched() && heartbeat == old(heartbeat) - 1)
      ensures !overdue ==> (ranOut <==> SixSilent(beats))
    {
      TickFires(beats);
      ranOut := heartbeat == 0;
      heartbeat, beats := (heartbeat - 1) % 256, beats + [Tick];
    }

    // handle_timeout_real, MOD_RSP_TIMEOUT, while a task is in progress; a moderator that may go holds one file.
    // Re-selection starts exactly on the sixth tick in a row without an echo from the moderator.
    method ResponseTick() returns (reselecting: bool, echoed: seq<int>)
      requires Valid() && watching && (heartbeat == 0 ==> MayGo(Shot()))
      modifies this`heartbeat, this`beats, this`deadFiles, this`working, this`state, this`at, this`reach,
               this`watching, distributionMap
      ensures Valid() && beats == old(beats) + [Tick] && reselecting == (old(heartbeat) == 0)
      ensures !overdue ==> (reselecting <==> SixSilent(beats))
      ensures Step(old(Shot()), ResponseTimeout, Shot())
      ensures !reselecting ==> heartbeat == old(heartbeat) - 1 && Shot() == old(Shot())
      ensures reselecting ==>
                var c := Cursor(old(at), old(reach));
                    echoed == Echoed(clients, c) && Cursor(at, reach) == Next(clients, c)
                    && ModeratorLost(old(Shot()), Shot())
    {
      echoed := [];
      reselecting := CountDown();
      if !reselecting { return; }
      echoed := ModeratorDown();
    }

    // the same timeout while the moderator has not yet reported its clients
    method ResponseTickBeforeTask() returns (reselecting: bool, echoed: seq<int>)
      requires Valid() && state == ModeratorSelected
      modifies this`heartbeat, this`beats, this`overdue, this`working, this`state, this`at, this`reach, this`watching
      ensures Valid() && beats == old(beats) + [Tick] && reselecting == (old(heartbeat) == 0)
      ensures (!old(overdue) ==> (reselecting <==> SixSilent(beats))) && overdue == (old(overdue) || reselecting)
      ensures !reselecting ==> heartbeat == old(heartbeat) - 1 && Shot() == old(Shot()) && echoed == []
      ensures reselecting ==>
                && (var c := Cursor(old(at), old(reach));
                    echoed == Echoed(clients, c) && Cursor(at, reach) == Next(clients, c))
                && state == (if reach == 0 then StateNone else ModeratorSelected) && Searched(old(Shot()), Shot())
    {
      echoed := [];
      reselecting := CountDown();
      if !reselecting { return; }
      overdue := true;
      var armed;
      echoed, armed := ModeratorSelection();
    }

    // the client ids of the update that goes out to the group
    method WorkingClients() returns (ids: seq<int>)
      requires Accounted()
      ensures ids == Clients(Live())
    {
      ids := [];
      var index := 0;
      while index < working
        invariant 0 <= index <= working && ids == Clients(Live())[..index]
      {
        assert Clients(Live())[index] == distributionMap[index].client;
        ids := ids + [distributionMap[index].client];
        index := index + 1;
      }
    }

    // send_new_moderator_info
    method NewModerator(client: int) returns (req: Option<TaskRequest>)
      requires Valid() && state == TaskInProgressModSelPend
      modifies this`state, this`at, this`clients, this`heartbeat, this`beats, this`overdue, this`watching,
               this`deadFiles, distributionMap
      ensures Valid() && TaskAnswered(old(Shot()), client, Shot())
      ensures req.Some? <==> client > 0 && client in Ids(clients)
      ensures if req.Some?
              then
                && Moderator() == Some(client) && 0 <= at < |clients| == |old(clients)| && !clients[at].free
                && (forall k :: 0 <= k < |clients| && k != at ==> clients[k] == old(clients)[k])
                && heartbeat == MAX_ALLOWED_KA_MISSES && beats == [] && !overdue
              else clients == old(clients) && at == old(at) && heartbeat == old(heartbeat)
      ensures req.Some? ==>
                && req.value.files == old(deadFiles) && |req.value.clients| == |req.value.files|
                && forall j :: 0 <= j < |req.value.files| ==> req.value.clients[j] == Chosen(old(Live()), client)
    {
      req := None;
      state := GroupTaskInProgress;
      var found := Seat(client);
      if !found { return; }
      var r := Resend(client);
      watching := true;
      req := Some(r);
    }

    // mcast_handle_task_response
    method TaskDone()
      requires Valid()
      modifies this`at, this`working, this`state, this`watching
      ensures Valid() && Shot() == Released(old(Shot()))
    {
      SetAvailable();
    }

    // what a message has to satisfy in the state that handles it
    ghost predicate Sound(e: Event)
      requires Valid()
      reads this, distributionMap
    {
      Handled(state, e) ==>
        match e
        case EchoRsp(_) => true
        case ModNotifyRsp(ids, files, n) => n > 0 ==> Startable(ids, files, n)
        case EchoReq(sender, reported) => at != NOBODY && (sender == clients[at].id ==> Reportable(Live(), reported))
        case ModTaskRsp(_) => true
    }

    // an answer to an echo, while a moderator is sought
    method Answered(client: int) returns (req: Option<TaskRequest>)
      requires Valid() && (state == ModeratorSelectionPending || state == TaskInProgressModSelPend)
      modifies this`state, this`at, this`clients, this`reach, this`heartbeat, this`beats, this`overdue, this`watching,
               this`deadFiles, distributionMap
      ensures Valid() && FsmStep(old(Shot()), EchoRsp(client), Shot())
      ensures if client > 0 && client in Ids(clients)
              then
                && Moderator() == Some(client) && 0 <= at < |clients| == |old(clients)| && !clients[at].free
                && (forall k :: 0 <= k < |clients| && k != at ==> clients[k] == old(clients)[k])
                && heartbeat == MAX_ALLOWED_KA_MISSES
              else clients == old(clients) && heartbeat == old(heartbeat)
      ensures old(state) == TaskInProgressModSelPend && client > 0 && client in Ids(clients) ==>
                req.Some? && req.value.files == old(deadFiles)
      ensures reach == if old(state) == ModeratorSelectionPending then GROUP_REACHABLE else old(reach)
    {
      req := None;
      if state == ModeratorSelectionPending {
        ModeratorFound(client);
      } else {
        req := NewModerator(client);
      }
    }

    // an echo or a task response, while a task is in progress
    method DuringTask(e: Event) returns (req: Option<TaskRequest>)
      requires Valid() && Sound(e) && state == GroupTaskInProgress && (e.EchoReq? || e.ModTaskRsp?)
      modifies this`heartbeat, this`beats, this`deadFiles, this`working, this`at, this`state, this`watching,
               distributionMap
      ensures Valid() && FsmStep(old(Shot()), e, Shot())
      ensures var heard := e.EchoReq? && old(Moderator()) == Some(e.sender);
              && heartbeat == (if heard then MAX_ALLOWED_KA_MISSES else old(heartbeat))
              && (heard && e.reported != [] ==> Resent(old(Live()), Live(), e.reported, e.sender, req))
    {
      req := None;
      if e.EchoReq? {
        req := EchoRequest(e.sender, e.reported);
      } else {
        TaskDone();
      }
    }

    // server_main_fsm
    method Fsm(e: Event) returns (req: Option<TaskRequest>)
      requires Valid() && Sound(e)
      modifies this, distributionMap
      ensures Valid() && (distributionMap == old(distributionMap) || fresh(distributionMap))
      ensures FsmStep(old(Shot()), e, Shot())
      ensures !Handled(old(state), e) ==>
                && at == old(at) && clients == old(clients) && reach == old(reach) && heartbeat == old(heartbeat)
                && expected == old(expected) && req == None
      ensures !e.EchoRsp? ==> clients == old(clients) && reach == old(reach)
      ensures !e.ModNotifyRsp? ==> expected == old(expected)
      ensures Handled(old(state), e) && e.EchoRsp? ==>
                && (if e.client > 0 && e.client in Ids(clients)
                    then
                      && Moderator() == Some(e.client) && 0 <= at < |clients| == |old(clients)| && !clients[at].free
                      && (forall k :: 0 <= k < |clients| && k != at ==> clients[k] == old(clients)[k])
                      && heartbeat == MAX_ALLOWED_KA_MISSES
                    else clients == old(clients) && heartbeat == old(heartbeat))
                && reach == (if old(state) == ModeratorSelectionPending then GROUP_REACHABLE else old(reach))
                && (old(state) == TaskInProgressModSelPend && e.client > 0 && e.client in Ids(clients) ==>
                      req.Some? && req.value.files == old(deadFiles))
      ensures Handled(old(state), e) && !e.EchoRsp? ==>
                var heard := e.EchoReq? && old(Moderator()) == Some(e.sender);
                && heartbeat == (if heard then MAX_ALLOWED_KA_MISSES else old(heartbeat))
                && (heard && e.reported != [] ==> Resent(old(Live()), Live(), e.reported, e.sender, req))
    {
      req := None;
      match state {
        case ModeratorSelectionPending =>
          if e.EchoRsp? { req := Answered(e.client); }
        case ModeratorSelected =>
          if e.ModNotifyRsp? { StartTask(e.clientIds, e.files, e.taskCount); }
        case GroupTaskInProgress =>
          if !e.EchoRsp? && !e.ModNotifyRsp? { req := DuringTask(e); }
        case TaskInProgressModSelPend =>
          if e.EchoRsp? { req := Answered(e.client); }
        case StateNone =>
      }
    }

    // a client that was busy is free again
    method Unseat(sender: int)
      requires Valid() && sender in Ids(clients)
      modifies this`at, this`clients
      ensures Valid() && Shot() == old(Shot()).(moderator := None)
      ensures at == NOBODY && |clients| == |old(clients)|
      ensures forall k :: 0 <= k < |clients| ==>
                clients[k].id == old(clients)[k].id
                    && clients[k].free == (old(clients)[k].free || (if old(at) != NOBODY then k == old(at)
                                                                    else clients[k].id == sender))
    {
      var i := at;
      if at == NOBODY {
        i := 0;
        while clients[i].id != sender
          invariant 0 <= i <= PlaceOf(Ids(clients), sender)
          decreases |clients| - i
        {
          assert Ids(clients)[i] == clients[i].id;
          i := i + 1;
        }
        assert Ids(clients)[i] == sender;
      }
      clients := clients[i := clients[i].(free := true)];
      assert Ids(clients) == old(Ids(clients));
      at := NOBODY;
    }

    // a task response from the group frees its moderator, or the sender when there is none
    ghost predicate Frees(e: Event, k: int)
      reads this`clients, this`at
    {
      && e.ModTaskRsp? && e.sender > 0 && e.sender in Ids(clients) && 0 <= k < |clients|
      && if at != NOBODY then k == at else clients[k].id == e.sender
    }

    // the handlers of the messages, in front of the state machine: handle_moderator_task_response unseats the
    // moderator in every state
    method Receive(e: Event) returns (req: Option<TaskRequest>)
      requires Valid() && Sound(e)
      modifies this, distributionMap
      ensures Valid() && (distributionMap == old(distributionMap) || fresh(distributionMap))
      ensures MessageStep(old(Shot()), e, Shot())
      ensures |clients| == |old(clients)| && forall k :: 0 <= k < |clients| ==>
                clients[k].id == old(clients)[k].id
                    && clients[k].free == if Elects(old(state), Ids(old(clients)), e)
                                          then old(clients)[k].free && clients[k].id != e.client
                                          else old(clients)[k].free || old(Frees(e, k))
    {
      if e.ModTaskRsp? {
        var member := IsMember(e.sender);
        if e.sender <= 0 || !member { return None; }
        Unseat(e.sender);
      }
      req := Fsm(e);
    }

    method IsMember(client: int) returns (found: bool)
      ensures found <==> client in Ids(clients)
    {
      var i := 0;
      while i < |clients| && clients[i].id != client
        invariant 0 <= i <= |clients| && forall k :: 0 <= k < i ==> clients[k].id != client
      {
        i := i + 1;
      }
      found := i < |clients|;
      if found { assert Ids(clients)[i] == client; }
    }

    // what is asked of an input: a timer fires only when it runs
    ghost predicate Accepts(i: Input)
      requires Valid()
      reads this, distributionMap
    {
      match i
      case Message(e) => Sound(e)
      case ResponseTimeout => state == ModeratorSelected || (watching && (heartbeat == 0 ==> MayGo(Shot())))
      case SelectionTimeout => state == ModeratorSelectionPending || state == TaskInProgressModSelPend
    }

    lemma ShotIsSteady()
      requires Valid() && TaskRunning(Shot())
      ensures Steady(Shot())
    {
      assert Opened(AccountGate);
      assert Live() == distributionMap[..][..working];
    }

    // whatever comes in, the group takes a step of its protocol
    method Advance(i: Input)
      requires Valid() && Accepts(i)
      modifies this, distributionMap
      ensures Valid() && (distributionMap == old(distributionMap) || fresh(distributionMap))
              && Step(old(Shot()), i, Shot()) && (!i.Message? ==> clients == old(clients))
      ensures TaskRunning(old(Shot())) && TaskRunning(Shot()) ==>
                FilesHeld(Shot()) <= old(FilesHeld(Shot()))
                    && (FilesHeld(Shot()) == old(FilesHeld(Shot())) <==> Fitting(old(Shot()), i))
    {
      ghost var a := Shot();
      if TaskRunning(a) { ShotIsSteady(); }
      match i {
        case Message(e) => var req := Receive(e);
        case ResponseTimeout =>
          if state == ModeratorSelected {
            var reselecting, echoed := ResponseTickBeforeTask();
          } else {
            var reselecting, echoed := ResponseTick();
          }
        case SelectionTimeout => var echoed := SelectionTimeout();
      }
      if TaskRunning(a) && TaskRunning(Shot()) { StepConserves(a, i, Shot()); }
    }
  }

  ghost predicate SixSilent(es: seq<Beat>) {
    |es| >= 6 && forall k :: |es| - 6 <= k < |es| ==> es[k] == Tick
  }

  // no beat so far has started a re-selection
  ghost predicate Unfired(es: seq<Beat>) { forall j: nat :: j < |es| ==> !Fires(es, j) }

  // Unfired, for proofs that only carry it along
  ghost predicate Quiet(es: seq<Beat>) {
    forall u: Gate {:trigger Opened(u)} :: Opened(u) && u == BeatGate ==> Unfired(es)
  }

  lemma EchoFiresNothing(es: seq<Beat>)
    ensures CounterAfter(es + [Echo]) == MAX_ALLOWED_KA_MISSES && (Quiet(es) ==> Quiet(es + [Echo]))
  {
    assert Opened(BeatGate);
    var t := es + [Echo];
    forall j: nat | Unfired(es) && j < |t| ensures !Fires(t, j) {
      if j < |es| { assert t[..j] == es[..j] && t[j] == es[j] && !Fires(es, j); }
    }
  }

  lemma TickFires(es: seq<Beat>)
    ensures var t := es + [Tick];
            CounterAfter(t) == (CounterAfter(es) - 1) % 256 && (Quiet(es) ==>
                (CounterAfter(es) == 0 <==> SixSilent(t)) && (CounterAfter(es) != 0 ==> Quiet(t)))
  {
    assert Opened(BeatGate);
    var t := es + [Tick];
    assert t[..|es|] == es;
    if Unfired(es) {
      forall j: nat | j < |es| ensures !Fires(t, j) {
        assert t[..j] == es[..j] && t[j] == es[j] && !Fires(es, j);
      }
      SixthSilentTickFires(t, |es|);
    }
  }

  lemma InitialBooked(clientIds: seq<int>, files: seq<string>)
    requires |clientIds| == |files| && Distinct(clientIds) && 0 !in clientIds
    ensures Booked(Initial(clientIds, files), |clientIds|, [])
  {
    var s := Initial(clientIds, files);
    InitialIsTracked(clientIds, files);
    assert s[..|clientIds|] == s;
  }

  lemma ReportedInUse(s: seq<Entry>, reported: seq<int>)
    requires Tracked(s) && Reportable(s, reported)
    ensures 0 !in reported && |reported| <= |s|
  {
    SurvivorCount(s, reported);
  }

  lemma FilesShrink(a: multiset<string>, b: multiset<string>)
    requires a <= b
    ensures |a| <= |b|
  {
    assert b == a + (b - a);
  }

  lemma LoadedStays(s: seq<Entry>, dead: seq<int>, kept: seq<Entry>)
    requires Loaded(s) && Compacted(s, dead, kept)
    ensures Loaded(kept)
  {
    forall i | 0 <= i < |kept| ensures |kept[i].files| >= 1 {
      assert kept[i] in multiset(kept);
      SurvivorIsEntry(s, dead, kept[i]);
    }
  }

  lemma {:induction false} SurvivorIsEntry(s: seq<Entry>, dead: seq<int>, e: Entry)
    requires e in Survivors(s, dead)
    ensures e in s
  {
    if s[0].client in dead || e != s[0] { SurvivorIsEntry(s[1..], dead, e); }
  }

  // the files of the reported clients but the last are gone, so there is still a place for all
  lemma TakenOutBooked(all: seq<Entry>, n: nat, rest: seq<Entry>, left: nat, reported: seq<int>)
    requires Booked(all, n, []) && reported != [] && Reportable(all[..n], reported)
    requires left <= n && |rest| == |all| && Compacted(all[..n], reported, rest[..left])
    requires rest[n..] == all[n..] && forall k :: left <= k < n ==> rest[k].client == 0
    ensures Booked(rest, left, FilesOf(all[..n], reported[|reported| - 1]))
  {
    forall k | n <= k < |rest| ensures rest[k].client == 0 { assert rest[n..][k - n] == all[n..][k - n]; }
    LoadedStays(all[..n], reported, rest[..left]);
    FilesTakenOut(all[..n], reported, rest[..left]);
  }

  lemma FilesTakenOut(s: seq<Entry>, reported: seq<int>, kept: seq<Entry>)
    requires Tracked(s) && reported != [] && Reportable(s, reported) && Compacted(s, reported, kept)
    ensures |Files(kept)| + |FilesOf(s, reported[|reported| - 1])| <= |Files(s)|
  {
    var m := |reported| - 1;
    var others, last := reported[..m], reported[m];
    assert reported == others + [last];
    FilesOfPermutation(kept, Survivors(s, reported));
    FilesDivide(s, reported);
    DeadFilesSplit(s, others, last);
    assert |Files(s)| == |Files(kept)| + |DeadFiles(s, others) + multiset(FilesOf(s, last))|;
  }

  lemma HandedBooked(all: seq<Entry>, n: nat, buffer: seq<string>)
    requires Booked(all, n, buffer)
    ensures Booked(Handed(all, buffer), n, [])
  {
    var s := all[..n];
    assert Handed(all, buffer)[..n] == Handed(s, buffer);
    HandedFiles(s, buffer);
    HandedTracked(s, buffer);
    if |buffer| > n { PrefixFiles(buffer, n); }
    FilesShrink(Files(Handed(s, buffer)), Files(s) + multiset(buffer));
  }
}
