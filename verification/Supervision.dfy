// The moderator and the server together: what the moderator finds out about its clients, and what the
// server does with it.
module Supervision {
  import opened Basics
  import opened TaskMap
  import opened GroupRun
  import opened GroupProtocol
  import opened ModeratorLists
  import opened Moderation
  import opened SupervisionRun

  // every client the moderator waits for works on the task
  ghost predicate Follows(pending: seq<ModNode>, live: seq<Entry>) {
    forall c :: Has(pending, c) ==> c in Clients(live)
  }

  // the invariants of the two, for proofs that only carry them along
  ghost predicate Ready(m: Moderator)
    reads m, m.Held(), m.lists, m.lists.pend, m.lists.done, m.lists.Elements()
  {
    m.active && Sane(m)
  }

  ghost predicate Sane(m: Moderator)
    reads m, m.Held(), m.lists, m.lists.pend, m.lists.done, m.lists.Elements()
  {
    forall u: Gate {:trigger Opened(u)} :: Opened(u) && u == ModeratorGate ==> m.Valid()
  }

  ghost predicate Watching(g: ServerGroup, moderator: int)
    reads g, g.distributionMap
  {
    && g.watching && g.Moderator() == Some(moderator)
    && forall u: Gate {:trigger Opened(u)} :: Opened(u) && u == GroupGate ==> g.Valid()
  }

  lemma StillFollows(self: int, before: seq<ModNode>, after: seq<ModNode>, dead: seq<int>, s: seq<Entry>,
      t: seq<Entry>, req: Option<TaskRequest>)
    requires Follows(before, s) && Reassigned(s, t, dead, self, req)
    requires Gone(before, after, dead)
    ensures Follows(after, t) && (dead != [] ==> Reaches(req.value, t))
  {
    if dead != [] {
      assert dead[0] in dead;
      ClientsStay(s, t, dead[0], self, req);
    }
  }

  // the request goes to clients in the map, or to client zero when nobody is left
  ghost predicate Reaches(req: TaskRequest, live: seq<Entry>) {
    forall c :: c in req.clients ==> if live == [] then c == 0 else c in Clients(live)
  }

  lemma ClientsStay(s: seq<Entry>, t: seq<Entry>, dead: int, self: int, req: Option<TaskRequest>)
    requires Tracked(s) && dead in Clients(s) && Resent(s, t, [dead], self, req)
    ensures forall c :: c in Clients(s) && c != dead ==> c in Clients(t)
    ensures Reaches(req.value, t)
  {
    OneDeathConserves(s, t, dead, self, req);
    forall c | c in Clients(s) && c != dead ensures c in Clients(t) { ResentKeepsClient(s, t, dead, c, self, req); }
    if |s| == 1 { NobodyLeft(s, t, dead, self, req); }
  }

  lemma NobodyLeft(s: seq<Entry>, t: seq<Entry>, dead: int, self: int, req: Option<TaskRequest>)
    requires Tracked(s) && dead in Clients(s) && |s| == 1 && Resent(s, t, [dead], self, req)
    ensures t == []
  {
    var kept :| Compacted(s, [dead], kept) && t == Handed(kept, FilesOf(s, dead));
    KeptCount(s, dead, kept);
  }

  // one pass of the moderator, and its report to the server: a client that has been silent for too long leaves
  // the pending list and the map, and no file is lost exactly when it held fewer files than clients work on the
  // task. More than one client is never reported.
  method Supervise(m: Moderator, g: ServerGroup) returns (dead: seq<int>, req: Option<TaskRequest>)
    requires Ready(m) && Watching(g, m.self) && Follows(m.lists.pending, g.Live())
    modifies m`since, m`removed, m.lists, m.lists.pend, m.lists.done, m.lists.Elements()
    modifies g`heartbeat, g`beats, g`deadFiles, g`working, g.distributionMap
    ensures Ready(m) && Watching(g, m.self) && Follows(m.lists.pending, g.Live())
    ensures |dead| <= 1 && g.heartbeat == MAX_ALLOWED_KA_MISSES && m.lists.Elements() <= old(m.lists.Elements())
    ensures forall c :: c in dead ==> Silent(old(m.since), c) && c != m.self && !Has(m.lists.pending, c)
    ensures Reassigned(old(g.Live()), g.Live(), dead, m.self, req)
    ensures dead != [] ==> Reaches(req.value, g.Live())
    ensures Gone(old(m.lists.pending), m.lists.pending, dead)
  {
    ghost var before, s := m.lists.pending, g.Live();
    dead := Pass(m, g);
    req := Inform(m, g, dead);
    StillFollows(m.self, before, m.lists.pending, dead, s, g.Live(), req);
  }

  // these clients and no others have left the pending list
  ghost predicate Gone(before: seq<ModNode>, after: seq<ModNode>, dead: seq<int>) {
    (forall c :: Has(after, c) <==> Has(before, c) && c !in dead) && forall c :: c in dead ==> Has(before, c)
  }

  ghost predicate Silent(since: map<int, nat>, c: int) { c in since && since[c] >= MAX_ALLOWED_KA_MISSES }

  // what the server made of the report of one client at most
  ghost predicate Reassigned(s: seq<Entry>, t: seq<Entry>, dead: seq<int>, moderator: int, req: Option<TaskRequest>) {
    if dead == [] then req == None && t == s
    else
      && Tracked(s) && dead == [dead[0]] && dead[0] in Clients(s) && Resent(s, t, dead, moderator, req)
      && req.value.files == FilesOf(s, dead[0]) && (Files(t) == Files(s) <==> |FilesOf(s, dead[0])| < |s|)
  }

  method Pass(m: Moderator, g: ServerGroup) returns (dead: seq<int>)
    requires Ready(m) && Watching(g, m.self)
    modifies m`since, m`removed, m.lists, m.lists.pend, m.lists.done, m.lists.Elements()
    ensures Ready(m) && Watching(g, m.self) && g.Live() == old(g.Live()) && |dead| <= 1
    ensures m.lists.Elements() <= old(m.lists.Elements())
    ensures Gone(old(m.lists.pending), m.lists.pending, dead)
    ensures forall c :: c in dead ==> Silent(old(m.since), c) && c != m.self
  {
    assert Opened(ModeratorGate);
    dead := m.Timeout();
    assert Watching(g, m.self);
  }

  method Inform(m: Moderator, g: ServerGroup, dead: seq<int>) returns (req: Option<TaskRequest>)
    requires Ready(m) && Watching(g, m.self) && |dead| <= 1 && forall c :: c in dead ==> c in Clients(g.Live())
    modifies g`heartbeat, g`beats, g`deadFiles, g`working, g.distributionMap
    ensures Ready(m) && m.lists.pending == old(m.lists.pending) && Watching(g, m.self)
    ensures m.lists.Elements() == old(m.lists.Elements())
    ensures g.heartbeat == MAX_ALLOWED_KA_MISSES && Reassigned(old(g.Live()), g.Live(), dead, m.self, req)
  {
    Disjoint(m, g);
    req := Report(g, m.self, dead, Footprint(m));
    StillReady(m);
  }

  lemma Disjoint(m: Moderator, g: ServerGroup)
    ensures g !in Footprint(m) && g.distributionMap !in Footprint(m)
  {
  }

  twostate lemma StillReady(m: Moderator)
    requires old(Ready(m)) && unchanged(old(Footprint(m)))
    ensures Ready(m) && m.lists.pending == old(m.lists.pending)
    ensures m.lists.Elements() == old(m.lists.Elements())
  {
  }

  ghost function Footprint(m: Moderator): set<object>
    reads m, m.lists.pend, m.lists.done
  {
    {m, m.lists, m.lists.pend, m.lists.done} + m.Held() + m.lists.Elements()
  }

  // nothing else changes
  method Report(g: ServerGroup, self: int, dead: seq<int>, ghost others: set<object>) returns (req: Option<TaskRequest>)
    requires g !in others && g.distributionMap !in others
    requires Watching(g, self) && |dead| <= 1 && forall c :: c in dead ==> c in Clients(g.Live())
    modifies g`heartbeat, g`beats, g`deadFiles, g`working, g.distributionMap
    ensures Watching(g, self) && g.heartbeat == MAX_ALLOWED_KA_MISSES
            && Reassigned(old(g.Live()), g.Live(), dead, self, req)
    ensures unchanged(others)
  {
    ghost var s := g.Live();
    WatchedIsTracked(g, self);
    ReportOfOne(s, dead);
    req := Echoed(g, self, dead, others);
    if dead != [] { OneReassigned(s, g.Live(), dead, self, req); }
  }

  lemma WatchedIsTracked(g: ServerGroup, self: int)
    requires Watching(g, self)
    ensures Tracked(g.Live())
  {
    assert Opened(GroupGate);
    g.ShotIsSteady();
  }

  method Echoed(g: ServerGroup, self: int, dead: seq<int>, ghost others: set<object>) returns (req: Option<TaskRequest>)
    requires g !in others && g.distributionMap !in others
    requires Watching(g, self) && Reportable(g.Live(), dead)
    modifies g`heartbeat, g`beats, g`deadFiles, g`working, g.distributionMap
    ensures Watching(g, self) && g.heartbeat == MAX_ALLOWED_KA_MISSES && unchanged(others)
    ensures if dead == [] then req == None && g.Live() == old(g.Live())
            else Resent(old(g.Live()), g.Live(), dead, self, req)
  {
    assert Opened(GroupGate);
    req := g.EchoRequest(self, dead);
  }

  lemma ReportOfOne(s: seq<Entry>, dead: seq<int>)
    requires |dead| <= 1 && forall c :: c in dead ==> c in Clients(s)
    ensures Reportable(s, dead)
  {
    if dead != [] { assert dead[0] in dead; }
  }

  lemma OneReassigned(s: seq<Entry>, t: seq<Entry>, dead: seq<int>, self: int, req: Option<TaskRequest>)
    requires Tracked(s) && |dead| == 1 && Reportable(s, dead) && Resent(s, t, dead, self, req)
    ensures Reassigned(s, t, dead, self, req)
  {
    assert dead == [dead[0]];
    OneDeathConserves(s, t, dead[0], self, req);
  }

  // the request for the resent files reaches the moderator
  method Redistribute(m: Moderator, ghost live: seq<Entry>, req: TaskRequest)
    requires Ready(m) && Follows(m.lists.pending, live)
    requires live != [] && Reaches(req, live)
    requires forall c :: Owes(m.lists.pending, c) + multiset(req.clients)[c] < BYTE
    modifies m`tasks, m`since, m`expected, m`state, m`activeClients, m.lists, m.lists.pend, m.lists.done,
             m.lists.Elements()
    ensures Ready(m) && Follows(m.lists.pending, live) && m.tasks == old(m.tasks) + |req.clients|
    ensures m.expected == old(m.expected) && fresh(m.lists.Elements() - old(m.lists.Elements()))
  {
    Arrived(m, req.clients);
  }

  // the request that starts the task reaches the moderator
  method Begin(m: Moderator, g: ServerGroup, clientIds: seq<int>, files: seq<string>, taskCount: nat)
    requires Ready(m) && m.rsp == null && m.lists.pending == []
    requires g.Valid() && g.state == ModeratorSelected && g.Moderator() == Some(m.self)
    requires taskCount > 0 && Startable(clientIds, files, taskCount) && 1 <= |clientIds| < BYTE
    modifies m`tasks, m`since, m`expected, m`state, m`activeClients, m.lists, m.lists.pend, m.lists.done,
             m.lists.Elements()
    modifies g`distributionMap, g`working, g`expected, g`deadFiles, g`state, g`watching
    ensures Ready(m) && Watching(g, m.self) && fresh(g.distributionMap)
            && fresh(m.lists.Elements() - old(m.lists.Elements()))
    ensures Clients(g.Live()) == clientIds && Files(g.Live()) == multiset(files)
    ensures g.expected == m.expected == |clientIds|
    ensures forall c :: Has(m.lists.pending, c) <==> c in clientIds
    ensures var a := SceneOf(m.lists.pending, g.Live(), []); InTouch(a) && a.waiting == a.working && 0 !in a.working
  {
    InitialIsTracked(clientIds, files);
    Start(m, g, clientIds, files, taskCount);
    Enlist(m, g, clientIds);
    assert Waiting(m.lists.pending) == Everyone(clientIds);
  }

  method Start(m: Moderator, g: ServerGroup, clientIds: seq<int>, files: seq<string>, taskCount: nat)
    requires Ready(m) && taskCount > 0 && Startable(clientIds, files, taskCount)
    requires g.Valid() && g.state == ModeratorSelected && g.Moderator() == Some(m.self)
    modifies g`distributionMap, g`working, g`expected, g`deadFiles, g`state, g`watching
    ensures Ready(m) && Watching(g, m.self) && fresh(g.distributionMap) && g.Live() == Initial(clientIds, files)
            && g.expected == |clientIds|
  {
    g.StartTask(clientIds, files, taskCount);
    assert Ready(m);
  }

  method Enlist(m: Moderator, g: ServerGroup, clientIds: seq<int>)
    requires Ready(m) && m.rsp == null && m.lists.pending == [] && Watching(g, m.self)
    requires Distinct(clientIds) && 1 <= |clientIds| < BYTE
    modifies m`tasks, m`since, m`expected, m`state, m`activeClients, m.lists, m.lists.pend, m.lists.done,
             m.lists.Elements()
    ensures Ready(m) && Watching(g, m.self) && g.Live() == old(g.Live())
            && fresh(m.lists.Elements() - old(m.lists.Elements()))
    ensures m.expected == |clientIds|
    ensures forall c :: Has(m.lists.pending, c) <==> c in clientIds
  {
    assert Opened(ModeratorGate);
    OnceEach(clientIds);
    m.PerformTask(clientIds, false);
    assert Watching(g, m.self);
  }

  // an answer reaches the moderator, which may be the last one it waits for
  method ClientAnswers(m: Moderator, ghost live: seq<Entry>, peer: int, kind: Kind, path: string)
    requires Ready(m) && Follows(m.lists.pending, live)
    modifies m`rsp, m`duplicates, m`sent, m`active, m.Held(), m.lists, m.lists.pend, m.lists.done, m.lists.Elements()
    ensures m.Valid() && Follows(m.lists.pending, live) && (!m.active ==> |m.sent| == 1)
    ensures fresh(m.Held() - old(m.Held())) && m.lists.Elements() == old(m.lists.Elements())
  {
    Replied(m, peer, kind, path);
    assert Opened(ModeratorGate);
  }

  // a client of the group takes over: the update makes it wait for every client in the map, and the request for
  // the files that were waiting goes out
  method TakeOver(g: ServerGroup, client: int) returns (m: Moderator, req: TaskRequest)
    requires g.Valid() && g.state == TaskInProgressModSelPend && client > 0 && client in Ids(g.clients)
    requires 1 <= g.expected < BYTE
    modifies g`state, g`at, g`clients, g`heartbeat, g`beats, g`overdue, g`watching, g`deadFiles, g.distributionMap
    ensures Ready(m) && Watching(g, client) && m.self == client && m.expected == g.expected == old(g.expected)
            && m.rsp == null
    ensures Clients(g.Live()) == old(Clients(g.Live())) && m.tasks == |g.Live()| && m.removed == 0 && m.duplicates == 0
    ensures forall c :: Has(m.lists.pending, c) <==> c in Clients(g.Live())
    ensures Reaches(req, g.Live()) && req.files == old(g.deadFiles) && |req.clients| == |req.files|
    ensures var to := Everyone(req.clients);
            Unfolds(Scene({}, old(Everyone(Clients(g.Live()))), []), Succession(to),
                    SceneOf(m.lists.pending, g.Live(), [to]))
    ensures fresh(m) && fresh(m.lists) && fresh(m.lists.pend) && fresh(m.lists.done) && fresh(m.lists.Elements())
  {
    var ids := g.WorkingClients();
    req := Reseat(g, client);
    m := Successor(g, client, ids, g.expected);
    ReachesAddresses(req, g.Live());
    assert Waiting(m.lists.pending) == Everyone(Clients(g.Live()));
  }

  method Successor(g: ServerGroup, client: int, ids: seq<int>, expected: int) returns (m: Moderator)
    requires Watching(g, client) && Distinct(ids) && 1 <= expected < BYTE
    ensures Watching(g, client) && g.Live() == old(g.Live())
    ensures Ready(m) && m.self == client && m.expected == expected && m.rsp == null
    ensures m.tasks == |ids| && m.removed == 0 && m.duplicates == 0
    ensures forall c :: Has(m.lists.pending, c) <==> c in ids
    ensures fresh(m) && fresh(m.lists) && fresh(m.lists.pend) && fresh(m.lists.done) && fresh(m.lists.Elements())
  {
    m := new Moderator.Adopt(client, ids, expected);
    assert Watching(g, client);
  }

  method Reseat(g: ServerGroup, client: int) returns (req: TaskRequest)
    requires g.Valid() && g.state == TaskInProgressModSelPend && client > 0 && client in Ids(g.clients)
    modifies g`state, g`at, g`clients, g`heartbeat, g`beats, g`overdue, g`watching, g`deadFiles, g.distributionMap
    ensures Watching(g, client) && Clients(g.Live()) == old(Clients(g.Live())) && Distinct(Clients(g.Live()))
    ensures Reaches(req, g.Live()) && req.files == old(g.deadFiles) && |req.clients| == |req.files|
  {
    ghost var s, files := g.Live(), g.deadFiles;
    g.ShotIsSteady();
    var r := g.NewModerator(client);
    req := r.value;
    HandedTracked(s, files);
    ChosenWorks(s, client, req.clients);
  }

  lemma ChosenWorks(s: seq<Entry>, client: int, clients: seq<int>)
    requires forall j :: 0 <= j < |clients| ==> clients[j] == Chosen(s, client)
    ensures forall c :: c in clients ==> if s == [] then c == 0 else c in Clients(s)
  {
    if s != [] { assert Clients(s)[0] == s[0].client && (|s| > 1 ==> Clients(s)[1] == s[1].client); }
  }

  lemma {:induction false} OnceEach(s: seq<int>)
    requires Distinct(s)
    ensures forall c :: multiset(s)[c] <= 1
  {
    if s != [] {
      assert s == [s[0]] + s[1..];
      assert s[0] !in s[1..];
      OnceEach(s[1..]);
    }
  }

  // ---- the moderator and the map as they unfold ----

  ghost function Waiting(s: seq<ModNode>): (r: set<int>)
    ensures forall c :: c in r <==> Has(s, c)
  {
    set i | 0 <= i < |s| :: s[i].id
  }

  function Everyone(s: seq<int>): set<int> { set c | c in s }

  ghost function SceneOf(pending: seq<ModNode>, live: seq<Entry>, mail: seq<set<int>>): Scene {
    Scene(Waiting(pending), Everyone(Clients(live)), mail)
  }

  lemma InTouchFollows(pending: seq<ModNode>, live: seq<Entry>, mail: seq<set<int>>)
    requires InTouch(SceneOf(pending, live, mail))
    ensures Follows(pending, live)
  {
    forall c | Has(pending, c) ensures c in Clients(live) { assert c in Waiting(pending); }
  }

  lemma KeptClients(s: seq<Entry>, dead: int, kept: seq<Entry>)
    requires multiset(kept) == multiset(Survivors(s, [dead]))
    ensures Everyone(Clients(kept)) == Everyone(Clients(s)) - {dead}
  {
    forall c ensures c in Clients(kept) <==> c in Clients(s) && c != dead {
      if c in Clients(s) && c != dead { KeptHas(s, [dead], kept, c); }
      if c in Clients(kept) { KeptWasThere(s, dead, kept, c); }
    }
  }

  lemma KeptWasThere(s: seq<Entry>, dead: int, kept: seq<Entry>, c: int)
    requires multiset(kept) == multiset(Survivors(s, [dead])) && c in Clients(kept)
    ensures c in Clients(s) && c != dead
  {
    var k :| 0 <= k < |kept| && Clients(kept)[k] == c;
    assert kept[k] in multiset(kept);
    SurvivorEntries(s, [dead], kept[k]);
  }

  lemma ResentClients(s: seq<Entry>, t: seq<Entry>, dead: int, self: int, req: Option<TaskRequest>)
    requires Tracked(s) && dead in Clients(s) && Resent(s, t, [dead], self, req)
    ensures Everyone(Clients(t)) == Everyone(Clients(s)) - {dead}
  {
    var kept :| Compacted(s, [dead], kept) && t == Handed(kept, FilesOf(s, dead));
    KeptClients(s, dead, kept);
    HandedTracked(kept, FilesOf(s, dead));
  }

  lemma ReachesAddresses(req: TaskRequest, live: seq<Entry>)
    requires Reaches(req, live)
    ensures Addresses(Everyone(req.clients), Everyone(Clients(live)))
  {
    forall c | c in Everyone(req.clients) ensures if live == [] then c == 0 else c in Everyone(Clients(live)) {
      assert c in req.clients;
    }
    if live != [] { assert Clients(live)[0] in Everyone(Clients(live)); }
  }

  lemma ReportUnfolds(before: seq<ModNode>, after: seq<ModNode>, s: seq<Entry>, t: seq<Entry>, dead: seq<int>,
      self: int,
      req: Option<TaskRequest>, mail: seq<set<int>>)
    requires dead != [] && Gone(before, after, dead) && Reassigned(s, t, dead, self, req) && Reaches(req.value, t)
    ensures var to := Everyone(req.value.clients);
            Unfolds(SceneOf(before, s, mail), Death(dead[0], to), SceneOf(after, t, mail + [to]))
  {
    assert dead[0] in dead;
    ResentClients(s, t, dead[0], self, req);
    ReachesAddresses(req.value, t);
    assert Waiting(after) == Waiting(before) - {dead[0]};
  }

  datatype Impulse = Tick | Echo(peer: int) | Result(peer: int, kind: Kind, path: string) | Arrival(req: TaskRequest)

  // a request arrives in the order it was sent, and no counter overflows
  ghost predicate Arrives(pending: seq<ModNode>, mail: seq<set<int>>, i: Impulse) {
    i.Arrival? ==>
      && mail != [] && mail[0] == Everyone(i.req.clients)
      && forall c :: Owes(pending, c) + multiset(i.req.clients)[c] < BYTE
  }

  // what a pass, an echo, an answer or a request that arrives does to the two of them
  method Proceed(m: Moderator, g: ServerGroup, i: Impulse, ghost mail: seq<set<int>>)
    returns (req: Option<TaskRequest>, ghost e: Episode, ghost later: seq<set<int>>)
    requires Ready(m) && Watching(g, m.self) && Follows(m.lists.pending, g.Live())
    requires Arrives(m.lists.pending, mail, i)
    modifies m, m.Held(), m.lists, m.lists.pend, m.lists.done, m.lists.Elements()
    modifies g`heartbeat, g`beats, g`deadFiles, g`working, g.distributionMap
    ensures m.Valid() && Watching(g, m.self)
    ensures Unfolds(old(SceneOf(m.lists.pending, g.Live(), mail)), e, SceneOf(m.lists.pending, g.Live(), later))
    ensures match i
            case Tick => if req.Some? then e.Death? && e.to == Everyone(req.value.clients) else e == Calm
            case Echo(_) => e == Calm && req == None
            case Result(peer, _, _) => e == Reply(peer) && req == None
            case Arrival(_) => e == Delivery && req == None
    ensures fresh(m.Held() - old(m.Held())) && fresh(m.lists.Elements() - old(m.lists.Elements()))
  {
    req := None;
    match i {
      case Tick => req, e, later := TickUnfolds(m, g, mail);
      case Echo(peer) =>
        EchoUnfolds(m, g, peer, mail);
        e, later := Calm, mail;
      case Result(peer, kind, path) =>
        ResultUnfolds(m, g, peer, kind, path, mail);
        e, later := Reply(peer), mail;
      case Arrival(r) =>
        ArrivalUnfolds(m, g, r, mail);
        e, later := Delivery, mail[1..];
    }
    assert Opened(ModeratorGate);
  }

  method TickUnfolds(m: Moderator, g: ServerGroup, ghost mail: seq<set<int>>)
    returns (req: Option<TaskRequest>, ghost e: Episode, ghost later: seq<set<int>>)
    requires Ready(m) && Watching(g, m.self) && Follows(m.lists.pending, g.Live())
    modifies m`since, m`removed, m.lists, m.lists.pend, m.lists.done, m.lists.Elements()
    modifies g`heartbeat, g`beats, g`deadFiles, g`working, g.distributionMap
    ensures Ready(m) && Watching(g, m.self)
    ensures Unfolds(old(SceneOf(m.lists.pending, g.Live(), mail)), e, SceneOf(m.lists.pending, g.Live(), later))
    ensures if req.Some? then e.Death? && e.to == Everyone(req.value.clients) else e == Calm
    ensures m.lists.Elements() <= old(m.lists.Elements())
  {
    ghost var before, s := m.lists.pending, g.Live();
    var dead;
    dead, req := Supervise(m, g);
    if dead == [] {
      e, later := Calm, mail;
      assert Waiting(m.lists.pending) == Waiting(before);
    } else {
      ReportUnfolds(before, m.lists.pending, s, g.Live(), dead, m.self, req, mail);
      e, later := Death(dead[0], Everyone(req.value.clients)), mail + [Everyone(req.value.clients)];
    }
  }

  method EchoUnfolds(m: Moderator, g: ServerGroup, peer: int, ghost mail: seq<set<int>>)
    requires Ready(m) && Watching(g, m.self)
    modifies m`since, m.lists
    ensures Ready(m) && Watching(g, m.self)
    ensures SceneOf(m.lists.pending, g.Live(), mail) == old(SceneOf(m.lists.pending, g.Live(), mail))
    ensures m.lists.Elements() == old(m.lists.Elements())
  {
    ghost var before := m.lists.pending;
    assert Opened(ModeratorGate);
    m.EchoRequest(peer);
    assert Waiting(m.lists.pending) == Waiting(before);
    assert Watching(g, m.self);
  }

  method ResultUnfolds(m: Moderator, g: ServerGroup, peer: int, kind: Kind, path: string, ghost mail: seq<set<int>>)
    requires Ready(m) && Watching(g, m.self)
    modifies m`rsp, m`duplicates, m`sent, m`active, m.Held(), m.lists, m.lists.pend, m.lists.done, m.lists.Elements()
    ensures Sane(m) && Watching(g, m.self)
    ensures Unfolds(old(SceneOf(m.lists.pending, g.Live(), mail)), Reply(peer),
                    SceneOf(m.lists.pending, g.Live(), mail))
    ensures fresh(m.Held() - old(m.Held())) && m.lists.Elements() == old(m.lists.Elements())
  {
    ghost var before, s := m.lists.pending, g.Live();
    Replied(m, peer, kind, path);
    assert Watching(g, m.self) && g.Live() == s;
    ReplyUnfolds(before, m.lists.pending, peer, s, mail);
  }

  lemma ReplyUnfolds(before: seq<ModNode>, after: seq<ModNode>, peer: int, live: seq<Entry>, mail: seq<set<int>>)
    requires OnlyLeaves(before, after, peer)
    ensures Unfolds(SceneOf(before, live, mail), Reply(peer), SceneOf(after, live, mail))
  {
    assert Waiting(after) == Waiting(before) || Waiting(after) == Waiting(before) - {peer};
  }

  ghost predicate OnlyLeaves(before: seq<ModNode>, after: seq<ModNode>, peer: int) {
    forall c :: if c == peer then Has(after, c) ==> Has(before, c) else Has(after, c) <==> Has(before, c)
  }

  // only the client that answers can leave the pending list
  method Replied(m: Moderator, peer: int, kind: Kind, path: string)
    requires Ready(m)
    modifies m`rsp, m`duplicates, m`sent, m`active, m.Held(), m.lists, m.lists.pend, m.lists.done, m.lists.Elements()
    ensures Sane(m) && OnlyLeaves(old(m.lists.pending), m.lists.pending, peer)
    ensures fresh(m.Held() - old(m.Held())) && m.lists.Elements() == old(m.lists.Elements())
  {
    assert Opened(ModeratorGate);
    ghost var before := m.lists.pending;
    forall c ensures Has(before, c) <==> Owes(before, c) > 0 { m.PendingOwes(c); }
    m.TaskResponse(peer, kind, path);
    forall c ensures Has(m.lists.pending, c) <==> Owes(m.lists.pending, c) > 0 { m.PendingOwes(c); }
  }

  method ArrivalUnfolds(m: Moderator, g: ServerGroup, req: TaskRequest, ghost mail: seq<set<int>>)
    requires Ready(m) && Watching(g, m.self) && mail != [] && mail[0] == Everyone(req.clients)
    requires forall c :: Owes(m.lists.pending, c) + multiset(req.clients)[c] < BYTE
    modifies m`tasks, m`since, m`expected, m`state, m`activeClients, m.lists, m.lists.pend, m.lists.done,
             m.lists.Elements()
    ensures Ready(m) && Watching(g, m.self)
    ensures Unfolds(old(SceneOf(m.lists.pending, g.Live(), mail)), Delivery,
                    SceneOf(m.lists.pending, g.Live(), mail[1..]))
    ensures fresh(m.lists.Elements() - old(m.lists.Elements()))
  {
    ghost var before := m.lists.pending;
    Arrived(m, req.clients);
    assert Watching(g, m.self);
    DeliveryUnfolds(before, m.lists.pending, req.clients, g.Live(), mail);
  }

  method Arrived(m: Moderator, clients: seq<int>)
    requires Ready(m) && forall c :: Owes(m.lists.pending, c) + multiset(clients)[c] < BYTE
    modifies m`tasks, m`since, m`expected, m`state, m`activeClients, m.lists, m.lists.pend, m.lists.done,
             m.lists.Elements()
    ensures Ready(m) && Enlarged(old(m.lists.pending), m.lists.pending, clients)
    ensures m.tasks == old(m.tasks) + |clients| && m.expected == old(m.expected)
    ensures fresh(m.lists.Elements() - old(m.lists.Elements()))
  {
    assert Opened(ModeratorGate);
    m.PerformTask(clients, true);
  }

  ghost predicate Enlarged(before: seq<ModNode>, after: seq<ModNode>, clients: seq<int>) {
    forall c :: Has(after, c) <==> Has(before, c) || c in clients
  }

  lemma DeliveryUnfolds(before: seq<ModNode>, after: seq<ModNode>, clients: seq<int>, live: seq<Entry>,
      mail: seq<set<int>>)
    requires Enlarged(before, after, clients) && mail != [] && mail[0] == Everyone(clients)
    ensures Unfolds(SceneOf(before, live, mail), Delivery, SceneOf(after, live, mail[1..]))
  {
    forall c ensures c in Waiting(after) <==> c in Waiting(before) + Everyone(clients) {
      assert Has(after, c) <==> Has(before, c) || c in clients;
    }
  }

  // the moderator is given up in the end: what it waited for and what was on its way to it does not matter any more
  method LoseModerator(g: ServerGroup, ghost moderator: int) returns (lost: bool)
    requires Watching(g, moderator) && (g.heartbeat == 0 ==> MayGo(g.Shot()))
    modifies g`heartbeat, g`beats, g`deadFiles, g`working, g`state, g`at, g`reach, g`watching, g.distributionMap
    ensures lost <==> old(g.heartbeat) == 0
    ensures if lost then
              g.Valid() && forall waiting, mail :: Unfolds(Scene(waiting, old(Everyone(Clients(g.Live()))), mail),
                  Loss(moderator), Scene({}, Everyone(Clients(g.Live())), []))
            else Watching(g, moderator) && g.Live() == old(g.Live())
  {
    assert Opened(GroupGate);
    ghost var s := g.Live();
    var echoed;
    lost, echoed := g.ResponseTick();
    if lost && g.Live() != [] { KeptClients(s, moderator, g.Live()); }
  }
}
