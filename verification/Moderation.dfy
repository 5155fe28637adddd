// The moderator of a group: which clients still owe results, what has been recorded, when the answer goes out.
module Moderation {
  import opened Basics
  import opened TaskSum
  import opened SnList
  import opened ModeratorLists

  const BYTE := 256

  datatype Kind = TypeFile | TypeLong
  datatype ModeratorState = NotifyRspPending | NotifyRspSent | TaskRspPending
  datatype Sent = Sent(kind: Kind, result: seq<string>, clients: seq<int>, finalResp: string, forced: bool)

  // ---- the pending list ----

  ghost predicate DistinctIds(s: seq<ModNode>) { forall i, j :: 0 <= i < j < |s| ==> s[i].id != s[j].id }

  ghost predicate Counted(s: seq<ModNode>) { forall i :: 0 <= i < |s| ==> 1 <= s[i].refCount < BYTE }

  function Refs(s: seq<ModNode>): int { if s == [] then 0 else s[0].refCount + Refs(s[1..]) }

  // what one client owes
  function Owes(s: seq<ModNode>, id: int): int {
    if s == [] then 0 else if s[0].id == id then s[0].refCount else Owes(s[1..], id)
  }

  lemma {:induction false} OwesAt(s: seq<ModNode>, i: nat)
    requires i < |s| && DistinctIds(s)
    ensures Owes(s, s[i].id) == s[i].refCount
  {
    if i > 0 { OwesAt(s[1..], i - 1); }
  }

  lemma {:induction false} OwesNone(s: seq<ModNode>, id: int)
    requires !Has(s, id)
    ensures Owes(s, id) == 0
  {
    if s != [] {
      assert s[0].id != id;
      assert forall k :: 0 <= k < |s[1..]| ==> s[1..][k] == s[k + 1];
      OwesNone(s[1..], id);
    }
  }

  // only the node at i changes
  lemma OwesUpdate(s: seq<ModNode>, i: nat, n: ModNode, c: int)
    requires i < |s| && DistinctIds(s) && n.id == s[i].id
    ensures Owes(s[i := n], c) == if c == n.id then n.refCount else Owes(s, c)
  {
    var t := s[i := n];
    SameIds(s, i, n);
    if c == n.id {
      OwesAt(t, i);
    } else if Has(s, c) {
      var k :| 0 <= k < |s| && s[k].id == c;
      OwesAt(s, k);
      assert t[k] == s[k];
      OwesAt(t, k);
    } else {
      OwesNone(s, c);
      OwesNone(t, c);
    }
  }

  lemma OwesWithout(s: seq<ModNode>, i: nat, c: int)
    requires i < |s| && DistinctIds(s)
    ensures Owes(s[..i] + s[i + 1..], c) == if c == s[i].id then 0 else Owes(s, c)
  {
    assert s == s[..i] + ([s[i]] + s[i + 1..]) && ([s[i]] + s[i + 1..])[1..] == s[i + 1..];
    OwesJoin(s[..i], s[i + 1..], c);
    OwesJoin(s[..i], [s[i]] + s[i + 1..], c);
    if c == s[i].id {
      OwesNone(s[..i], c);
      OwesNone(s[i + 1..], c);
    }
  }

  lemma {:induction false} OwesJoin(a: seq<ModNode>, b: seq<ModNode>, c: int)
    ensures Owes(a + b, c) == if Has(a, c) then Owes(a, c) else Owes(b, c)
  {
    if a == [] {
      assert a + b == b;
    } else {
      assert (a + b)[1..] == a[1..] + b;
      OwesJoin(a[1..], b, c);
      assert forall k :: 0 <= k < |a[1..]| ==> a[1..][k] == a[k + 1];
      assert forall k :: 0 < k < |a| ==> a[1..][k - 1] == a[k];
    }
  }

  lemma {:induction false} RefsJoin(a: seq<ModNode>, b: seq<ModNode>)
    ensures Refs(a + b) == Refs(a) + Refs(b)
  {
    if a == [] {
      assert a + b == b;
    } else {
      assert (a + b)[1..] == a[1..] + b;
      RefsJoin(a[1..], b);
    }
  }

  lemma RefsUpdate(s: seq<ModNode>, i: nat, n: ModNode)
    requires i < |s|
    ensures Refs(s[i := n]) == Refs(s) - s[i].refCount + n.refCount
    ensures Refs(s[..i] + s[i + 1..]) == Refs(s) - s[i].refCount
  {
    assert s == s[..i] + ([s[i]] + s[i + 1..]) && s[i := n] == s[..i] + ([n] + s[i + 1..]);
    RefsJoin(s[..i], [s[i]] + s[i + 1..]);
    RefsJoin(s[..i], [n] + s[i + 1..]);
    RefsJoin(s[..i], s[i + 1..]);
    assert ([s[i]] + s[i + 1..])[1..] == s[i + 1..] == ([n] + s[i + 1..])[1..];
  }

  // nothing is owed exactly when nobody is pending
  lemma {:induction false} RefsZero(s: seq<ModNode>)
    requires Counted(s)
    ensures Refs(s) >= |s|
  {
    if s != [] { RefsZero(s[1..]); }
  }

  // no count exceeds what all owe together
  lemma {:induction false} RefBound(s: seq<ModNode>, i: nat)
    requires Counted(s) && i < |s|
    ensures s[i].refCount <= Refs(s)
  {
    RefsZero(s[1..]);
    if i > 0 { RefBound(s[1..], i - 1); }
  }

  // one result less is owed by this client
  ghost predicate Settled(s: seq<ModNode>, t: seq<ModNode>, id: int) {
    forall c :: Owes(t, c) == Owes(s, c) - if c == id then 1 else 0
  }

  // no heartbeat changes
  ghost predicate StillBeating(s: seq<ModNode>, t: seq<ModNode>) {
    forall n :: n in t ==> n in s || n.(refCount := n.refCount + 1) in s
  }

  ghost predicate Refreshed(s: seq<ModNode>, t: seq<ModNode>, id: int) {
    && |t| == |s|
    && forall i :: 0 <= i < |s| ==> t[i] == if s[i].id == id then s[i].(heartbeat := MAX_ALLOWED_KA_MISSES) else s[i]
  }

  lemma Lowered(s: seq<ModNode>, i: nat, n: ModNode)
    requires i < |s| && n.(refCount := n.refCount + 1) == s[i]
    ensures StillBeating(s, s[i := n]) && StillBeating(s, Shortened(s[i := n], i))
  {
    assert s[i] in s;
    forall m | m in s[i := n] && m != n ensures m in s {
      var k :| 0 <= k < |s| && s[i := n][k] == m;
    }
    forall m | m in Shortened(s[i := n], i) ensures m in s {
      var k :| 0 <= k < |s| - 1 && Shortened(s[i := n], i)[k] == m;
      assert m == s[if k < i then k else k + 1];
    }
  }

  ghost predicate AllDone(s: seq<ModNode>) { forall i :: 0 <= i < |s| ==> s[i].refCount == 0 }

  // a pending list in order: since counts the passes since each client was last heard of
  ghost predicate Owing(s: seq<ModNode>, since: map<int, nat>) {
    DistinctIds(s) && Counted(s) && forall i :: 0 <= i < |s| ==> HeardOf(s[i], since)
  }

  // Owing, for proofs that only carry it along
  ghost predicate InOrder(s: seq<ModNode>, since: map<int, nat>) {
    forall u: Gate {:trigger Opened(u)} :: Opened(u) && u == OwingGate ==> Owing(s, since)
  }

  ghost predicate HeardOf(n: ModNode, since: map<int, nat>) {
    n.id in since && 0 <= n.heartbeat <= MAX_ALLOWED_KA_MISSES && since[n.id] >= MAX_ALLOWED_KA_MISSES - n.heartbeat
  }

  lemma Enlisted(s: seq<ModNode>, id: int, since: map<int, nat>) returns (t: seq<ModNode>)
    requires Owing(s, since) && !Has(s, id)
    ensures t == [ModNode(id, 1, MAX_ALLOWED_KA_MISSES)] + s && Owing(t, since[id := 0]) && Refs(t) == Refs(s) + 1
    ensures forall c :: Owes(t, c) == Owes(s, c) + if c == id then 1 else 0
    ensures forall c :: Has(t, c) <==> Has(s, c) || c == id
  {
    t := [ModNode(id, 1, MAX_ALLOWED_KA_MISSES)] + s;
    OwesNone(s, id);
    assert t[1..] == s && t[0].id == id;
    assert forall k :: 1 <= k < |t| ==> t[k] == s[k - 1];
    assert forall k :: 0 <= k < |s| ==> t[k + 1] == s[k];
  }

  lemma Changed(s: seq<ModNode>, i: nat, n: ModNode, since: map<int, nat>) returns (t: seq<ModNode>)
    requires Owing(s, since) && i < |s| && n.id == s[i].id && 1 <= n.refCount < BYTE && HeardOf(n, since)
    ensures t == s[i := n] && Owing(t, since) && Refs(t) == Refs(s) - s[i].refCount + n.refCount
    ensures Owes(s, n.id) == s[i].refCount && forall c :: Owes(t, c) == if c == n.id then n.refCount else Owes(s, c)
    ensures forall c :: Has(t, c) <==> Has(s, c)
  {
    t := s[i := n];
    OwesAt(s, i);
    RefsUpdate(s, i, n);
    SameIds(s, i, n);
    forall c ensures Owes(t, c) == if c == n.id then n.refCount else Owes(s, c) { OwesUpdate(s, i, n, c); }
  }

  lemma AfterLeaving(s: seq<ModNode>, i: nat, since: map<int, nat>) returns (t: seq<ModNode>)
    requires Owing(s, since) && i < |s|
    ensures t == Shortened(s, i) && Owing(t, since) && Refs(t) == Refs(s) - s[i].refCount
    ensures Owes(s, s[i].id) == s[i].refCount && forall c :: Owes(t, c) == if c == s[i].id then 0 else Owes(s, c)
    ensures forall c :: Has(t, c) <==> Has(s, c) && c != s[i].id
  {
    t := Shortened(s, i);
    OwesAt(s, i);
    RefsUpdate(s, i, s[i]);
    WithoutIds(s, i);
    forall c ensures Owes(t, c) == if c == s[i].id then 0 else Owes(s, c) { OwesWithout(s, i, c); }
  }

  lemma AfterLeavingWith(s: seq<ModNode>, i: nat, n: ModNode, since: map<int, nat>) returns (t: seq<ModNode>)
    requires Owing(s, since) && i < |s|
    ensures t == Shortened(s[i := n], i) && Owing(t, since) && Refs(t) == Refs(s) - s[i].refCount
    ensures Owes(s, s[i].id) == s[i].refCount && forall c :: Owes(t, c) == if c == s[i].id then 0 else Owes(s, c)
  {
    t := AfterLeaving(s, i, since);
    assert t == Shortened(s[i := n], i);
  }

  // ---- base names ----

  // basename: what is behind the last '/', those at the end not counting
  function Base(path: string): string {
    if path == "" then "."
    else if |path| > 1 && path[|path| - 1] == '/' then Base(path[..|path| - 1])
    else if path == "/" then path
    else BehindSlash(path)
  }

  function BehindSlash(path: string): string { if '/' in path then BehindSlash(path[1..]) else path }

  // this name stands behind the last '/' of the path, or is the path
  ghost predicate EndsIn(path: string, name: string) {
    && name != "" && '/' !in name
    && (path == name || (|path| > |name| && path == path[..|path| - |name| - 1] + "/" + name))
  }

  lemma {:induction false} BaseIsName(dir: string, name: string)
    requires name != "" && '/' !in name
    ensures Base(name) == name && Base(dir + "/" + name) == name
  {
    var path := dir + "/" + name;
    assert path[|path| - 1] == name[|name| - 1] && name[|name| - 1] in name;
    BehindSlashIsName(dir, name);
  }

  lemma {:induction false} BehindSlashIsName(dir: string, name: string)
    requires '/' !in name
    ensures BehindSlash(dir + "/" + name) == name
  {
    var path := dir + "/" + name;
    assert path[|dir|] == '/';
    if dir == "" {
      assert path[1..] == name;
    } else {
      assert path[1..] == dir[1..] + "/" + name;
      BehindSlashIsName(dir[1..], name);
    }
  }

  // slashes at the end do not count, and the two paths without a name
  lemma BaseOfRest(path: string)
    ensures path != "" ==> Base(path + "/") == Base(path)
    ensures Base("") == "." && Base("/") == "/"
  {
    assert (path + "/")[..|path|] == path;
  }

  lemma EndIsBase(path: string, name: string)
    requires EndsIn(path, name)
    ensures Base(path) == name
  {
    if path == name {
      BaseIsName("", name);
    } else {
      BaseIsName(path[..|path| - |name| - 1], name);
    }
  }

  ghost predicate AllNamed(s: seq<string>) { forall i :: 0 <= i < |s| ==> exists name :: EndsIn(s[i], name) }

  lemma EndsAreBases(s: seq<string>, name: string)
    requires AllNamed(s)
    ensures forall i :: 0 <= i < |s| ==> (Base(s[i]) == name <==> EndsIn(s[i], name))
  {
    forall i | 0 <= i < |s| ensures Base(s[i]) == name <==> EndsIn(s[i], name) {
      var other :| EndsIn(s[i], other);
      EndIsBase(s[i], other);
      if EndsIn(s[i], name) { EndIsBase(s[i], name); }
    }
  }

  ghost predicate DistinctBases(s: seq<string>) { forall i, j :: 0 <= i < j < |s| ==> Base(s[i]) != Base(s[j]) }

  // DistinctBases, for proofs that only carry it along
  ghost predicate BasesApart(s: seq<string>) {
    forall u: Gate {:trigger Opened(u)} :: Opened(u) && u == BaseGate ==> DistinctBases(s)
  }

  lemma OneMoreBase(s: seq<string>, path: string)
    requires BasesApart(s) && forall i :: 0 <= i < |s| ==> Base(s[i]) != Base(path)
    ensures BasesApart(s + [path])
  {
    assert Opened(BaseGate);
  }

  // ---- the response under construction ----

  ghost function Zip(a: seq<string>, b: seq<int>): (r: seq<(string, int)>)
    requires |a| == |b|
    ensures |r| == |a| && forall i :: 0 <= i < |r| ==> r[i] == (a[i], b[i])
  {
    seq(|a|, i requires 0 <= i < |a| => (a[i], b[i]))
  }

  class TaskRsp {
    const kind: Kind
    const result: array<string>
    const clients: array<int>
    var num: nat

    ghost predicate Valid()
      reads this, result
    {
      && num <= result.Length == clients.Length
      && (kind == TypeFile ==> BasesApart(result[..num]))
    }

    // populate_moderator_task_rsp: the capacity is a byte
    constructor (expected: int, kind: Kind, path: string, client: int)
      requires 1 <= expected
      requires expected < BYTE
      ensures Valid() && num == 1 && result.Length == expected && this.kind == kind
      ensures result[..1] == [path] && clients[..1] == [client] && fresh(result) && fresh(clients)
    {
      this.kind := kind;
      result := new string[expected % BYTE](_ => "");
      clients := new int[expected % BYTE](_ => 0);
      num := 1;
      new;
      result[0] := path;
      clients[0] := client;
    }

    // check_if_response_already_received, which answers true when it has not been received yet
    method NotYetReceived(path: string) returns (isNew: bool)
      requires Valid()
      ensures isNew <==> (kind == TypeFile ==> forall i :: 0 <= i < num ==> Base(result[i]) != Base(path))
      ensures forall name :: EndsIn(path, name) && AllNamed(result[..num]) ==>
                (isNew <==> (kind == TypeFile ==> forall i :: 0 <= i < num ==> !EndsIn(result[i], name)))
    {
      forall name | EndsIn(path, name) && AllNamed(result[..num])
        ensures Base(path) == name && forall i :: 0 <= i < num ==>
                (Base(result[i]) == name <==> EndsIn(result[i], name))
      {
        EndIsBase(path, name);
        EndsAreBases(result[..num], name);
        assert forall i :: 0 <= i < num ==> result[..num][i] == result[i];
      }
      if kind == TypeFile {
        var name := Base(path);
        var index := 0;
        while index < num
          invariant 0 <= index <= num && forall i :: 0 <= i < index ==> Base(result[i]) != name
        {
          if name == Base(result[index]) { return false; }
          index := index + 1;
        }
      }
      isNew := true;
    }

    // update_task_rsp
    method Record(path: string, client: int)
      requires Valid() && num < result.Length
      requires kind == TypeFile ==> forall i :: 0 <= i < num ==> Base(result[i]) != Base(path)
      modifies this, result, clients
      ensures Valid() && num == old(num) + 1
      ensures result[..num] == old(result[..num]) + [path] && clients[..num] == old(clients[..num]) + [client]
    {
      ghost var before := result[..num];
      if kind == TypeFile { OneMoreBase(before, path); }
      result[num] := path;
      clients[num] := client;
      num := num + 1;
      assert result[..num] == before + [path];
    }
  }

  // the response goes on, or the first one of this kind starts it
  ghost predicate Continues(before: TaskRsp?, after: TaskRsp?, kind: Kind) {
    if before == null then after != null ==> after.kind == kind else after == before
  }

  // ---- the moderator ----

  class Moderator {
    const self: int
    const lists: ClientLists
    var expected: int
    var rsp: TaskRsp?
    var active: bool
    var sent: seq<Sent>
    // the clients heard of so far, and the list reported to the server
    var state: ModeratorState
    var activeClients: int
    var alive: seq<int>
    var echoes: nat
    var notified: seq<int>
    // bookkeeping of the run: tasks assigned, duplicates discarded, tasks of removed clients,
    // and the passes since each pending client was last heard of
    ghost var tasks: int
    ghost var duplicates: int
    ghost var removed: int
    ghost var since: map<int, nat>

    ghost function Recorded(): int
      reads this`rsp, rsp
    {
      if rsp == null then 0 else rsp.num
    }

    ghost predicate Lists()
      reads this`since, lists
    {
      InOrder(lists.pending, since) && AllDone(lists.finished)
    }

    ghost predicate TasksAddUp()
      reads this, lists, rsp
    {
      Lists() && tasks == Refs(lists.pending) + Recorded() + duplicates + removed && 1 <= expected < BYTE
    }

    ghost function Held(): set<object>
      reads this`rsp
    {
      if rsp == null then {} else {rsp, rsp.result, rsp.clients}
    }

    // room for every response that is still expected
    ghost predicate Recording()
      reads this`rsp, this`expected, Held()
    {
      rsp != null ==> rsp.Valid() && rsp.num <= expected == rsp.result.Length
    }

    // who has answered what so far
    ghost function Results(): seq<(string, int)>
      requires Recording()
      reads this`rsp, this`expected, Held()
    {
      if rsp == null then [] else Zip(rsp.result[..rsp.num], rsp.clients[..rsp.num])
    }

    ghost predicate Answered()
      reads this, rsp
    {
      |sent| == 1 && |sent[0].result| == Recorded() && (!sent[0].forced ==> Recorded() == expected)
    }

    // the list fits its 255 places, and while it is open somebody has not been heard of
    ghost predicate Gathering()
      reads this`state, this`activeClients, this`alive, this`echoes, this`notified
    {
      state == NotifyRspPending ==> notified == [] && |alive| == echoes + 1 < activeClients < BYTE
    }

    ghost predicate Working()
      reads this, Held(), lists, lists.pend, lists.done, lists.Elements()
    {
      lists.Valid() && TasksAddUp() && Recording() && Gathering()
    }

    // holds between any two messages: an active moderator has not answered and still misses a response
    ghost predicate Valid()
      reads this, Held(), lists, lists.pend, lists.done, lists.Elements()
    {
      Working() && (if active then sent == [] && Recorded() < expected else Answered())
    }

    // handle_moderator_notify_req, for the client that becomes moderator
    constructor (self: int, clients: int)
      requires 1 <= clients < BYTE
      ensures Valid() && active && lists.pending == [] && rsp == null && tasks == 0 && duplicates == 0 && removed == 0
      ensures this.self == self && expected == clients && fresh(lists) && fresh(lists.pend) && fresh(lists.done)
              && fresh(lists.Elements())
      ensures if clients == 1 then state == NotifyRspSent && notified == [self]
              else state == NotifyRspPending && alive == [self]
    {
      this.self, expected := self, clients;
      activeClients, echoes, alive, notified, state := clients, 0, [self], [], NotifyRspPending;
      if clients == 1 {
        notified, alive, state := [self], [], NotifyRspSent;
      }
      lists := new ClientLists();
      rsp, active, sent := null, true, [];
      tasks, duplicates, removed, since := 0, 0, 0, map[];
    }

    // send_moderator_notify_response
    method SendNotifyResponse()
      modifies this`state, this`alive, this`echoes, this`notified
      ensures state == NotifyRspSent && notified == old(alive) && alive == [] && echoes == 0
    {
      state, echoes := NotifyRspSent, 0;
      notified, alive := alive, [];
    }

    // moderator_echo_req_notify_rsp_pending_state: the report goes out with the last client's echo
    method NotifyEcho(peer: int)
      requires Valid() && state == NotifyRspPending
      modifies this`state, this`alive, this`echoes, this`notified
      ensures Valid()
      ensures if old(echoes) + 2 == activeClients
              then state == NotifyRspSent && notified == old(alive) + [peer] && |notified| == activeClients
              else state == NotifyRspPending && alive == old(alive) + [peer] && echoes == old(echoes) + 1
    {
      echoes := echoes + 1;
      alive := alive + [peer];
      if echoes == activeClients - 1 {
        SendNotifyResponse();
      }
    }

    // moderator_main_fsm
    method Fsm(peer: int)
      requires Valid() && active
      modifies this`state, this`alive, this`echoes, this`notified, this`since, lists
      ensures Valid() && active
      ensures old(state) != TaskRspPending ==> lists.pending == old(lists.pending)
      ensures old(state) != NotifyRspPending ==> state == old(state) && notified == old(notified)
      ensures old(state) == NotifyRspPending ==>
                if old(echoes) + 2 == activeClients then state == NotifyRspSent && notified == old(alive) + [peer]
                else state == NotifyRspPending && alive == old(alive) + [peer]
      ensures old(state) == TaskRspPending ==> Refreshed(old(lists.pending), lists.pending, peer)
      ensures forall c :: Has(lists.pending, c) <==> Has(old(lists.pending), c)
    {
      match state {
        case NotifyRspPending => NotifyEcho(peer);
        case TaskRspPending => EchoRequest(peer);
        case NotifyRspSent =>
      }
    }

    // one client id of the moderator block of handle_perform_task_req
    method AddTask(id: int)
      requires lists.Valid() && Lists() && Owes(lists.pending, id) < BYTE - 1
      modifies this`tasks, this`since, lists, lists.pend, lists.done, lists.Elements()
      ensures lists.Valid() && Lists() && tasks == old(tasks) + 1 && fresh(lists.Elements() - old(lists.Elements()))
      ensures Refs(lists.pending) == old(Refs(lists.pending)) + 1
      ensures forall c :: Owes(lists.pending, c) == Owes(old(lists.pending), c) + if c == id then 1 else 0
      ensures forall c :: Has(lists.pending, c) <==> Has(old(lists.pending), c) || c == id
    {
      assert Opened(OwingGate);
      var node, i := lists.Find(id);
      tasks := tasks + 1;
      if node == null {
        Enlist(id);
      } else {
        Raise(node, i);
      }
    }

    method Enlist(id: int)
      requires lists.Valid() && Lists() && !Has(lists.pending, id)
      modifies this`since, lists, lists.pend, lists.done, lists.Elements()
      ensures lists.Valid() && Lists() && fresh(lists.Elements() - old(lists.Elements()))
      ensures Refs(lists.pending) == old(Refs(lists.pending)) + 1
      ensures forall c :: Owes(lists.pending, c) == Owes(old(lists.pending), c) + if c == id then 1 else 0
      ensures forall c :: Has(lists.pending, c) <==> Has(old(lists.pending), c) || c == id
    {
      assert Opened(OwingGate);
      var t := Enlisted(lists.pending, id, since);
      since := since[id := 0];
      lists.Allocate(id);
    }

    method Raise(node: Element, ghost i: nat)
      requires lists.Valid() && Lists() && i < |lists.pending| && node == lists.pend.elems[i]
      requires Owes(lists.pending, lists.pending[i].id) < BYTE - 1
      modifies lists`nodes, lists`pending
      ensures lists.Valid() && Lists() && Refs(lists.pending) == old(Refs(lists.pending)) + 1
      ensures var id := old(lists.pending)[i].id;
              forall c :: Owes(lists.pending, c) == Owes(old(lists.pending), c) + if c == id then 1 else 0
      ensures forall c :: Has(lists.pending, c) <==> Has(old(lists.pending), c)
    {
      assert Opened(OwingGate);
      OwesAt(lists.pending, i);
      var n := lists.Get(node, i);
      n := n.(refCount := (n.refCount + 1) % BYTE);
      var t := Changed(lists.pending, i, n, since);
      lists.Put(node, i, n);
    }

    // the moderator block of handle_perform_task_req
    method PerformTask(clientIds: seq<int>, reassigned: bool)
      requires Valid() && active && forall c :: Owes(lists.pending, c) + multiset(clientIds)[c] < BYTE
      requires !reassigned ==> rsp == null && 1 <= |clientIds| < BYTE
      modifies this`tasks, this`since, this`expected, this`state, this`activeClients, lists, lists.pend, lists.done,
               lists.Elements()
      ensures Valid() && active && tasks == old(tasks) + |clientIds| && fresh(lists.Elements() - old(lists.Elements()))
      ensures expected == (if reassigned then old(expected) else |clientIds|) && state == TaskRspPending
      ensures forall c :: Owes(lists.pending, c) == Owes(old(lists.pending), c) + multiset(clientIds)[c]
      ensures forall c :: Has(lists.pending, c) <==> Has(old(lists.pending), c) || c in clientIds
    {
      state := TaskRspPending;
      if !reassigned {
        activeClients := |clientIds|;
        expected := |clientIds|;
      }
      AddTasks(clientIds);
      assert Recording();
    }

    method AddTasks(clientIds: seq<int>)
      requires lists.Valid() && Lists() && forall c :: Owes(lists.pending, c) + multiset(clientIds)[c] < BYTE
      modifies this`tasks, this`since, lists, lists.pend, lists.done, lists.Elements()
      ensures lists.Valid() && Lists() && tasks == old(tasks) + |clientIds|
              && fresh(lists.Elements() - old(lists.Elements()))
      ensures Refs(lists.pending) == old(Refs(lists.pending)) + |clientIds|
      ensures forall c :: Owes(lists.pending, c) == Owes(old(lists.pending), c) + multiset(clientIds)[c]
      ensures forall c :: Has(lists.pending, c) <==> Has(old(lists.pending), c) || c in clientIds
    {
      assert Opened(OwingGate);
      ghost var s := lists.pending;
      var i := 0;
      while i < |clientIds|
        invariant 0 <= i <= |clientIds| && lists.Valid() && Lists() && fresh(lists.Elements() - old(lists.Elements()))
        invariant tasks == old(tasks) + i && Refs(lists.pending) == Refs(s) + i
        invariant forall c :: Owes(lists.pending, c) == Owes(s, c) + multiset(clientIds[..i])[c]
        invariant forall c :: Has(lists.pending, c) <==> Has(s, c) || c in clientIds[..i]
      {
        PrefixNext(clientIds, i);
        AddTask(clientIds[i]);
        i := i + 1;
      }
      assert clientIds[..|clientIds|] == clientIds;
    }

    // moderator_send_task_response_to_server; what it frees is not used again
    method SendTaskResponse(force: bool)
      requires Working() && active && sent == []
      modifies this`sent, this`active
      ensures Valid()
      ensures active <==> rsp == null || (!force && rsp.num != expected)
      ensures active ==> sent == []
      ensures !active ==>
                && |sent| == 1 && sent[0].kind == rsp.kind && sent[0].result == rsp.result[..rsp.num]
                && sent[0].clients == rsp.clients[..rsp.num] && sent[0].forced == force
                && (sent[0].kind == TypeLong ==> sent[0].finalResp == Print(MergedSum(sent[0].result)))
                && (sent[0].kind == TypeFile ==> sent[0].finalResp == "")
    {
      if rsp == null { return; }
      if !force && rsp.num != expected { return; }
      var finalResp := "";
      if rsp.kind == TypeLong {
        finalResp := MergeLong(rsp.result[..rsp.num]);
      }
      Emit(Sent(rsp.kind, rsp.result[..rsp.num], rsp.clients[..rsp.num], finalResp, force));
    }

    method Emit(answer: Sent)
      requires Working() && active && sent == [] && rsp != null && |answer.result| == rsp.num
               && (answer.forced || rsp.num == expected)
      modifies this`sent, this`active
      ensures Valid() && !active && sent == [answer]
    {
      sent := sent + [answer];
      active := false;
    }

    ghost predicate Duplicate(path: string)
      reads this, Held()
    {
      rsp != null && rsp.num <= rsp.result.Length && rsp.kind == TypeFile && exists k ::
          0 <= k < rsp.num && Base(rsp.result[k]) == Base(path)
    }

    // records the result, or discards it
    method Store(path: string, kind: Kind, peer: int)
      requires Recording() && Recorded() < expected && 1 <= expected < BYTE && lists.Valid() && Lists()
      modifies this`rsp, this`duplicates, Held()
      ensures old(Gathering()) ==> Gathering()
      ensures lists.Valid() && Lists() && lists.pending == old(lists.pending)
              && lists.Elements() == old(lists.Elements())
      ensures Recording() && rsp != null && Continues(old(rsp), rsp, kind)
      ensures fresh(Held() - old(Held()))
      ensures old(Duplicate(path)) ==> duplicates == old(duplicates) + 1 && Recorded() == old(Recorded())
      ensures !old(Duplicate(path)) ==> duplicates == old(duplicates) && Recorded() == old(Recorded()) + 1
      ensures Results() == old(Results()) + (if old(Duplicate(path)) then [] else [(path, peer)])
    {
      if rsp != null {
        StoreNext(path, peer);
      } else {
        rsp := new TaskRsp(expected, kind, path, peer);
        assert Results() == [(path, peer)];
      }
    }

    method StoreNext(path: string, peer: int)
      requires Recording() && Recorded() < expected && rsp != null && lists.Valid() && Lists()
      modifies this`duplicates, Held()
      ensures old(Gathering()) ==> Gathering()
      ensures lists.Valid() && Lists() && lists.pending == old(lists.pending)
              && lists.Elements() == old(lists.Elements())
      ensures Recording()
      ensures old(Duplicate(path)) ==> duplicates == old(duplicates) + 1 && Recorded() == old(Recorded())
      ensures !old(Duplicate(path)) ==> duplicates == old(duplicates) && Recorded() == old(Recorded()) + 1
      ensures Results() == old(Results()) + (if old(Duplicate(path)) then [] else [(path, peer)])
    {
      ghost var before, dup := Results(), Duplicate(path);
      var isNew := rsp.NotYetReceived(path);
      if isNew {
        rsp.Record(path, peer);
      } else {
        duplicates := duplicates + 1;
      }
      assert Results() == before + (if dup then [] else [(path, peer)]);
    }

    // one result less is owed by the client at i
    method Settle(node: Element, ghost i: nat)
      requires lists.Valid() && Lists() && i < |lists.pending| && node == lists.pend.elems[i]
      modifies lists, lists.pend, lists.done, lists.Elements()
      ensures unchanged(this) && unchanged(Held())
      ensures lists.Valid() && Lists() && lists.Elements() == old(lists.Elements())
              && Refs(lists.pending) == old(Refs(lists.pending)) - 1
      ensures Settled(old(lists.pending), lists.pending, old(lists.pending)[i].id)
      ensures StillBeating(old(lists.pending), lists.pending)
      ensures var n := old(lists.pending)[i];
              lists.finished == (if n.refCount == 1 then [n.(refCount := 0)] else []) + old(lists.finished)
    {
      assert Opened(OwingGate);
      OwesAt(lists.pending, i);
      ghost var s := lists.pending;
      var n := lists.Get(node, i);
      n := n.(refCount := (n.refCount - 1) % BYTE);
      Lowered(s, i, n);
      if n.refCount == 0 {
        var t := AfterLeavingWith(lists.pending, i, n, since);
        lists.Put(node, i, n);
        lists.Finish(node, i);
      } else {
        var t := Changed(lists.pending, i, n, since);
        lists.Put(node, i, n);
      }
    }

    method Account(node: Element, ghost i: nat, path: string, kind: Kind, peer: int)
      requires Working() && Recorded() < expected
      requires i < |lists.pending| && node == lists.pend.elems[i]
      modifies this`rsp, this`duplicates, Held(), lists, lists.pend, lists.done, lists.Elements()
      ensures Working() && rsp != null && Continues(old(rsp), rsp, kind) && lists.Elements() == old(lists.Elements())
      ensures fresh(Held() - old(Held()))
      ensures Refs(lists.pending) == old(Refs(lists.pending)) - 1
      ensures Settled(old(lists.pending), lists.pending, old(lists.pending)[i].id)
      ensures StillBeating(old(lists.pending), lists.pending)
      ensures duplicates == old(duplicates) + (if old(Duplicate(path)) then 1 else 0)
      ensures Recorded() == old(Recorded()) + (if old(Duplicate(path)) then 0 else 1)
      ensures Results() == old(Results()) + (if old(Duplicate(path)) then [] else [(path, peer)])
    {
      Settle(node, i);
      Store(path, kind, peer);
    }

    // the client at i answers: record, and send when nothing is missing any more
    method Reply(node: Element, ghost i: nat, path: string, kind: Kind, peer: int)
      requires Valid() && active && i < |lists.pending| && node == lists.pend.elems[i]
      modifies this`rsp, this`duplicates, this`sent, this`active, Held(), lists, lists.pend, lists.done,
               lists.Elements()
      ensures Valid() && Continues(old(rsp), rsp, kind) && Refs(lists.pending) == old(Refs(lists.pending)) - 1
      ensures Settled(old(lists.pending), lists.pending, old(lists.pending)[i].id)
      ensures StillBeating(old(lists.pending), lists.pending)
      ensures duplicates == old(duplicates) + (if old(Duplicate(path)) then 1 else 0)
      ensures Results() == old(Results()) + (if old(Duplicate(path)) then [] else [(path, peer)])
      ensures !active ==>
                rsp != null && rsp.num == expected
                && |sent| == 1 && sent[0].kind == rsp.kind && sent[0].result == rsp.result[..expected]
                && sent[0].clients == rsp.clients[..expected] && !sent[0].forced
                && (sent[0].kind == TypeLong ==> sent[0].finalResp == Print(MergedSum(sent[0].result)))
                && (sent[0].kind == TypeFile ==> sent[0].finalResp == "")
      ensures fresh(Held() - old(Held())) && lists.Elements() == old(lists.Elements())
    {
      Account(node, i, path, kind, peer);
      SendTaskResponse(false);
    }

    // update_moderator_info_with_task_response
    method TaskResponse(peer: int, kind: Kind, path: string)
      requires Valid()
      modifies this`rsp, this`duplicates, this`sent, this`active, Held(), lists, lists.pend, lists.done,
               lists.Elements()
      ensures Valid() && Continues(old(rsp), rsp, kind)
      ensures !old(active) || !Has(old(lists.pending), peer) ==>
                && lists.pending == old(lists.pending) && sent == old(sent) && active == old(active)
                && Results() == old(Results()) && duplicates == old(duplicates)
      ensures old(active) && Has(old(lists.pending), peer) ==>
                && Refs(lists.pending) == old(Refs(lists.pending)) - 1
                && Settled(old(lists.pending), lists.pending, peer) && StillBeating(old(lists.pending), lists.pending)
                && duplicates == old(duplicates) + (if old(Duplicate(path)) then 1 else 0)
                && Results() == old(Results()) + (if old(Duplicate(path)) then [] else [(path, peer)])
      ensures old(active) && !active ==>
                && rsp != null && rsp.num == expected
                && |sent| == 1 && sent[0].kind == rsp.kind && sent[0].result == rsp.result[..expected]
                && sent[0].clients == rsp.clients[..expected] && !sent[0].forced
                && (sent[0].kind == TypeLong ==> sent[0].finalResp == Print(MergedSum(sent[0].result)))
                && (sent[0].kind == TypeFile ==> sent[0].finalResp == "")
      ensures fresh(Held() - old(Held())) && lists.Elements() == old(lists.Elements())
    {
      if !active { return; }
      var node, i := lists.Find(peer);
      if node != null {
        Reply(node, i, path, kind, peer);
      }
    }

    // the "force cleanup" command: what has been recorded goes out as it is
    method ForceCleanup()
      requires Valid()
      modifies this`sent, this`active
      ensures Valid() && (old(active) && rsp != null ==>
                && !active && sent[0].forced && sent[0].kind == rsp.kind
                && sent[0].result == rsp.result[..rsp.num] && sent[0].clients == rsp.clients[..rsp.num])
      ensures !old(active) || rsp == null ==> sent == old(sent) && active == old(active)
    {
      if active {
        SendTaskResponse(true);
      }
    }

    // somebody is pending exactly when something is owed
    lemma PendingOwes(c: int)
      requires Valid()
      ensures Owes(lists.pending, c) >= 0 && (Has(lists.pending, c) <==> Owes(lists.pending, c) > 0)
    {
      assert Opened(OwingGate);
      if Has(lists.pending, c) {
        var i :| 0 <= i < |lists.pending| && lists.pending[i].id == c;
        OwesAt(lists.pending, i);
      } else {
        OwesNone(lists.pending, c);
      }
    }

    // while no client has been removed and no result discarded, and everything assigned is expected,
    // the answer is out exactly when nobody is pending any more
    lemma AnswersWhenNobodyPending()
      requires Valid() && tasks == expected && removed == 0 && duplicates == 0 && (!active ==> !sent[0].forced)
      ensures active <==> lists.pending != []
    {
      assert Opened(OwingGate);
      RefsZero(lists.pending);
    }

    // handle_moderator_update, on the client that takes the moderation over
    constructor Adopt(self: int, clients: seq<int>, expected: int)
      requires 1 <= expected < BYTE && Distinct(clients)
      ensures removed == 0 && duplicates == 0 && sent == []
      ensures Valid() && active && tasks == |clients| && rsp == null && this.expected == expected && this.self == self
      ensures lists.pending == Registered(clients) && fresh(lists) && fresh(lists.pend) && fresh(lists.done)
              && fresh(lists.Elements())
      ensures forall c :: Has(lists.pending, c) <==> c in clients
    {
      this.self, this.expected := self, expected;
      activeClients, echoes, alive, notified, state := |clients|, 0, [], [], TaskRspPending;
      rsp, active, sent := null, true, [];
      duplicates, removed, since := 0, 0, map c | c in clients :: 0;
      tasks := |clients|;
      var l := Enrolled(clients);
      lists := l;
      RegisteredIds(clients);
      RegisteredOwing(clients, map c | c in clients :: 0);
    }

    // moderator_echo_req_task_rsp_pending_state
    method EchoRequest(peer: int)
      requires Valid() && active
      modifies this`since, lists
      ensures Valid() && active && Refs(lists.pending) == old(Refs(lists.pending))
              && Refreshed(old(lists.pending), lists.pending, peer)
              && lists.Elements() == old(lists.Elements())
      ensures forall c :: Has(lists.pending, c) <==> Has(old(lists.pending), c)
    {
      assert Opened(OwingGate);
      var node, i := lists.Find(peer);
      if node != null {
        Refresh(node, i);
      }
    }

    method Refresh(node: Element, ghost i: nat)
      requires lists.Valid() && Lists() && i < |lists.pending| && node == lists.pend.elems[i]
      modifies this`since, lists`nodes, lists`pending
      ensures lists.Valid() && Lists() && Refs(lists.pending) == old(Refs(lists.pending))
      ensures lists.pending == old(lists.pending)[i := old(lists.pending)[i].(heartbeat := MAX_ALLOWED_KA_MISSES)]
      ensures forall c :: Has(lists.pending, c) <==> Has(old(lists.pending), c)
    {
      assert Opened(OwingGate);
      var n := lists.Get(node, i);
      n := n.(heartbeat := MAX_ALLOWED_KA_MISSES);
      var t := Changed(lists.pending, i, n, since);
      lists.Put(node, i, n);
      since := since[n.id := 0];
    }

    // moderator_task_rsp_pending_timeout
    method Timeout() returns (dead: seq<int>)
      requires Valid() && active
      modifies this`since, this`removed, lists, lists.pend, lists.done, lists.Elements()
      ensures Valid() && active && |dead| <= 1 && Passed(old(lists.pending), lists.pending, dead)
      ensures forall c :: Has(lists.pending, c) <==> Has(old(lists.pending), c) && c !in dead
      ensures forall c :: c in dead ==>
              c != self && Has(old(lists.pending), c) && c in old(since) && old(since)[c] >= MAX_ALLOWED_KA_MISSES
      ensures forall c :: Owes(lists.pending, c) == if c in dead then 0 else Owes(old(lists.pending), c)
      ensures removed - old(removed) == old(Refs(lists.pending)) - Refs(lists.pending)
              && (dead == [] ==> removed == old(removed))
      ensures lists.Elements() <= old(lists.Elements())
    {
      assert Opened(OwingGate);
      ghost var p, before := lists.pending, since;
      dead := Scan();
      PassedIds(p, lists.pending, dead, before);
      forall c ensures Owes(lists.pending, c) == if c in dead then 0 else Owes(p, c) {
        PassedOwes(p, lists.pending, dead, before, c);
      }
    }

    function Aged(n: ModNode): ModNode { if n.id == self then n else n.(heartbeat := n.heartbeat - 1) }

    // a pass takes one beat from every client but the moderator, up to the first that has none left, which goes
    ghost predicate Passed(s: seq<ModNode>, t: seq<ModNode>, dead: seq<int>) {
      if dead == [] then |t| == |s| && (forall k :: 0 <= k < |s| ==>
          t[k] == Aged(s[k]) && (s[k].id != self ==> s[k].heartbeat > 0))
      else exists i :: PassedTo(s, t, dead, i)
    }

    ghost predicate PassedTo(s: seq<ModNode>, t: seq<ModNode>, dead: seq<int>, i: int) {
      && 0 <= i < |s| && dead == [s[i].id] && s[i].id != self && s[i].heartbeat == 0 && |t| == |s| - 1
      && (forall k :: 0 <= k < i ==> t[k] == Aged(s[k]) && (s[k].id != self ==> s[k].heartbeat > 0))
      && (forall k :: i <= k < |t| ==> t[k] == s[k + 1])
    }

    // the heartbeats up to i have been taken
    ghost predicate Ticked(s: seq<ModNode>, t: seq<ModNode>, i: nat) {
      && |t| == |s|
      && forall k :: 0 <= k < |s| ==>
          t[k] == (if k < i then Aged(s[k]) else s[k]) && (k < i && s[k].id != self ==> s[k].heartbeat > 0)
    }

    // one beat from the client at i; when it has none left, it leaves the list
    method Beat(node: Element, ghost i: nat) returns (expired: bool)
      requires lists.Valid() && Lists() && i < |lists.pending| && node == lists.pend.elems[i]
      requires var n := lists.pending[i]; n.id in since && since[n.id] > MAX_ALLOWED_KA_MISSES - n.heartbeat
      modifies this`removed, lists, lists.pend, lists.done, lists.Elements()
      ensures lists.Valid() && Lists() && expired == (old(lists.pending)[i].heartbeat == 0)
      ensures Refs(lists.pending) + removed == old(Refs(lists.pending) + removed)
      ensures var s, t, n := old(lists.pending), lists.pending, old(lists.pending)[i];
              if expired then
                t == Shortened(s, i) && node.next == null && lists.Elements() <= old(lists.Elements())
              else
                && t == s[i := n.(heartbeat := n.heartbeat - 1)] && removed == old(removed)
                && lists.pend.elems == old(lists.pend.elems) && lists.Elements() == old(lists.Elements())
    {
      assert Opened(OwingGate);
      var n := lists.Get(node, i);
      expired := n.heartbeat == 0;
      n := n.(heartbeat := (n.heartbeat - 1) % BYTE);
      if expired {
        var t := AfterLeavingWith(lists.pending, i, n, since);
        removed := removed + n.refCount;
        lists.Put(node, i, n);
        lists.Drop(node, i);
      } else {
        var t := Changed(lists.pending, i, n, since);
        lists.Put(node, i, n);
      }
    }

    method Visit(node: Element, ghost i: nat, ghost p: seq<ModNode>, ghost before: map<int, nat>)
        returns (expired: bool)
      requires lists.Valid() && Lists() && i < |lists.pending| && node == lists.pend.elems[i]
      requires Ticked(p, lists.pending, i) && InOrder(p, before) && since == Later(before)
      modifies this`removed, lists, lists.pend, lists.done, lists.Elements()
      ensures lists.Valid() && Lists() && lists.Elements() <= old(lists.Elements())
      ensures Refs(lists.pending) + removed == old(Refs(lists.pending) + removed)
      ensures !expired ==>
                removed == old(removed) && node.next == Or(lists.pend.elems, i + 1) && Ticked(p, lists.pending, i + 1)
      ensures expired ==> node.next == null && PassedTo(p, lists.pending, [old(lists.pending)[i].id], i)
    {
      assert Opened(OwingGate);
      expired := false;
      var n := lists.Get(node, i);
      if n.id != self {
        expired := Beat(node, i);
      }
      if !expired { lists.Next(i); }
    }

    // the walk over the pending list. It goes on from the node just unlinked, which has no next any more
    method Scan() returns (dead: seq<int>)
      requires lists.Valid() && Lists()
      modifies this`since, this`removed, lists, lists.pend, lists.done, lists.Elements()
      ensures lists.Valid() && Lists() && |dead| <= 1 && Passed(old(lists.pending), lists.pending, dead)
      ensures Refs(lists.pending) + removed == old(Refs(lists.pending) + removed)
              && (dead == [] ==> removed == old(removed))
      ensures lists.Elements() <= old(lists.Elements())
    {
      ghost var before := since;
      Aging(lists.pending, before);
      since := Later(since);
      dead := Walk(before);
    }

    method Walk(ghost before: map<int, nat>) returns (dead: seq<int>)
      requires lists.Valid() && Lists() && InOrder(lists.pending, before) && since == Later(before)
      modifies this`removed, lists, lists.pend, lists.done, lists.Elements()
      ensures lists.Valid() && Lists() && |dead| <= 1 && Passed(old(lists.pending), lists.pending, dead)
      ensures Refs(lists.pending) + removed == old(Refs(lists.pending) + removed)
              && (dead == [] ==> removed == old(removed))
      ensures lists.Elements() <= old(lists.Elements())
    {
      dead := [];
      ghost var p, i := lists.pending, 0;
      var node := lists.First();
      while node != null
        invariant lists.Valid() && Lists() && lists.Elements() <= old(lists.Elements())
        invariant Refs(lists.pending) + removed == old(Refs(lists.pending) + removed)
                  && (dead == [] ==> removed == old(removed))
        invariant if node != null then dead == [] && node == Or(lists.pend.elems, i) && Ticked(p, lists.pending, i)
                  else |dead| <= 1 && Passed(p, lists.pending, dead)
        decreases if node == null then 0 else |lists.pending| - i
      {
        var n := lists.Get(node, i);
        var expired := Visit(node, i, p, before);
        if expired {
          dead := dead + [n.id];
          assert PassedTo(p, lists.pending, dead, i);
        }
        node := node.next;
        i := i + 1;
      }
    }

    lemma PassedIds(s: seq<ModNode>, t: seq<ModNode>, dead: seq<int>, since: map<int, nat>)
      requires Owing(s, since) && Passed(s, t, dead)
      ensures forall c :: Has(t, c) <==> Has(s, c) && c !in dead
      ensures forall c :: c in dead ==> c != self && Has(s, c) && c in since && since[c] >= MAX_ALLOWED_KA_MISSES
    {
      var i := |s|;
      if dead != [] { i :| PassedTo(s, t, dead, i); }
      assert forall k :: 0 <= k < |t| ==> t[k].id == s[if k < i then k else k + 1].id;
      forall c | Has(s, c) && c !in dead ensures Has(t, c) {
        var k :| 0 <= k < |s| && s[k].id == c;
        assert t[if k < i then k else k - 1].id == c;
      }
    }

    // who stays owes what it owed
    lemma PassedOwes(s: seq<ModNode>, t: seq<ModNode>, dead: seq<int>, since: map<int, nat>, c: int)
      requires Owing(s, since) && DistinctIds(t) && Passed(s, t, dead)
      ensures Owes(t, c) == if c in dead then 0 else Owes(s, c)
    {
      PassedIds(s, t, dead, since);
      if Has(t, c) {
        var i := |s|;
        if dead != [] { i :| PassedTo(s, t, dead, i); }
        var k :| 0 <= k < |t| && t[k].id == c;
        var j := if k < i then k else k + 1;
        assert t[k].refCount == s[j].refCount && s[j].id == c;
        OwesAt(t, k);
        OwesAt(s, j);
      } else {
        OwesNone(t, c);
        if c !in dead { OwesNone(s, c); }
      }
    }
  }

  lemma Aging(s: seq<ModNode>, since: map<int, nat>)
    requires InOrder(s, since)
    ensures InOrder(s, Later(since))
  {
  }

  ghost function Later(since: map<int, nat>): map<int, nat> { map c | c in since :: since[c] + 1 }

  lemma PrefixNext(s: seq<int>, i: nat)
    requires i < |s|
    ensures multiset(s[..i])[s[i]] < multiset(s)[s[i]]
    ensures forall c :: multiset(s[..i + 1])[c] == multiset(s[..i])[c] + if c == s[i] then 1 else 0
    ensures forall c :: c in s[..i + 1] <==> c in s[..i] || c == s[i]
  {
    assert s == s[..i] + ([s[i]] + s[i + 1..]);
    assert s[..i + 1] == s[..i] + [s[i]];
  }

  // the new list of a moderator that takes over
  method Enrolled(clients: seq<int>) returns (lists: ClientLists)
    ensures lists.Valid() && lists.pending == Registered(clients) && lists.finished == []
    ensures fresh(lists) && fresh(lists.pend) && fresh(lists.done) && fresh(lists.Elements())
  {
    lists := new ClientLists();
    var i := 0;
    while i < |clients|
      invariant 0 <= i <= |clients| && lists.Valid() && fresh(lists.Elements())
      invariant lists.pending == Registered(clients[..i]) && lists.finished == []
    {
      assert clients[..i + 1] == clients[..i] + [clients[i]];
      RegisteredNext(clients[..i], clients[i]);
      lists.Allocate(clients[i]);
      i := i + 1;
    }
    assert clients[..|clients|] == clients;
  }

  lemma RegisteredNext(clients: seq<int>, c: int)
    ensures Registered(clients + [c]) == [ModNode(c, 1, MAX_ALLOWED_KA_MISSES)] + Registered(clients)
  {
  }

  lemma RegisteredOwing(clients: seq<int>, since: map<int, nat>)
    requires Distinct(clients) && forall c :: c in clients ==> c in since
    ensures Owing(Registered(clients), since)
  {
    var r := Registered(clients);
    forall i | 0 <= i < |r| ensures HeardOf(r[i], since) {
      assert clients[|clients| - 1 - i] in clients;
    }
  }

  function Registered(clients: seq<int>): (r: seq<ModNode>)
    ensures |r| == |clients|
    ensures forall i :: 0 <= i < |r| ==> r[i] == ModNode(clients[|clients| - 1 - i], 1, MAX_ALLOWED_KA_MISSES)
  {
    if clients == [] then []
    else Registered(clients[1..]) + [ModNode(clients[0], 1, MAX_ALLOWED_KA_MISSES)]
  }

  lemma {:induction false} RegisteredIds(clients: seq<int>)
    ensures Refs(Registered(clients)) == |clients| && forall c :: Has(Registered(clients), c) <==> c in clients
  {
    var r := Registered(clients);
    if clients != [] {
      RegisteredIds(clients[1..]);
      RefsJoin(Registered(clients[1..]), [ModNode(clients[0], 1, MAX_ALLOWED_KA_MISSES)]);
    }
    forall c | c in clients ensures Has(r, c) {
      var k :| 0 <= k < |clients| && clients[k] == c;
      assert r[|clients| - 1 - k].id == c;
    }
  }

  lemma SameIds(s: seq<ModNode>, i: nat, n: ModNode)
    requires i < |s| && DistinctIds(s) && n.id == s[i].id
    ensures DistinctIds(s[i := n]) && forall c :: Has(s[i := n], c) <==> Has(s, c)
  {
    var t := s[i := n];
    assert forall k :: 0 <= k < |s| ==> t[k].id == s[k].id;
    forall c ensures Has(t, c) <==> Has(s, c) {
      if Has(s, c) {
        var k :| 0 <= k < |s| && s[k].id == c;
        assert t[k].id == c;
      }
    }
  }

  lemma WithoutIds(s: seq<ModNode>, i: nat)
    requires i < |s| && DistinctIds(s)
    ensures DistinctIds(s[..i] + s[i + 1..])
    ensures forall c :: Has(s[..i] + s[i + 1..], c) <==> Has(s, c) && c != s[i].id
  {
    var t := s[..i] + s[i + 1..];
    assert forall k :: 0 <= k < |t| ==> t[k] == if k < i then s[k] else s[k + 1];
    forall c | Has(s, c) && c != s[i].id ensures Has(t, c) {
      var k :| 0 <= k < |s| && s[k].id == c;
      assert t[if k < i then k else k - 1].id == c;
    }
  }
}
