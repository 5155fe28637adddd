// The standby server: it replays the checkpoints of the primary, in order.
module Replication {
  import opened RegistryModel

  datatype Checkpoint = Add(client: int, name: string, capability: int) | Del(client: int, name: string,
      capability: int)

  // the checkpoint the primary sends while serving a request
  function Emitted(r: Registry, q: Request): seq<Checkpoint> {
    match q
    case JoinReq(c, name, cap) =>
      var i := Lookup(r.groups, name);
      if i < |r.groups| && c > 0 then [Add(c, r.groups[i].name, cap)] else []
    case LeaveReq(c, name) =>
      if Listed(r, c, name) && Named(r.groups, name) < |r.groups| then [Del(c, name, r.nodes[c].capability)] else []
  }

  // handle_checkpoint_req
  function Applied(r: Registry, c: Checkpoint): Registry {
    match c
    case Add(client, name, cap) => Enter(r, Lookup(r.groups, name), client, cap)
    case Del(client, name, _) => Leave(r, client, name)
  }

  function AsRequest(c: Checkpoint): Request {
    match c
    case Add(client, name, cap) => JoinReq(client, name, cap)
    case Del(client, name, _) => LeaveReq(client, name)
  }

  datatype Servers = Servers(primary: Registry, backup: Registry, channel: seq<Checkpoint>)
  // a join message carries several names
  datatype Happening = Request(q: Request) | Batch(client: int, names: seq<string>, capability: int) | Deliver

  // what a message asks for, as one request after the other
  function Asked(r: Registry, e: Happening): seq<Request> {
    match e
    case Request(q) => [q]
    case Batch(client, names, cap) => Resolved(r.groups, names, client, cap, |r.groups|)
    case Deliver => []
  }

  function Moved(s: Servers, e: Happening): Servers {
    match e
    case Request(q) => Servers(Serve(s.primary, q), s.backup, s.channel + Emitted(s.primary, q))
    case Batch(client, names, cap) =>
      Servers(JoinAll(s.primary, names, client, cap, |s.primary.groups|).0, s.backup,
          s.channel + Emissions(s.primary, Asked(s.primary, e)))
    case Deliver => if s.channel == [] then s else Servers(s.primary, Applied(s.backup, s.channel[0]), s.channel[1..])
  }

  function System(r: Registry, es: seq<Happening>): Servers {
    if es == [] then Servers(r, r, []) else Moved(System(r, es[..|es| - 1]), es[|es| - 1])
  }

  // all that the primary, starting from r, has been asked for
  function Requests(r: Registry, es: seq<Happening>): seq<Request> {
    if es == [] then []
    else
      var before := es[..|es| - 1];
      Requests(r, before) + Asked(System(r, before).primary, es[|es| - 1])
  }

  function Emissions(r: Registry, qs: seq<Request>): seq<Checkpoint>
    decreases |qs|
  {
    if qs == [] then [] else Emitted(r, qs[0]) + Emissions(Serve(r, qs[0]), qs[1..])
  }

  ghost predicate Addressed(qs: seq<Request>) { forall i :: 0 <= i < |qs| ==> qs[i].client > 0 }

  lemma ServeKeepsNames(r: Registry, q: Request)
    requires NamesApart(r.groups)
    ensures NamesApart(Serve(r, q).groups)
  {
    match q {
      case JoinReq(c, name, cap) =>
        var i := Lookup(r.groups, name);
        if i < |r.groups| { RenamedGroup(r.groups, i, Entered(r.groups[i], c, cap), name); }
      case LeaveReq(c, name) =>
        var i := Named(r.groups, name);
        if Listed(r, c, name) && i < |r.groups| { RenamedGroup(r.groups, i,
            Left(r.groups[i], c, r.nodes[c].capability), name); }
    }
  }

  // a served request is exactly what its checkpoint replays
  lemma ServeIsReplayed(r: Registry, q: Request)
    requires NamesApart(r.groups) && q.client > 0
    ensures Serve(r, q) == if Emitted(r, q) == [] then r else Applied(r, Emitted(r, q)[0])
    ensures |Emitted(r, q)| <= 1
  {
    if q.JoinReq? && Lookup(r.groups, q.name) < |r.groups| { NamedAt(r.groups, Lookup(r.groups, q.name)); }
  }

  lemma {:induction false} RunExtends(r: Registry, qs: seq<Request>, more: seq<Request>)
    ensures Run(r, qs + more) == Run(Run(r, qs), more)
    ensures Emissions(r, qs + more) == Emissions(r, qs) + Emissions(Run(r, qs), more)
    decreases |qs|
  {
    if qs == [] {
      assert qs + more == more;
    } else {
      assert (qs + more)[1..] == qs[1..] + more;
      RunExtends(Serve(r, qs[0]), qs[1..], more);
      var e := Emitted(r, qs[0]);
      assert e + (Emissions(Serve(r, qs[0]), qs[1..]) + Emissions(Run(r, qs), more))
          == Emissions(r, qs) + Emissions(Run(r, qs), more);
    }
  }

  lemma {:induction false} RunSplits(r: Registry, qs: seq<Request>, k: nat)
    requires k <= |qs|
    ensures Run(r, qs) == Run(Run(r, qs[..k]), qs[k..])
    decreases |qs|
  {
    if k > 0 {
      assert qs[..k][1..] == qs[1..][..k - 1] && qs[1..][k - 1..] == qs[k..];
      RunSplits(Serve(r, qs[0]), qs[1..], k - 1);
    } else {
      assert qs[0..] == qs;
    }
  }

  lemma {:induction false} RunKeepsNames(r: Registry, qs: seq<Request>)
    requires NamesApart(r.groups)
    ensures NamesApart(Run(r, qs).groups)
    decreases |qs|
  {
    if qs != [] { ServeKeepsNames(r, qs[0]); RunKeepsNames(Serve(r, qs[0]), qs[1..]); }
  }

  // with nothing to replay nothing has changed
  lemma {:induction false} QuietRun(r: Registry, qs: seq<Request>)
    requires NamesApart(r.groups) && Addressed(qs) && Emissions(r, qs) == []
    ensures Run(r, qs) == r
    decreases |qs|
  {
    if qs != [] { ServeIsReplayed(r, qs[0]); QuietRun(Serve(r, qs[0]), qs[1..]); }
  }

  // replaying the first checkpoint moves on to a later point of the same run
  lemma {:induction false} NextPoint(r: Registry, qs: seq<Request>) returns (j: nat)
    requires NamesApart(r.groups) && Addressed(qs) && Emissions(r, qs) != []
    ensures j <= |qs| && Run(r, qs[..j]) == Applied(r, Emissions(r, qs)[0])
    ensures Emissions(Run(r, qs[..j]), qs[j..]) == Emissions(r, qs)[1..]
    decreases |qs|
  {
    ServeIsReplayed(r, qs[0]);
    if Emitted(r, qs[0]) != [] {
      j := 1;
      RunFirst(r, qs, 1);
    } else {
      j := NextPoint(Serve(r, qs[0]), qs[1..]);
      j := j + 1;
      RunFirst(r, qs, j);
    }
  }

  lemma RunFirst(r: Registry, qs: seq<Request>, j: nat)
    requires 0 < j <= |qs|
    ensures Run(r, qs[..j]) == Run(Serve(r, qs[0]), qs[1..][..j - 1]) && qs[j..] == qs[1..][j - 1..]
  {
    assert qs[..j][1..] == qs[1..][..j - 1];
  }

  // the backup stands where the primary stood after k requests; the rest is in flight
  ghost predicate StandsAt(r: Registry, qs: seq<Request>, s: Servers, k: nat) {
    k <= |qs| && s.backup == Run(r, qs[..k]) && s.channel == Emissions(s.backup, qs[k..])
  }

  // a message is the run of what it asks for, and sends the checkpoints of that run
  lemma MessageIsRun(s: Servers, e: Happening)
    requires NamesApart(s.primary.groups) && !e.Deliver?
    ensures var t, qs := Moved(s, e), Asked(s.primary, e);
            t.primary == Run(s.primary, qs) && t.backup == s.backup && t.channel == s.channel + Emissions(s.primary, qs)
  {
    match e {
      case Request(q) =>
        assert [q][1..] == [];
        assert Emissions(s.primary, [q]) == Emitted(s.primary, q) + [] == Emitted(s.primary, q);
      case Batch(client, names, cap) => JoinAllIsResolvedRun(s.primary, names, client, cap, |s.primary.groups|);
    }
  }

  lemma MessageKeepsStanding(r: Registry, qs: seq<Request>, s: Servers, k: nat, e: Happening)
    requires NamesApart(r.groups) && StandsAt(r, qs, s, k) && s.primary == Run(r, qs) && !e.Deliver?
    ensures var t, more := Moved(s, e), Asked(s.primary, e);
            StandsAt(r, qs + more, t, k) && t.primary == Run(r, qs + more)
  {
    RunKeepsNames(r, qs);
    MessageIsRun(s, e);
    LaterRequests(r, qs, k, Asked(s.primary, e));
  }

  lemma LaterRequests(r: Registry, qs: seq<Request>, k: nat, more: seq<Request>)
    requires k <= |qs|
    ensures Run(r, qs + more) == Run(Run(r, qs), more) && (qs + more)[..k] == qs[..k]
    ensures var b := Run(r, qs[..k]);
            Emissions(b, (qs + more)[k..]) == Emissions(b, qs[k..]) + Emissions(Run(r, qs), more)
  {
    var all, rest := qs + more, qs[k..];
    assert all[..k] == qs[..k];
    assert all[k..] == rest + more;
    RunSplits(r, qs, k);
    RunExtends(r, qs, more);
    RunExtends(Run(r, qs[..k]), rest, more);
  }

  lemma DeliverMovesOn(r: Registry, qs: seq<Request>, s: Servers, k: nat) returns (l: nat)
    requires NamesApart(r.groups) && Addressed(qs) && StandsAt(r, qs, s, k)
    ensures StandsAt(r, qs, Moved(s, Deliver), l) && k <= l
  {
    l := k;
    if s.channel != [] {
      RunKeepsNames(r, qs[..k]);
      var rest := qs[k..];
      var j := NextPoint(s.backup, rest);
      l := k + j;
      assert qs[..l][..k] == qs[..k];
      assert qs[..l][k..] == rest[..j];
      assert rest[j..] == qs[l..];
      RunSplits(r, qs[..l], k);
    }
  }

  lemma {:induction false} BackupFollows(r: Registry, es: seq<Happening>) returns (k: nat)
    requires NamesApart(r.groups) && Addressed(Requests(r, es))
    ensures System(r, es).primary == Run(r, Requests(r, es))
    ensures StandsAt(r, Requests(r, es), System(r, es), k)
  {
    if es == [] {
      k := 0;
    } else {
      var before, e := es[..|es| - 1], es[|es| - 1];
      var qs, s := Requests(r, before), System(r, before);
      assert forall i :: 0 <= i < |qs| ==> Requests(r, es)[i] == qs[i];
      k := BackupFollows(r, before);
      if e.Deliver? {
        assert Requests(r, es) == qs;
        k := DeliverMovesOn(r, qs, s, k);
      } else {
        MessageKeepsStanding(r, qs, s, k, e);
      }
    }
  }

  // on every run the backup's registry is one the primary had, and the present one when nothing is in flight
  lemma BackupConsistent(r: Registry, es: seq<Happening>)
    requires NamesApart(r.groups) && Addressed(Requests(r, es))
    ensures exists k :: 0 <= k <= |Requests(r, es)| && System(r, es).backup == Run(r, Requests(r, es)[..k])
    ensures System(r, es).channel == [] ==> System(r, es).backup == System(r, es).primary
  {
    var k := BackupFollows(r, es);
    var qs, s := Requests(r, es), System(r, es);
    RunKeepsNames(r, qs[..k]);
    RunSplits(r, qs, k);
    if s.channel == [] { QuietRun(s.backup, qs[k..]); }
  }
}
