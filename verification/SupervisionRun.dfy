// Whether a moderator waits for the right clients, over everything that can happen to it and to the server's map:
// passes and their reports, answers, requests on their way, the loss of a moderator and its succession.
module SupervisionRun {

  // the clients the moderator waits for, those in the server's map, and those that the requests on their way to the
  // moderator name
  datatype Scene = Scene(waiting: set<int>, working: set<int>, mail: seq<set<int>>)

  // a pass without a report, or an echo; a client reported dead, and the request this leads to; an answer; a request
  // that arrives; a moderator that is given up, and another one that gets the waiting files
  datatype Episode =
    | Calm | Death(dead: int, to: set<int>) | Reply(peer: int) | Delivery | Loss(moderator: int)
    | Succession(to: set<int>)

  // a request names clients in the map, or client zero when nobody is left
  predicate Addresses(to: set<int>, working: set<int>) { if working == {} then to <= {0} else to <= working }

  predicate Unfolds(a: Scene, e: Episode, b: Scene) {
    match e
    case Calm => b == a
    case Death(dead, to) =>
      && dead in a.waiting && dead in a.working && Addresses(to, b.working)
      && b == Scene(a.waiting - {dead}, a.working - {dead}, a.mail + [to])
    case Reply(peer) => b == a || b == a.(waiting := a.waiting - {peer})
    case Delivery => a.mail != [] && b == a.(waiting := a.waiting + a.mail[0], mail := a.mail[1..])
    case Loss(moderator) => b == Scene({}, a.working - {moderator}, []) || b == Scene({}, {}, [])
    case Succession(to) => b == Scene(a.working, a.working, [to]) && Addresses(to, b.working)
  }

  ghost predicate IsSceneRun(run: seq<Scene>, episodes: seq<Episode>) {
    |run| == |episodes| + 1 && forall k :: 0 <= k < |episodes| ==> Unfolds(run[k], episodes[k], run[k + 1])
  }

  // the moderator waits for clients in the map only, and no request on its way will change that
  ghost predicate InTouch(a: Scene) {
    a.waiting <= a.working && forall k :: 0 <= k < |a.mail| ==> a.mail[k] <= a.working
  }

  // no client is reported that a request on its way names, and somebody is left to do the work
  ghost predicate OnTime(a: Scene, e: Episode) {
    match e
    case Death(dead, to) =>
      (forall k :: 0 <= k < |a.mail| ==> dead !in a.mail[k]) && (a.working == {dead} ==> to == {})
    case Succession(to) => a.working == {} ==> to == {}
    case _ => true
  }

  lemma EpisodeKeepsTouch(a: Scene, e: Episode, b: Scene)
    requires Unfolds(a, e, b) && InTouch(a) && 0 !in a.working
    ensures (InTouch(b) <==> OnTime(a, e)) && 0 !in b.working
  {
    match e {
      case Death(dead, to) =>
        assert forall k :: 0 <= k < |a.mail| ==> b.mail[k] == a.mail[k];
        assert b.mail[|a.mail|] == to;
        assert a.working == b.working + {dead};
      case Delivery => assert forall k :: 0 <= k < |b.mail| ==> b.mail[k] == a.mail[k + 1];
      case Succession(to) => assert b.mail[0] == to;
      case _ =>
    }
  }

  // over any run the moderator waits for clients in the map only, and so do the requests on their way, exactly when
  // every report and every succession is on time
  lemma {:induction false} RunStaysInTouch(run: seq<Scene>, episodes: seq<Episode>)
    requires IsSceneRun(run, episodes) && InTouch(run[0]) && 0 !in run[0].working
    ensures (forall k :: 0 <= k < |run| ==> InTouch(run[k])) <==>
            (forall k :: 0 <= k < |episodes| ==> OnTime(run[k], episodes[k]))
  {
    if episodes != [] {
      var n := |episodes| - 1;
      var before, so := run[..n + 1], episodes[..n];
      forall k | 0 <= k < n ensures Unfolds(before[k], so[k], before[k + 1]) {
        assert Unfolds(run[k], episodes[k], run[k + 1]);
      }
      RunStaysInTouch(before, so);
      assert forall k :: 0 <= k <= n ==> before[k] == run[k];
      assert forall k :: 0 <= k < n ==> so[k] == episodes[k];
      NobodyIsZero(before, so);
      assert Unfolds(run[n], episodes[n], run[n + 1]);
      if InTouch(run[n]) { EpisodeKeepsTouch(run[n], episodes[n], run[n + 1]); }
      assert (forall k :: 0 <= k < |run| ==> InTouch(run[k])) <==>
             (forall k :: 0 <= k < |before| ==> InTouch(before[k])) && InTouch(run[n + 1]);
    }
  }

  lemma {:induction false} NobodyIsZero(run: seq<Scene>, episodes: seq<Episode>)
    requires IsSceneRun(run, episodes) && 0 !in run[0].working
    ensures 0 !in run[|episodes|].working
  {
    if episodes != [] {
      var n := |episodes| - 1;
      var before, so := run[..n + 1], episodes[..n];
      forall k | 0 <= k < n ensures Unfolds(before[k], so[k], before[k + 1]) {
        assert Unfolds(run[k], episodes[k], run[k + 1]);
      }
      NobodyIsZero(before, so);
      assert Unfolds(run[n], episodes[n], run[n + 1]);
    }
  }

  // a request that comes too late: b is reported, and c gets its file; c is reported before the moderator has heard of
  // that; then the request arrives, and the moderator waits for a client that no map lists any more
  lemma LateRequest(working: set<int>, b: int, c: int, to: set<int>, run: seq<Scene>)
    requires IsSceneRun(run, [Death(b, {c}), Death(c, to), Delivery]) && run[0] == Scene(working, working, [])
    ensures c in run[3].waiting && c !in run[3].working
  {
    var e := [Death(b, {c}), Death(c, to), Delivery];
    assert Unfolds(run[0], e[0], run[1]) && Unfolds(run[1], e[1], run[2]) && Unfolds(run[2], e[2], run[3]);
  }

  // and there is such a run for any three clients
  lemma LateRequestRun(a: int, b: int, c: int) returns (run: seq<Scene>)
    requires a != b && b != c && a != c
    ensures run != [] && run[0] == Scene({a, b, c}, {a, b, c}, [])
    ensures IsSceneRun(run, [Death(b, {c}), Death(c, {a}), Delivery])
  {
    var all := {a, b, c};
    run := [Scene(all, all, []), Scene(all - {b}, all - {b}, [{c}]),
        Scene(all - {b} - {c}, all - {b} - {c}, [{c}, {a}]),
            Scene(all - {b} - {c} + {c}, all - {b} - {c}, [{a}])];
    var e := [Death(b, {c}), Death(c, {a}), Delivery];
    assert [{c}] + [{a}] == [{c}, {a}] && [{c}, {a}][1..] == [{a}] && [] + [{c}] == [{c}];
    assert Unfolds(run[0], e[0], run[1]) && Unfolds(run[1], e[1], run[2]) && Unfolds(run[2], e[2], run[3]);
  }
}
