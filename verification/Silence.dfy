// A moderator that hears nothing from its clients.
module Silence {
  import opened Basics
  import opened ModeratorLists
  import opened Moderation

  // every client but the moderator has the same number of heartbeats left
  ghost predicate Level(s: seq<ModNode>, self: int, h: int) {
    forall k :: 0 <= k < |s| ==> s[k].id != self ==> s[k].heartbeat == h
  }

  ghost predicate SameOrder(s: seq<ModNode>, t: seq<ModNode>) {
    |s| == |t| && forall k :: 0 <= k < |s| ==> s[k].id == t[k].id && s[k].refCount == t[k].refCount
  }

  // the first client in the list that is not the moderator
  ghost predicate FirstOther(s: seq<ModNode>, self: int, i: int) {
    0 <= i < |s| && s[i].id != self && forall k :: 0 <= k < i ==> s[k].id == self
  }

  lemma LevelPass(m: Moderator, s: seq<ModNode>, t: seq<ModNode>, dead: seq<int>, h: int, i: int)
    requires m.Passed(s, t, dead) && Level(s, m.self, h) && FirstOther(s, m.self, i) && h >= 0
    ensures if h > 0 then dead == [] && Level(t, m.self, h - 1) && SameOrder(s, t) else dead == [s[i].id]
  {
    if dead != [] {
      var j :| m.PassedTo(s, t, dead, j);
      assert s[j].heartbeat == h;
    } else {
      assert s[i].heartbeat > 0;
    }
  }

  method OnePass(m: Moderator, ghost h: int, ghost i: int) returns (dead: seq<int>)
    requires m.Valid() && m.active && h >= 0 && Level(m.lists.pending, m.self, h)
             && FirstOther(m.lists.pending, m.self, i)
    modifies m`since, m`removed, m.lists, m.lists.pend, m.lists.done, m.lists.Elements()
    ensures m.Valid() && m.active && m.lists.Elements() <= old(m.lists.Elements())
    ensures h > 0 ==> dead == [] && Level(m.lists.pending, m.self, h - 1)
    ensures h > 0 ==> SameOrder(old(m.lists.pending), m.lists.pending)
    ensures h == 0 ==> dead == [old(m.lists.pending)[i].id]
  {
    ghost var before := m.lists.pending;
    dead := m.Timeout();
    LevelPass(m, before, m.lists.pending, dead, h, i);
  }

  // a moderator that has just taken over and hears from nobody: five passes give nobody up, and the sixth gives up the
  // last client of the list it was handed that is not itself
  method SixPasses(self: int, ids: seq<int>, expected: int, last: nat) returns (givenUp: seq<seq<int>>)
    requires 1 <= expected < 256 && Distinct(ids) && last < |ids| && ids[last] != self
    requires forall k :: last < k < |ids| ==> ids[k] == self
    ensures givenUp == [[], [], [], [], [], [ids[last]]]
  {
    var m := new Moderator.Adopt(self, ids, expected);
    ghost var s, i := m.lists.pending, |ids| - 1 - last;
    assert FirstOther(s, self, i) && s[i].id == ids[last];
    givenUp := [];
    var n := 0;
    while n < 5
      invariant 0 <= n <= 5 && m.Valid() && m.active && m.self == self
      invariant Level(m.lists.pending, self, 5 - n) && SameOrder(s, m.lists.pending)
      invariant |givenUp| == n && forall k :: 0 <= k < n ==> givenUp[k] == []
      invariant fresh(m) && fresh(m.lists) && fresh(m.lists.pend) && fresh(m.lists.done) && fresh(m.lists.Elements())
    {
      assert FirstOther(m.lists.pending, self, i);
      var dead := OnePass(m, 5 - n, i);
      givenUp := givenUp + [dead];
      n := n + 1;
    }
    assert FirstOther(m.lists.pending, self, i) && m.lists.pending[i].id == ids[last];
    var dead := OnePass(m, 0, i);
    givenUp := givenUp + [dead];
  }
}
