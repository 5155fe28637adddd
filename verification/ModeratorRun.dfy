// What a moderator goes through between its first request and its answer, counted: whether an answer can go out
// at all.
module ModeratorRun {
  import opened Basics
  import opened ModeratorLists
  import opened Moderation

  // results that are owed, that are recorded and that are expected
  datatype Tally = Tally(owed: int, recorded: int, expected: int, active: bool)

  // a result that was owed, kept or discarded as a duplicate; a client given up with what it owed; resent files;
  // anything else
  datatype Turn = Response(kept: bool) | Dropped(owed: int) | Assigned(count: nat) | Quiet

  predicate Tallied(a: Tally, t: Turn, b: Tally) {
    a.active &&
    match t
    case Response(kept) =>
      var recorded := a.recorded + if kept then 1 else 0;
      b == Tally(a.owed - 1, recorded, a.expected, recorded < a.expected)
    case Dropped(owed) => b == a.(owed := a.owed - owed)
    case Assigned(count) => b == a.(owed := a.owed + count)
    case Quiet => b == a
  }

  ghost predicate IsTallyRun(run: seq<Tally>, turns: seq<Turn>) {
    |run| == |turns| + 1 && forall k :: 0 <= k < |turns| ==> Tallied(run[k], turns[k], run[k + 1])
  }

  // how a turn changes what can still come to be recorded: files are added, duplicates discarded, clients given up
  function AddedBy(t: Turn): int { if t.Assigned? then t.count else 0 }

  function DiscardedBy(t: Turn): int { if t == Response(false) then 1 else 0 }

  function GivenUpBy(t: Turn): int { if t.Dropped? then t.owed else 0 }

  function Worth(t: Turn): int { AddedBy(t) - DiscardedBy(t) - GivenUpBy(t) }

  function Over(f: Turn -> int, turns: seq<Turn>): int {
    if turns == [] then 0 else f(turns[0]) + Over(f, turns[1..])
  }

  function Gain(turns: seq<Turn>): int { Over(Worth, turns) }

  lemma {:induction false} OverMore(f: Turn -> int, turns: seq<Turn>, t: Turn)
    ensures Over(f, turns + [t]) == Over(f, turns) + f(t)
  {
    if turns != [] {
      assert (turns + [t])[1..] == turns[1..] + [t];
      OverMore(f, turns[1..], t);
    }
  }

  lemma {:induction false} GainAddsUp(turns: seq<Turn>)
    ensures Gain(turns) == Over(AddedBy, turns) - Over(DiscardedBy, turns) - Over(GivenUpBy, turns)
  {
    if turns != [] { GainAddsUp(turns[1..]); }
  }

  lemma {:induction false} NothingGetsLost(run: seq<Tally>, turns: seq<Turn>)
    requires IsTallyRun(run, turns) && run[0].recorded < run[0].expected && run[0].active
    ensures var a, b := run[0], run[|turns|];
            && b.owed + b.recorded == a.owed + a.recorded + Gain(turns) && b.expected == a.expected
            && b.recorded <= b.expected && b.active == (b.recorded < b.expected)
  {
    if turns != [] {
      var later, rest := run[1..], turns[1..];
      assert Tallied(run[0], turns[0], run[1]);
      forall k | 0 <= k < |rest| ensures Tallied(later[k], rest[k], later[k + 1]) {
        assert Tallied(run[k + 1], turns[k + 1], run[k + 2]);
      }
      assert Gain(turns) == Worth(turns[0]) + Gain(rest);
      if rest != [] {
        assert Tallied(run[1], turns[1], run[2]);
        NothingGetsLost(later, rest);
      }
    }
  }

  // once nobody owes anything any more, the answer is out exactly when what the moderator started with and what
  // was added and taken away since come to the expected number; before that, it is not out as long as they do not
  // reach it
  lemma AnswerGoesOut(run: seq<Tally>, turns: seq<Turn>)
    requires IsTallyRun(run, turns) && run[0].recorded == 0 < run[0].expected && run[0].active
    ensures var n, b, expected := run[0].owed + Gain(turns), run[|turns|], run[0].expected;
            && b.expected == expected && (b.owed == 0 ==> (!b.active <==> n == expected) && n <= expected)
            && (b.owed >= 0 && n < expected ==> b.active)
  {
    NothingGetsLost(run, turns);
  }

  // a moderator that takes over expects as many results as its predecessor, from the clients in the map and from
  // the files that wait to be resent. When all of them come in, the answer goes out exactly when as many files
  // waited as clients had left the map, so never after an earlier death once the waiting file is a single one
  lemma SuccessorAnswers(live: nat, waiting: nat, gone: nat, run: seq<Tally>, turns: seq<Turn>)
    requires IsTallyRun(run, turns) && run[0] == Tally(live, 0, live + gone, true) && live + gone > 0
    requires |turns| > 0 && turns[0] == Assigned(waiting) && forall k :: 0 < k < |turns| ==> turns[k] == Response(true)
    requires run[|turns|].owed == 0
    ensures !run[|turns|].active <==> waiting == gone
    ensures waiting <= 1 && gone > 1 ==> run[|turns|].active
  {
    AnswerGoesOut(run, turns);
    var rest := turns[1..];
    assert forall k :: 0 <= k < |rest| ==> rest[k] == turns[k + 1];
    NoGain(rest);
    assert Gain(turns) == waiting + Gain(rest);
  }

  lemma {:induction false} NoGain(turns: seq<Turn>)
    requires forall k :: 0 <= k < |turns| ==> turns[k] == Response(true)
    ensures Gain(turns) == 0
  {
    if turns != [] { NoGain(turns[1..]); }
  }

  // ---- the moderator takes such turns ----

  ghost function TallyOf(m: Moderator): Tally
    reads m, m.lists, m.rsp
  {
    Tally(Refs(m.lists.pending), m.Recorded(), m.expected, m.active)
  }

  // tasks assigned, duplicates discarded, and what was owed by clients given up
  datatype Ledger = Ledger(tasks: int, duplicates: int, removed: int)

  ghost function LedgerOf(m: Moderator): Ledger
    reads m
  {
    Ledger(m.tasks, m.duplicates, m.removed)
  }

  function Noted(a: Ledger, t: Turn): Ledger {
    Ledger(a.tasks + AddedBy(t), a.duplicates + DiscardedBy(t), a.removed + GivenUpBy(t))
  }

  datatype Arrival = Result(peer: int, kind: Kind, path: string) | Echo(peer: int) | Pass | Request(clients: seq<int>)

  function Demanded(i: Arrival): seq<int> { if i.Request? then i.clients else [] }

  function AllDemanded(inputs: seq<Arrival>): seq<int> {
    if inputs == [] then [] else Demanded(inputs[0]) + AllDemanded(inputs[1..])
  }

  // requests bring resent files only, and no client comes to owe more than its counter holds
  ghost predicate Bearable(pending: seq<ModNode>, inputs: seq<Arrival>) {
    forall c :: Owes(pending, c) + multiset(AllDemanded(inputs))[c] < BYTE
  }

  // what came on top is no more than was asked for
  ghost predicate AtMost(after: seq<ModNode>, before: seq<ModNode>, asked: seq<int>) {
    forall c :: Owes(after, c) <= Owes(before, c) + multiset(asked)[c]
  }

  lemma BearableFirst(pending: seq<ModNode>, inputs: seq<Arrival>)
    requires inputs != [] && Bearable(pending, inputs)
    ensures forall c :: Owes(pending, c) + multiset(Demanded(inputs[0]))[c] < BYTE
  {
    assert AllDemanded(inputs) == Demanded(inputs[0]) + AllDemanded(inputs[1..]);
  }

  lemma BearableNext(before: seq<ModNode>, after: seq<ModNode>, inputs: seq<Arrival>)
    requires inputs != [] && Bearable(before, inputs)
    requires AtMost(after, before, Demanded(inputs[0]))
    ensures Bearable(after, inputs[1..])
  {
  }

  // the kind of turn that an input is
  predicate MadeBy(t: Turn, i: Arrival) {
    match i
    case Result(_, _, _) => t.Response? || t == Quiet
    case Echo(_) => t == Quiet
    case Pass => t.Dropped?
    case Request(clients) => t == Assigned(|clients|)
  }

  // whatever comes in while the moderator is at work is a turn: a result of a pending client is kept unless it
  // is a duplicate, and any other one changes nothing
  method TakeTurn(m: Moderator, i: Arrival) returns (ghost t: Turn)
    requires m.Valid() && m.active && forall c :: Owes(m.lists.pending, c) + multiset(Demanded(i))[c] < BYTE
    modifies m, m.Held(), m.lists, m.lists.pend, m.lists.done, m.lists.Elements()
    ensures m.Valid() && Tallied(old(TallyOf(m)), t, TallyOf(m)) && MadeBy(t, i)
    ensures i.Result? ==> t == if old(Has(m.lists.pending, i.peer)) then Response(!old(m.Duplicate(i.path))) else Quiet
    ensures LedgerOf(m) == Noted(old(LedgerOf(m)), t)
    ensures AtMost(m.lists.pending, old(m.lists.pending), Demanded(i))
    ensures fresh(m.Held() - old(m.Held())) && fresh(m.lists.Elements() - old(m.lists.Elements()))
  {
    match i {
      case Result(peer, kind, path) => t := Collected(m, peer, kind, path);
      case Echo(peer) => t := Heard(m, peer);
      case Pass => t := Elapsed(m);
      case Request(clients) => t := MoreWork(m, clients);
    }
  }

  method Collected(m: Moderator, peer: int, kind: Kind, path: string) returns (ghost t: Turn)
    requires m.Valid() && m.active
    modifies m`rsp, m`duplicates, m`sent, m`active, m.Held(), m.lists, m.lists.pend, m.lists.done, m.lists.Elements()
    ensures m.Valid() && Tallied(old(TallyOf(m)), t, TallyOf(m))
    ensures t == if old(Has(m.lists.pending, peer)) then Response(!old(m.Duplicate(path))) else Quiet
    ensures LedgerOf(m) == Noted(old(LedgerOf(m)), t)
    ensures AtMost(m.lists.pending, old(m.lists.pending), [])
    ensures fresh(m.Held() - old(m.Held())) && fresh(m.lists.Elements() - old(m.lists.Elements()))
  {
    t := if Has(m.lists.pending, peer) then Response(!m.Duplicate(path)) else Quiet;
    m.TaskResponse(peer, kind, path);
  }

  method Heard(m: Moderator, peer: int) returns (ghost t: Turn)
    requires m.Valid() && m.active
    modifies m`since, m.lists
    ensures m.Valid() && t == Quiet && TallyOf(m) == old(TallyOf(m)) && m.lists.Elements() == old(m.lists.Elements())
    ensures AtMost(m.lists.pending, old(m.lists.pending), [])
  {
    ghost var before := m.lists.pending;
    m.EchoRequest(peer);
    forall c ensures Owes(m.lists.pending, c) == Owes(before, c) { RefreshedOwes(before, m.lists.pending, peer, c); }
    t := Quiet;
  }

  method Elapsed(m: Moderator) returns (ghost t: Turn)
    requires m.Valid() && m.active
    modifies m`since, m`removed, m.lists, m.lists.pend, m.lists.done, m.lists.Elements()
    ensures m.Valid() && t.Dropped? && Tallied(old(TallyOf(m)), t, TallyOf(m))
    ensures LedgerOf(m) == Noted(old(LedgerOf(m)), t) && m.lists.Elements() <= old(m.lists.Elements())
    ensures AtMost(m.lists.pending, old(m.lists.pending), [])
  {
    ghost var before := m.lists.pending;
    forall c ensures Owes(before, c) >= 0 { m.PendingOwes(c); }
    var dead := m.Timeout();
    t := Dropped(m.removed - old(m.removed));
  }

  lemma {:induction false} RefreshedOwes(s: seq<ModNode>, t: seq<ModNode>, id: int, c: int)
    requires Refreshed(s, t, id)
    ensures Owes(t, c) == Owes(s, c)
  {
    if s != [] {
      assert t[0] == if s[0].id == id then s[0].(heartbeat := MAX_ALLOWED_KA_MISSES) else s[0];
      RefreshedOwes(s[1..], t[1..], id, c);
    }
  }

  method MoreWork(m: Moderator, clients: seq<int>) returns (ghost t: Turn)
    requires m.Valid() && m.active && forall c :: Owes(m.lists.pending, c) + multiset(clients)[c] < BYTE
    modifies m`tasks, m`since, m`expected, m`state, m`activeClients, m.lists, m.lists.pend, m.lists.done,
             m.lists.Elements()
    ensures m.Valid() && t == Assigned(|clients|) && Tallied(old(TallyOf(m)), t, TallyOf(m))
    ensures LedgerOf(m) == Noted(old(LedgerOf(m)), t)
    ensures AtMost(m.lists.pending, old(m.lists.pending), clients)
    ensures fresh(m.lists.Elements() - old(m.lists.Elements()))
  {
    m.PerformTask(clients, true);
    t := Assigned(|clients|);
  }

  // the first inputs have been taken, each as a turn of its kind, and the counts have changed accordingly
  ghost predicate Underway(m: Moderator, inputs: seq<Arrival>, run: seq<Tally>, turns: seq<Turn>, start: Ledger)
    reads m, m.Held(), m.lists, m.lists.pend, m.lists.done, m.lists.Elements()
  {
    && m.Valid() && IsTallyRun(run, turns) && run[|turns|] == TallyOf(m)
    && |turns| <= |inputs| && (forall k :: 0 <= k < |turns| ==> MadeBy(turns[k], inputs[k]))
    && LedgerOf(m) == LedgerAfter(start, turns) && Bearable(m.lists.pending, inputs[|turns|..])
  }

  function LedgerAfter(start: Ledger, turns: seq<Turn>): Ledger {
    Ledger(start.tasks + Over(AddedBy, turns), start.duplicates + Over(DiscardedBy, turns),
           start.removed + Over(GivenUpBy, turns))
  }

  lemma MoreLedger(start: Ledger, turns: seq<Turn>, t: Turn)
    ensures LedgerAfter(start, turns + [t]) == Noted(LedgerAfter(start, turns), t)
  {
    OverMore(AddedBy, turns, t);
    OverMore(DiscardedBy, turns, t);
    OverMore(GivenUpBy, turns, t);
  }

  // Underway, for proofs that only carry it along
  ghost predicate OnTheWay(m: Moderator, inputs: seq<Arrival>, run: seq<Tally>, turns: seq<Turn>, start: Ledger)
    reads m, m.Held(), m.lists, m.lists.pend, m.lists.done, m.lists.Elements()
  {
    forall u: Gate {:trigger Opened(u)} :: Opened(u) && u == ModeratorGate ==> Underway(m, inputs, run, turns, start)
  }

  method TakeNext(m: Moderator, inputs: seq<Arrival>) returns (ghost t: Turn)
    requires m.Valid() && m.active && inputs != [] && Bearable(m.lists.pending, inputs)
    modifies m, m.Held(), m.lists, m.lists.pend, m.lists.done, m.lists.Elements()
    ensures m.Valid() && Tallied(old(TallyOf(m)), t, TallyOf(m)) && MadeBy(t, inputs[0])
    ensures LedgerOf(m) == Noted(old(LedgerOf(m)), t) && Bearable(m.lists.pending, inputs[1..])
    ensures fresh(m.Held() - old(m.Held())) && fresh(m.lists.Elements() - old(m.lists.Elements()))
  {
    ghost var before := m.lists.pending;
    BearableFirst(before, inputs);
    t := TakeTurn(m, inputs[0]);
    BearableNext(before, m.lists.pending, inputs);
  }

  method GoOn(m: Moderator, inputs: seq<Arrival>, i: nat, ghost run: seq<Tally>, ghost turns: seq<Turn>,
      ghost start: Ledger) returns (ghost later: seq<Tally>, ghost longer: seq<Turn>)
    requires OnTheWay(m, inputs, run, turns, start) && m.active && i == |turns| < |inputs| && run != []
    modifies m, m.Held(), m.lists, m.lists.pend, m.lists.done, m.lists.Elements()
    ensures OnTheWay(m, inputs, later, longer, start) && |longer| == i + 1 && later != [] && later[0] == run[0]
    ensures fresh(m.Held() - old(m.Held())) && fresh(m.lists.Elements() - old(m.lists.Elements()))
  {
    assert Opened(ModeratorGate);
    ghost var t := TakeNext(m, inputs[i..]);
    assert inputs[i..][1..] == inputs[i + 1..];
    MoreTurns(run, turns, t, TallyOf(m));
    MoreLedger(start, turns, t);
    later, longer := run + [TallyOf(m)], turns + [t];
  }

  // what comes in until the answer goes out
  method Drive(m: Moderator, inputs: seq<Arrival>) returns (ghost run: seq<Tally>, ghost turns: seq<Turn>)
    requires m.Valid() && m.active && Bearable(m.lists.pending, inputs)
    modifies m, m.Held(), m.lists, m.lists.pend, m.lists.done, m.lists.Elements()
    ensures Underway(m, inputs, run, turns, old(LedgerOf(m))) && run[0] == old(TallyOf(m))
    ensures m.active ==> |turns| == |inputs|
  {
    var i := 0;
    run, turns := [TallyOf(m)], [];
    assert inputs[0..] == inputs;
    while i < |inputs| && m.active
      invariant i == |turns| <= |inputs| && OnTheWay(m, inputs, run, turns, old(LedgerOf(m)))
      invariant run != [] && run[0] == old(TallyOf(m))
      invariant fresh(m.Held() - old(m.Held())) && fresh(m.lists.Elements() - old(m.lists.Elements()))
    {
      run, turns := GoOn(m, inputs, i, run, turns, old(LedgerOf(m)));
      i := i + 1;
    }
    assert Opened(ModeratorGate);
  }

  lemma MoreTurns(run: seq<Tally>, turns: seq<Turn>, t: Turn, b: Tally)
    requires IsTallyRun(run, turns) && Tallied(run[|turns|], t, b)
    ensures IsTallyRun(run + [b], turns + [t])
  {
    var more, longer := run + [b], turns + [t];
    forall k | 0 <= k < |longer| ensures Tallied(more[k], longer[k], more[k + 1]) {
      if k < |turns| { assert Tallied(run[k], turns[k], run[k + 1]); }
    }
  }

  // what the turns added is what the inputs asked for
  lemma {:induction false} AddedIsAllDemanded(inputs: seq<Arrival>, turns: seq<Turn>)
    requires |turns| <= |inputs| && forall k :: 0 <= k < |turns| ==> MadeBy(turns[k], inputs[k])
    ensures Over(AddedBy, turns) == |AllDemanded(inputs[..|turns|])|
  {
    if turns != [] {
      assert MadeBy(turns[0], inputs[0]) && inputs[..|turns|][1..] == inputs[1..][..|turns| - 1];
      forall k | 0 <= k < |turns[1..]| ensures MadeBy(turns[1..][k], inputs[1..][k]) {
        assert MadeBy(turns[k + 1], inputs[k + 1]);
      }
      AddedIsAllDemanded(inputs[1..], turns[1..]);
    }
  }

  // a moderator that takes over from another one, and what reaches it then: results, echoes, passes and requests with
  // resent files. What is owed and recorded is what the listed clients and the resent files come to, without the
  // duplicates and what was owed by clients given up. Once nobody is pending any more, the answer is out exactly when
  // this is the expected number; and it is not out as long as it falls short of it
  method Succeed(self: int, ids: seq<int>, expected: int, inputs: seq<Arrival>)
    returns (m: Moderator, ghost run: seq<Tally>, ghost turns: seq<Turn>)
    requires 1 <= expected < BYTE && Distinct(ids)
    requires forall c :: (if c in ids then 1 else 0) + multiset(AllDemanded(inputs))[c] < BYTE
    ensures Underway(m, inputs, run, turns, Ledger(|ids|, 0, 0)) && run[0] == Tally(|ids|, 0, expected, true)
    ensures m.self == self && m.expected == expected && (m.active ==> |turns| == |inputs|)
    ensures m.duplicates == Over(DiscardedBy, turns) && m.removed == Over(GivenUpBy, turns)
    ensures var n := |ids| + |AllDemanded(inputs[..|turns|])| - m.duplicates - m.removed;
            && Refs(m.lists.pending) + m.Recorded() == n
            && (m.lists.pending == [] ==> (!m.active <==> n == expected) && n <= expected)
            && (n < expected ==> m.active)
  {
    m := Equipped(self, ids, expected, inputs);
    run, turns := Drive(m, inputs);
    AnswerGoesOut(run, turns);
    NothingGetsLost(run, turns);
    GainAddsUp(turns);
    AddedIsAllDemanded(inputs, turns);
    assert Opened(OwingGate);
    RefsZero(m.lists.pending);
  }

  method Equipped(self: int, ids: seq<int>, expected: int, inputs: seq<Arrival>) returns (m: Moderator)
    requires 1 <= expected < BYTE && Distinct(ids)
    requires forall c :: (if c in ids then 1 else 0) + multiset(AllDemanded(inputs))[c] < BYTE
    ensures m.Valid() && m.active && m.self == self && TallyOf(m) == Tally(|ids|, 0, expected, true)
    ensures LedgerOf(m) == Ledger(|ids|, 0, 0) && Bearable(m.lists.pending, inputs)
    ensures fresh(m) && fresh(m.Held()) && fresh(m.lists) && fresh(m.lists.pend) && fresh(m.lists.done)
            && fresh(m.lists.Elements())
  {
    m := new Moderator.Adopt(self, ids, expected);
    forall c ensures Owes(m.lists.pending, c) == if c in ids then 1 else 0 {
      OneEach(m.lists.pending, c);
      m.PendingOwes(c);
    }
  }

  lemma {:induction false} OneEach(s: seq<ModNode>, c: int)
    requires forall i :: 0 <= i < |s| ==> s[i].refCount == 1
    ensures 0 <= Owes(s, c) <= 1
  {
    if s != [] { OneEach(s[1..], c); }
  }
}
