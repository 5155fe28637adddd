// Selecting a moderator: a cursor over the clients of a group, and the heartbeat that restarts the search.
module Selection {
  import opened Basics

  const MAX_CLIENTS_TRIED_PER_ATTEMPT := 3
  const GROUP_REACHABLE := 2
  const NOBODY := -1

  datatype Member = Member(id: int, free: bool)

  // the position of moderator_client in the client list, or NOBODY, and the passes that are left
  datatype Cursor = Cursor(at: int, reach: int)

  ghost predicate Proper(cs: seq<Member>, c: Cursor) { cs != [] && NOBODY <= c.at < |cs| && c.reach >= 0 }

  function First(c: Cursor): int { if c.at == NOBODY then 0 else c.at }

  function FreeIds(cs: seq<Member>): seq<int> {
    if cs == [] then [] else (if cs[0].free then [cs[0].id] else []) + FreeIds(cs[1..])
  }

  lemma {:induction false} FreeIdsJoin(a: seq<Member>, b: seq<Member>)
    ensures FreeIds(a + b) == FreeIds(a) + FreeIds(b)
  {
    if a == [] {
      assert a + b == b;
    } else {
      assert (a + b)[1..] == a[1..] + b;
      FreeIdsJoin(a[1..], b);
      var x := if a[0].free then [a[0].id] else [];
      assert FreeIds(a + b) == x + (FreeIds(a[1..]) + FreeIds(b)) && FreeIds(a) == x + FreeIds(a[1..]);
    }
  }

  lemma FreeIdsOfMore(cs: seq<Member>, i: nat, j: nat)
    requires i <= j < |cs|
    ensures FreeIds(cs[i..j + 1]) == FreeIds(cs[i..j]) + if cs[j].free then [cs[j].id] else []
  {
    assert cs[i..j + 1] == cs[i..j] + [cs[j]];
    FreeIdsJoin(cs[i..j], [cs[j]]);
    assert [cs[j]][1..] == [];
  }

  // where one attempt stops
  function Stop(n: nat, first: int): int { if first + MAX_CLIENTS_TRIED_PER_ATTEMPT < n
      then first + MAX_CLIENTS_TRIED_PER_ATTEMPT else n }

  ghost function Echoed(cs: seq<Member>, c: Cursor): seq<int>
    requires Proper(cs, c)
  {
    FreeIds(cs[First(c)..Stop(|cs|, First(c))])
  }

  // what one call of moderator_selection leaves behind
  ghost function Next(cs: seq<Member>, c: Cursor): (d: Cursor)
    requires Proper(cs, c) && c.reach > 0
    ensures Proper(cs, d)
  {
    var stop := Stop(|cs|, First(c));
    if stop == |cs| then Cursor(NOBODY, c.reach - 1) else Cursor(stop, c.reach)
  }

  ghost predicate DistinctMembers(cs: seq<Member>) { forall i, j :: 0 <= i < j < |cs| ==> cs[i].id != cs[j].id }

  // the ids of the free clients, in the order of the clients
  lemma FreeIdsAt(cs: seq<Member>, k: nat)
    requires k < |cs|
    ensures FreeIds(cs) == FreeIds(cs[..k]) + (if cs[k].free then [cs[k].id] else []) + FreeIds(cs[k + 1..])
    ensures FreeIds([]) == []
  {
    FreeIdsOfMore(cs, 0, k);
    assert cs[0..k] == cs[..k] && cs[0..k + 1] == cs[..k + 1] && cs == cs[..k + 1] + cs[k + 1..];
    FreeIdsJoin(cs[..k + 1], cs[k + 1..]);
  }

  lemma {:induction false} WhoIsFree(cs: seq<Member>, id: int)
    ensures id in FreeIds(cs) <==> exists k :: 0 <= k < |cs| && cs[k].free && cs[k].id == id
  {
    if cs != [] {
      WhoIsFree(cs[1..], id);
      if k :| 0 <= k < |cs[1..]| && cs[1..][k].free && cs[1..][k].id == id
          { assert cs[k + 1].free && cs[k + 1].id == id; }
      if k :| 0 <= k < |cs| && cs[k].free && cs[k].id == id { assert k > 0 ==> cs[1..][k - 1] == cs[k]; }
    }
  }

  // a client is echoed exactly when it is free and one of the next three; the cursor moves on by three, or to the end
  // of a pass
  lemma WhoIsEchoed(cs: seq<Member>, c: Cursor, k: nat)
    requires Proper(cs, c) && DistinctMembers(cs) && k < |cs|
    ensures var first := if c.at == -1 then 0 else c.at;
            cs[k].id in Echoed(cs, c) <==> cs[k].free && first <= k < first + 3
  {
    var first, stop := First(c), Stop(|cs|, First(c));
    WhoIsFree(cs[first..stop], cs[k].id);
    if first <= k < stop { assert cs[first..stop][k - first] == cs[k]; }
    if j :| 0 <= j < stop - first && cs[first..stop][j].free && cs[first..stop][j].id == cs[k].id {
      assert cs[first + j].id == cs[k].id;
    }
  }

  lemma WhereNext(cs: seq<Member>, c: Cursor)
    requires Proper(cs, c) && c.reach > 0
    ensures var first := if c.at == -1 then 0 else c.at;
            Next(cs, c) == if first + 3 < |cs| then Cursor(first + 3, c.reach) else Cursor(-1, c.reach - 1)
  {
  }

  // the echoes of all attempts when nobody ever answers
  ghost function Attempts(cs: seq<Member>, c: Cursor): seq<seq<int>>
    requires Proper(cs, c)
    decreases c.reach, |cs| - First(c)
  {
    if c.reach == 0 then [] else [Echoed(cs, c)] + Attempts(cs, Next(cs, c))
  }

  function Flat(s: seq<seq<int>>): seq<int> { if s == [] then [] else s[0] + Flat(s[1..]) }

  // attempts that a pass over n clients takes
  function Tries(n: int): int { (n + MAX_CLIENTS_TRIED_PER_ATTEMPT - 1) / MAX_CLIENTS_TRIED_PER_ATTEMPT }

  function Times(k: nat, s: seq<int>): seq<int> { if k == 0 then [] else s + Times(k - 1, s) }

  lemma TriesStep(m: nat)
    requires m > 0
    ensures Tries(m) == 1 + (if m > MAX_CLIENTS_TRIED_PER_ATTEMPT then Tries(m - MAX_CLIENTS_TRIED_PER_ATTEMPT) else 0)
  {
  }

  lemma NextPass(k: int, t: int)
    ensures k * t == t + (k - 1) * t
  {
  }

  lemma FirstAttempt(cs: seq<Member>, c: Cursor)
    requires Proper(cs, c) && c.reach > 0
    ensures |Attempts(cs, c)| == 1 + |Attempts(cs, Next(cs, c))|
    ensures Flat(Attempts(cs, c)) == Echoed(cs, c) + Flat(Attempts(cs, Next(cs, c)))
  {
    assert Attempts(cs, c) == [Echoed(cs, c)] + Attempts(cs, Next(cs, c));
    assert Attempts(cs, c)[1..] == Attempts(cs, Next(cs, c));
  }

  // the attempts that are left, from any cursor
  function TriesLeft(n: nat, c: Cursor): int { Tries(n - First(c)) + (c.reach - 1) * Tries(n) }

  lemma TriesLeftStep(cs: seq<Member>, c: Cursor)
    requires Proper(cs, c) && c.reach > 0
    ensures TriesLeft(|cs|, c) == 1 + if Next(cs, c).reach == 0 then 0 else TriesLeft(|cs|, Next(cs, c))
  {
    TriesStep(|cs| - First(c));
    NextPass(Next(cs, c).reach, Tries(|cs|));
  }

  lemma {:induction false} AttemptsLeft(cs: seq<Member>, c: Cursor)
    requires Proper(cs, c) && c.reach > 0
    ensures |Attempts(cs, c)| == TriesLeft(|cs|, c)
    decreases c.reach, |cs| - First(c)
  {
    FirstAttempt(cs, c);
    TriesLeftStep(cs, c);
    if Next(cs, c).reach > 0 { AttemptsLeft(cs, Next(cs, c)); }
  }

  lemma {:induction false} EchoesLeft(cs: seq<Member>, c: Cursor)
    requires Proper(cs, c) && c.reach > 0
    ensures Flat(Attempts(cs, c)) == FreeIds(cs[First(c)..]) + Times(c.reach - 1, FreeIds(cs))
    decreases c.reach, |cs| - First(c)
  {
    var d := Next(cs, c);
    FirstAttempt(cs, c);
    RestOfPass(cs, First(c), Stop(|cs|, First(c)));
    if d.reach > 0 { EchoesLeft(cs, d); }
    if First(d) == 0 { assert cs[0..] == cs; }
  }

  lemma RestOfPass(cs: seq<Member>, first: nat, stop: nat)
    requires first <= stop <= |cs|
    ensures FreeIds(cs[first..]) == FreeIds(cs[first..stop]) + FreeIds(cs[stop..])
    ensures stop == |cs| ==> FreeIds(cs[stop..]) == []
  {
    assert cs[first..] == cs[first..stop] + cs[stop..];
    FreeIdsJoin(cs[first..stop], cs[stop..]);
  }

  // from any cursor: the rest of this pass, then every client once in each pass that is left
  lemma SilentSelection(cs: seq<Member>, c: Cursor)
    requires Proper(cs, c) && c.reach > 0
    ensures |Attempts(cs, c)| == (|cs| - First(c) + 2) / 3 + (c.reach - 1) * ((|cs| + 2) / 3)
    ensures Flat(Attempts(cs, c)) == FreeIds(cs[First(c)..]) + Times(c.reach - 1, FreeIds(cs))
  {
    AttemptsLeft(cs, c);
    EchoesLeft(cs, c);
  }

  // so many attempts with these echoes have led from a freshly assigned task to the cursor c
  ghost predicate Tried(cs: seq<Member>, c: Cursor, attempts: nat, echoes: seq<int>) {
    && Proper(cs, c) && attempts + |Attempts(cs, c)| == GROUP_REACHABLE * Tries(|cs|)
    && echoes + Flat(Attempts(cs, c)) == FreeIds(cs) + FreeIds(cs)
  }

  // a freshly assigned task has two passes before it, each with an echo to every free client
  lemma TwoPasses(cs: seq<Member>)
    requires cs != []
    ensures Tried(cs, Cursor(NOBODY, GROUP_REACHABLE), 0, [])
  {
    SilentSelection(cs, Cursor(NOBODY, GROUP_REACHABLE));
    assert cs[0..] == cs;
    assert Times(1, FreeIds(cs)) == FreeIds(cs) + Times(0, FreeIds(cs));
  }

  lemma NextTry(cs: seq<Member>, c: Cursor, attempts: nat, echoes: seq<int>)
    requires Tried(cs, c, attempts, echoes) && c.reach > 0
    ensures Tried(cs, Next(cs, c), attempts + 1, echoes + Echoed(cs, c))
  {
    FirstAttempt(cs, c);
    var e, f := Echoed(cs, c), Flat(Attempts(cs, Next(cs, c)));
    assert echoes + (e + f) == echoes + e + f;
  }

  // moderator_selection up to the cursor: the echoes it sends and the client it stops at
  method SendEchoes(cs: seq<Member>, at: int) returns (echoed: seq<int>, next: int)
    requires cs != [] && NOBODY <= at < |cs|
    ensures var c := Cursor(at, 1);
            echoed == Echoed(cs, c) && next == (if Stop(|cs|, First(c)) == |cs| then NOBODY else Stop(|cs|, First(c)))
  {
    var client := if at == NOBODY then 0 else at;
    var max := MAX_CLIENTS_TRIED_PER_ATTEMPT;
    if |cs| < MAX_CLIENTS_TRIED_PER_ATTEMPT {
      max := |cs|;
    }
    echoed, client := Try(cs, client, max);
    next := if client == |cs| then NOBODY else client;
  }

  method Try(cs: seq<Member>, first: nat, max: nat) returns (echoed: seq<int>, client: nat)
    requires first <= |cs|
    ensures client == (if first + max < |cs| then first + max else |cs|) && echoed == FreeIds(cs[first..client])
  {
    client := first;
    var iter := 0;
    echoed := [];
    while iter < max && client < |cs|
      invariant 0 <= iter <= max && client == first + iter <= |cs|
      invariant echoed == FreeIds(cs[first..client])
    {
      FreeIdsOfMore(cs, first, client);
      if cs[client].free {
        echoed := echoed + [cs[client].id];
      }
      client := client + 1;
      iter := iter + 1;
    }
  }

  // ---- the heartbeat of the moderator, as the server counts it ----

  datatype Beat = Tick | Echo

  function CounterAfter(es: seq<Beat>): int {
    if es == [] then MAX_ALLOWED_KA_MISSES
    else if es[|es| - 1] == Echo then MAX_ALLOWED_KA_MISSES
    else (CounterAfter(es[..|es| - 1]) - 1) % 256
  }

  // the tick at i finds the counter at zero, which starts the re-selection
  predicate Fires(es: seq<Beat>, i: nat)
    requires i < |es|
  {
    es[i] == Tick && CounterAfter(es[..i]) == 0
  }

  // ticks since the last echo
  function Streak(es: seq<Beat>): nat {
    if es == [] || es[|es| - 1] == Echo then 0 else 1 + Streak(es[..|es| - 1])
  }

  lemma {:induction false} CounterIsStreak(es: seq<Beat>)
    requires forall j: nat :: j < |es| ==> !Fires(es, j)
    ensures Streak(es) <= MAX_ALLOWED_KA_MISSES && CounterAfter(es) == MAX_ALLOWED_KA_MISSES - Streak(es)
  {
    if es != [] {
      var n := |es| - 1;
      var before := es[..n];
      forall j: nat | j < n ensures !Fires(before, j) {
        assert before[..j] == es[..j] && before[j] == es[j];
        assert !Fires(es, j);
      }
      CounterIsStreak(before);
      assert !Fires(es, n);
    }
  }

  // re-selection starts exactly on the sixth tick in a row without an echo
  lemma SixthSilentTickFires(es: seq<Beat>, i: nat)
    requires i < |es| && forall j: nat :: j < i ==> !Fires(es, j)
    ensures Fires(es, i) <==> i >= 5 && forall k :: i - 5 <= k <= i ==> es[k] == Tick
  {
    var before := es[..i];
    forall j: nat | j < i ensures !Fires(before, j) {
      assert before[..j] == es[..j] && before[j] == es[j];
      assert !Fires(es, j);
    }
    CounterIsStreak(before);
    StreakIsSilent(before);
  }

  lemma {:induction false} StreakIsSilent(es: seq<Beat>)
    ensures Streak(es) <= |es| && forall k :: |es| - Streak(es) <= k < |es| ==> es[k] == Tick
    ensures Streak(es) < |es| ==> es[|es| - Streak(es) - 1] == Echo
  {
    if es != [] { StreakIsSilent(es[..|es| - 1]); }
  }
}
