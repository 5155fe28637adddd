// The map from working clients to their files: compaction after a death, and the resent request.
module TaskMap {
  import opened Basics
  import opened Permutations

  datatype Entry = Entry(client: int, files: seq<string>)

  function Clients(s: seq<Entry>): (r: seq<int>)
    ensures |r| == |s| && forall i :: 0 <= i < |s| ==> r[i] == s[i].client
  {
    seq(|s|, i requires 0 <= i < |s| => s[i].client)
  }

  // working clients are distinct and none has the id that marks a dead entry
  ghost predicate Tracked(s: seq<Entry>) { Distinct(Clients(s)) && 0 !in Clients(s) }

  // the entries of the clients that did not die
  function Survivors(s: seq<Entry>, dead: seq<int>): seq<Entry> {
    if s == [] then []
    else (if s[0].client in dead then [] else [s[0]]) + Survivors(s[1..], dead)
  }

  lemma {:induction false} SurvivorsAre(s: seq<Entry>, dead: seq<int>)
    ensures forall e :: multiset(Survivors(s, dead))[e] == if e.client in dead then 0 else multiset(s)[e]
  {
    if s != [] {
      SurvivorsAre(s[1..], dead);
      assert s == [s[0]] + s[1..];
    }
  }

  function Marked(s: seq<Entry>, dead: seq<int>): (r: seq<Entry>)
    ensures |r| == |s|
    ensures forall i :: 0 <= i < |s| ==> r[i] == if s[i].client in dead then s[i].(client := 0) else s[i]
  {
    seq(|s|, i requires 0 <= i < |s| => if s[i].client in dead then s[i].(client := 0) else s[i])
  }

  function Holes(s: seq<Entry>): nat {
    if s == [] then 0 else (if s[0].client == 0 then 1 else 0) + Holes(s[1..])
  }

  lemma {:induction false} HolesJoin(a: seq<Entry>, b: seq<Entry>)
    ensures Holes(a + b) == Holes(a) + Holes(b)
  {
    if a == [] {
      assert a + b == b;
    } else {
      assert (a + b)[1..] == a[1..] + b;
      HolesJoin(a[1..], b);
    }
  }

  lemma {:induction false} HolesNone(s: seq<Entry>)
    requires forall i :: 0 <= i < |s| ==> s[i].client != 0
    ensures Holes(s) == 0
  {
    if s != [] { HolesNone(s[1..]); }
  }

  lemma {:induction false} HolesAll(s: seq<Entry>)
    requires forall i :: 0 <= i < |s| ==> s[i].client == 0
    ensures Holes(s) == |s|
  {
    if s != [] { HolesAll(s[1..]); }
  }

  lemma {:induction false} HolesBound(s: seq<Entry>)
    ensures Holes(s) <= |s|
    ensures Holes(s) == 0 ==> forall i :: 0 <= i < |s| ==> s[i].client != 0
    ensures Holes(s) == |s| ==> forall i :: 0 <= i < |s| ==> s[i].client == 0
  {
    if s != [] {
      HolesBound(s[1..]);
      assert forall i :: 1 <= i < |s| ==> s[i] == s[1..][i - 1];
    }
  }

  // exactly the dead clients are marked
  lemma {:induction false} MarkedHoles(s: seq<Entry>, dead: seq<int>)
    requires Tracked(s)
    ensures Holes(Marked(s, dead)) + |Survivors(s, dead)| == |s|
  {
    if s != [] {
      assert Clients(s)[1..] == Clients(s[1..]);
      MarkedHoles(s[1..], dead);
      assert Marked(s, dead)[1..] == Marked(s[1..], dead);
      assert s[0].client == Clients(s)[0];
    }
  }

  lemma DropOne(dead: seq<int>, x: int) returns (rest: seq<int>)
    requires Distinct(dead) && x in dead
    ensures Distinct(rest) && |rest| == |dead| - 1
    ensures forall d :: d in rest <==> d in dead && d != x
  {
    var i :| 0 <= i < |dead| && dead[i] == x;
    rest := dead[..i] + dead[i + 1..];
    forall d | d in dead && d != x ensures d in rest {
      var k :| 0 <= k < |dead| && dead[k] == d;
      assert rest[if k < i then k else k - 1] == d;
    }
  }

  lemma TrackedTail(s: seq<Entry>)
    requires Tracked(s) && s != []
    ensures Tracked(s[1..]) && forall d :: d in Clients(s) <==> d == s[0].client || d in Clients(s[1..])
    ensures s[0].client !in Clients(s[1..])
  {
    assert Clients(s) == [s[0].client] + Clients(s[1..]);
    assert Clients(s)[1..] == Clients(s[1..]);
  }

  lemma SomeClient(dead: seq<int>, clients: seq<int>)
    requires |dead| > 0 && forall d :: d in dead ==> d in clients
    ensures |clients| > 0
  {
    var d := dead[0];
    assert d in dead;
  }

  lemma {:induction false} SurvivorCount(s: seq<Entry>, dead: seq<int>)
    requires Tracked(s) && Distinct(dead) && forall d :: d in dead ==> d in Clients(s)
    ensures |Survivors(s, dead)| == |s| - |dead|
  {
    if s == [] {
      if |dead| > 0 { SomeClient(dead, Clients(s)); }
    } else {
      TrackedTail(s);
      if s[0].client in dead {
        var rest := DropOne(dead, s[0].client);
        SurvivorCount(s[1..], rest);
        assert forall i :: 0 <= i < |s[1..]| ==> s[1..][i].client == Clients(s[1..])[i];
        SameSurvivors(s[1..], dead, rest);
      } else {
        SurvivorCount(s[1..], dead);
      }
    }
  }

  lemma {:induction false} SameSurvivors(s: seq<Entry>, dead: seq<int>, rest: seq<int>)
    requires forall i :: 0 <= i < |s| ==> (s[i].client in dead <==> s[i].client in rest)
    ensures Survivors(s, dead) == Survivors(s, rest)
  {
    if s != [] { SameSurvivors(s[1..], dead, rest); }
  }

  // ---- marking ----

  // the first loop of mark_dead_clients_in_group: it may stop early, once all have been found
  method Mark(refArray: array<Entry>, refCount: nat, dead: seq<int>) returns (marked: nat)
    requires refCount <= refArray.Length && Tracked(refArray[..refCount])
    requires Distinct(dead) && 0 !in dead && forall d :: d in dead ==> d in Clients(refArray[..refCount])
    modifies refArray
    ensures refArray[..refCount] == Marked(old(refArray[..refCount]), dead)
            && refArray[refCount..] == old(refArray[refCount..])
    ensures marked == |dead| == Holes(refArray[..refCount])
  {
    ghost var s := refArray[..refCount];
    ghost var m := Marked(s, dead);
    SurvivorCount(s, dead);
    MarkedHoles(s, dead);
    marked := 0;
    var i := 0;
    while i < refCount && marked < |dead|
      invariant 0 <= i <= refCount
      invariant forall k :: 0 <= k < refCount ==> refArray[k] == if k < i then m[k] else s[k]
      invariant refArray[refCount..] == old(refArray[refCount..])
      invariant marked == Holes(m[..i]) <= |dead|
    {
      var found := Among(refArray[i].client, dead);
      ClientAt(s, dead, i);
      if found {
        refArray[i] := refArray[i].(client := 0);
        marked := marked + 1;
      }
      i := i + 1;
    }
    AllMarked(s, dead, i);
    assert refArray[..refCount] == m;
  }

  method Among(client: int, dead: seq<int>) returns (found: bool)
    ensures found <==> client in dead
  {
    var j := 0;
    while j < |dead| && client != dead[j]
      invariant 0 <= j <= |dead| && forall k :: 0 <= k < j ==> dead[k] != client
    {
      j := j + 1;
    }
    found := j < |dead|;
  }

  // marking entry i adds one hole exactly when its client is dead
  lemma ClientAt(s: seq<Entry>, dead: seq<int>, i: nat)
    requires Tracked(s) && i < |s|
    ensures var m := Marked(s, dead);
            Holes(m[..i + 1]) == Holes(m[..i]) + (if s[i].client in dead then 1 else 0) && Holes(m[..i + 1]) <= Holes(m)
  {
    var m := Marked(s, dead);
    assert s[i].client == Clients(s)[i];
    assert m[..i + 1] == m[..i] + [m[i]];
    HolesJoin(m[..i], [m[i]]);
    assert [m[i]][1..] == [];
    assert m == m[..i + 1] + m[i + 1..];
    HolesJoin(m[..i + 1], m[i + 1..]);
  }

  // once all holes are made the rest is unchanged
  lemma AllMarked(s: seq<Entry>, dead: seq<int>, i: nat)
    requires Tracked(s) && i <= |s| && (i == |s| || Holes(Marked(s, dead)[..i]) >= Holes(Marked(s, dead)))
    ensures Marked(s, dead) == Marked(s, dead)[..i] + s[i..] && Holes(Marked(s, dead)[..i]) == Holes(Marked(s, dead))
  {
    var m := Marked(s, dead);
    assert m == m[..i] + m[i..];
    HolesJoin(m[..i], m[i..]);
    HolesBound(m[i..]);
    assert forall k :: 0 <= k < |s| ==> s[k].client == Clients(s)[k];
    forall k | i <= k < |s| ensures m[k] == s[k] {
      assert m[i..][k - i] == m[k];
    }
  }

  // ---- compaction ----

  method Swap(refArray: array<Entry>, i: nat, j: nat)
    requires i < refArray.Length && j < refArray.Length
    modifies refArray
    ensures refArray[..] == old(refArray[..])[i := old(refArray[j])][j := old(refArray[i])]
  {
    var temp := refArray[i];
    refArray[i] := refArray[j];
    refArray[j] := temp;
  }

  // the prefix up to lim has at most left holes, and what lies beyond the entries in use is untouched
  ghost predicate Compacting(s: seq<Entry>, lim: nat, left: nat) {
    lim <= |s| && Holes(s) == |s| - lim && Holes(s[..lim]) <= left
  }

  lemma {:induction false} HolesUpdate(s: seq<Entry>, i: nat, e: Entry)
    requires i < |s|
    ensures Holes(s[i := e]) == Holes(s) - (if s[i].client == 0 then 1 else 0) + (if e.client == 0 then 1 else 0)
  {
    assert s == s[..i] + ([s[i]] + s[i + 1..]) && s[i := e] == s[..i] + ([e] + s[i + 1..]);
    HolesJoin(s[..i], [s[i]] + s[i + 1..]);
    HolesJoin(s[..i], [e] + s[i + 1..]);
  }

  lemma SwapKeepsEntries(s: seq<Entry>, i: nat, j: nat)
    requires i < |s| && j < |s|
    ensures multiset(s[i := s[j]][j := s[i]]) == multiset(s)
    ensures Holes(s[i := s[j]][j := s[i]]) == Holes(s)
  {
    HolesUpdate(s, i, s[j]);
    HolesUpdate(s[i := s[j]], j, s[i]);
  }

  lemma HoleBelow(s: seq<Entry>, lim: nat, i: nat, j: nat)
    requires lim <= |s| && Holes(s) == |s| - lim && i < j < |s| && s[i].client == 0 && s[j].client != 0
    requires (forall k :: 0 <= k < i ==> s[k].client != 0) && (forall k :: j < k < |s| ==> s[k].client == 0)
    ensures i < lim <= j
  {
    assert s == s[..lim] + s[lim..];
    HolesJoin(s[..lim], s[lim..]);
    HolesBound(s[..lim]);
    HolesBound(s[lim..]);
    assert forall k :: 0 <= k < |s| ==> s[k] == if k < lim then s[..lim][k] else s[lim..][k - lim];
    if lim <= i {
      HolesNone(s[..lim]);
    } else if j < lim {
      HolesAll(s[lim..]);
    }
  }

  // the hole at i is filled from j, the last entry in use
  lemma SwapFills(s: seq<Entry>, lim: nat, left: nat, i: nat, j: nat)
    requires Compacting(s, lim, left) && i <= j < |s| && left > 0 && s[i].client == 0
    requires (forall k :: 0 <= k < i ==> s[k].client != 0) && (forall k :: j < k < |s| ==> s[k].client == 0)
    requires j > i ==> s[j].client != 0
    ensures Compacting(s[i := s[j]][j := s[i]], lim, left - 1)
  {
    var t := s[i := s[j]][j := s[i]];
    SwapKeepsEntries(s, i, j);
    if j == i {
      assert t == s;
      HolesFrom(s, lim, i);
    } else {
      HoleBelow(s, lim, i, j);
      assert t[..lim] == s[..lim][i := s[j]];
      HolesUpdate(s[..lim], i, s[j]);
    }
  }

  // no hole before i, and only holes from there on
  lemma HolesFrom(s: seq<Entry>, lim: nat, i: nat)
    requires lim <= |s| && Holes(s) == |s| - lim && i < |s| && s[i].client == 0
    requires (forall k :: 0 <= k < i ==> s[k].client != 0) && (forall k :: i < k < |s| ==> s[k].client == 0)
    ensures lim == i && Holes(s[..lim]) == 0
  {
    assert s == s[..i] + s[i..];
    HolesJoin(s[..i], s[i..]);
    HolesNone(s[..i]);
    HolesAll(s[i..]);
  }

  // while((ref_array[i].working_clients != 0) && (i < *ref_count)) i++
  method FirstHole(refArray: array<Entry>, refCount: nat, i0: nat, ghost j: nat) returns (i: nat)
    requires i0 <= j < refCount <= refArray.Length
    requires forall k :: 0 <= k < i0 ==> refArray[k].client != 0
    requires exists k :: i0 <= k <= j && refArray[k].client == 0
    ensures i0 <= i <= j && refArray[i].client == 0 && forall k :: 0 <= k < i ==> refArray[k].client != 0
  {
    i := i0;
    while refArray[i].client != 0 && i < refCount
      invariant i0 <= i <= j
      invariant forall k :: 0 <= k < i ==> refArray[k].client != 0
      decreases refCount - i
    {
      i := i + 1;
    }
  }

  // while(ref_array[j].working_clients == 0) { if(j == i) break; j--; }
  method LastInUse(refArray: array<Entry>, refCount: nat, i: nat, j0: nat) returns (j: nat)
    requires i <= j0 < refCount <= refArray.Length
    requires forall k :: j0 < k < refCount ==> refArray[k].client == 0
    ensures i <= j <= j0 && (j > i ==> refArray[j].client != 0)
    ensures forall k :: j < k < refCount ==> refArray[k].client == 0
  {
    j := j0;
    while refArray[j].client == 0
      invariant i <= j <= j0
      invariant forall k :: j < k < refCount ==> refArray[k].client == 0
      decreases j
    {
      if j == i { break; }
      j := j - 1;
    }
  }

  lemma SomeHole(s: seq<Entry>)
    requires Holes(s) > 0
    ensures exists k :: 0 <= k < |s| && s[k].client == 0
  {
    if forall k :: 0 <= k < |s| ==> s[k].client != 0 { HolesNone(s); }
  }

  lemma NoHoleBelow(s: seq<Entry>, lim: nat)
    requires Compacting(s, lim, 0)
    ensures forall k :: 0 <= k < |s| ==> (s[k].client != 0 <==> k < lim)
  {
    assert s == s[..lim] + s[lim..];
    HolesJoin(s[..lim], s[lim..]);
    HolesBound(s[..lim]);
    HolesBound(s[lim..]);
    forall k | 0 <= k < |s| ensures s[k].client != 0 <==> k < lim {
      assert if k < lim then s[..lim][k] == s[k] else s[lim..][k - lim] == s[k];
    }
  }

  ghost predicate OnceUsed(s: seq<Entry>) {
    forall i, j :: 0 <= i < j < |s| && s[i].client != 0 ==> s[i].client != s[j].client
  }

  // where the second loop of mark_dead_clients_in_group stands: no hole before i, only holes after j
  ghost predicate Closing(s: seq<Entry>, i: nat, j: int, lim: nat, marked: nat) {
    && Compacting(s, lim, marked) && i <= lim && -1 <= j < |s| && OnceUsed(s)
    && (forall k :: 0 <= k < i ==> s[k].client != 0)
    && (forall k :: j < k < |s| ==> s[k].client == 0)
    && (lim < |s| ==> exists k :: i <= k <= j && s[k].client == 0)
  }

  lemma StartsClosing(s: seq<Entry>, marked: nat)
    requires Holes(s) == marked && OnceUsed(s)
    ensures marked <= |s| && Closing(s, 0, |s| - 1, |s| - marked, marked)
  {
    HolesBound(s);
    var lim := |s| - marked;
    assert s == s[..lim] + s[lim..];
    HolesJoin(s[..lim], s[lim..]);
    if marked > 0 { SomeHole(s); }
  }

  lemma StillClosing(s: seq<Entry>, lim: nat, marked: nat, i: nat, j: nat)
    requires Compacting(s, lim, marked) && OnceUsed(s) && i <= j < |s| && marked > 0 && s[i].client == 0 && i <= lim
    requires (forall k :: 0 <= k < i ==> s[k].client != 0) && (forall k :: j < k < |s| ==> s[k].client == 0)
    requires j > i ==> s[j].client != 0
    ensures var t := s[i := s[j]][j := s[i]];
            |t| == |s| && Closing(t, i, j, lim, marked - 1) && multiset(t) == multiset(s)
  {
    SwapFills(s, lim, marked, i, j);
    SwapKeepsEntries(s, i, j);
    assert s[i := s[j]][j := s[i]][j].client == 0;
  }

  method CloseHole(refArray: array<Entry>, refCount: nat, i0: nat, j0: nat, ghost lim: nat, ghost marked: nat)
      returns (i: nat, j: nat)
    requires refCount <= refArray.Length && marked > 0 && lim < refCount
             && Closing(refArray[..refCount], i0, j0, lim, marked)
    modifies refArray
    ensures Closing(refArray[..refCount], i, j, lim, marked - 1)
    ensures Packed(old(refArray[..refCount]), lim) ==> refArray[..refCount] == old(refArray[..refCount])
    ensures multiset(refArray[..refCount]) == multiset(old(refArray[..refCount]))
            && refArray[refCount..] == old(refArray[refCount..])
  {
    ghost var s := refArray[..refCount];
    assert forall k :: 0 <= k < refCount ==> s[k] == refArray[k];
    i := FirstHole(refArray, refCount, i0, j0);
    j := LastInUse(refArray, refCount, i, j0);
    HoleInRange(s, lim, i);
    StillClosing(s, lim, marked, i, j);
    if Packed(s, lim) { PackedHasNoHole(s, lim, i); }
    SwapPrefix(refArray, refCount, i, j);
  }

  method SwapPrefix(refArray: array<Entry>, refCount: nat, i: nat, j: nat)
    requires i < refCount && j < refCount <= refArray.Length
    modifies refArray
    ensures var s := old(refArray[..refCount]); refArray[..refCount] == s[i := s[j]][j := s[i]]
    ensures refArray[refCount..] == old(refArray[refCount..])
  {
    ghost var s := refArray[..refCount];
    Swap(refArray, i, j);
    assert refArray[..refCount] == s[i := s[j]][j := s[i]];
  }

  // no more than lim entries are in use
  lemma HoleInRange(s: seq<Entry>, lim: nat, i: nat)
    requires lim <= |s| && Holes(s) == |s| - lim && i < |s| && forall k :: 0 <= k < i ==> s[k].client != 0
    ensures i <= lim
  {
    assert s == s[..i] + s[i..];
    HolesJoin(s[..i], s[i..]);
    HolesNone(s[..i]);
    HolesBound(s[i..]);
  }

  // the second loop of mark_dead_clients_in_group; its guard never ends it early
  method Compact(refArray: array<Entry>, refCount: nat, marked0: nat)
    requires refCount <= refArray.Length && Holes(refArray[..refCount]) == marked0 && OnceUsed(refArray[..refCount])
    modifies refArray
    ensures multiset(refArray[..refCount]) == multiset(old(refArray[..refCount]))
    ensures marked0 <= refCount && OnceUsed(refArray[..refCount]) && refArray[refCount..] == old(refArray[refCount..])
    ensures forall k :: 0 <= k < refCount ==> (refArray[k].client != 0 <==> k < refCount - marked0)
    ensures Packed(old(refArray[..refCount]), refCount - marked0) ==> refArray[..refCount] == old(refArray[..refCount])
  {
    ghost var s := refArray[..refCount];
    StartsClosing(s, marked0);
    ghost var lim := refCount - marked0;
    var i, j, marked := 0, refCount - 1, marked0;
    while marked > 0 && i < refCount - (marked - 1)
      invariant 0 <= i && 0 <= marked <= marked0 && (marked0 > 0 ==> j >= 0)
      invariant Closing(refArray[..refCount], i, j, lim, marked)
      invariant multiset(refArray[..refCount]) == multiset(old(refArray[..refCount]))
      invariant refArray[refCount..] == old(refArray[refCount..])
      invariant Packed(s, lim) ==> refArray[..refCount] == s
      decreases marked
    {
      i, j := CloseHole(refArray, refCount, i, j, lim, marked);
      marked := marked - 1;
    }
    NoHoleBelow(refArray[..refCount], lim);
    forall k | 0 <= k < refCount ensures refArray[k].client != 0 <==> k < refCount - marked0 {
      assert refArray[..refCount][k] == refArray[k];
    }
  }

  function InUse(s: seq<Entry>): seq<Entry> {
    if s == [] then [] else (if s[0].client == 0 then [] else [s[0]]) + InUse(s[1..])
  }

  lemma {:induction false} InUseCounts(s: seq<Entry>, e: Entry)
    ensures multiset(InUse(s))[e] == if e.client != 0 then multiset(s)[e] else 0
  {
    if s != [] {
      assert s == [s[0]] + s[1..];
      InUseCounts(s[1..], e);
    }
  }

  lemma {:induction false} InUsePrefix(s: seq<Entry>, lim: nat)
    requires lim <= |s| && forall k :: 0 <= k < |s| ==> (s[k].client != 0 <==> k < lim)
    ensures InUse(s) == s[..lim]
  {
    if s != [] {
      InUsePrefix(s[1..], if lim > 0 then lim - 1 else 0);
      if lim > 0 { assert s[..lim] == [s[0]] + s[1..][..lim - 1]; }
    }
  }

  lemma {:induction false} InUseOfMarked(s: seq<Entry>, dead: seq<int>)
    requires Tracked(s)
    ensures InUse(Marked(s, dead)) == Survivors(s, dead)
  {
    if s != [] {
      TrackedTail(s);
      assert s[0].client == Clients(s)[0];
      assert Marked(s, dead)[1..] == Marked(s[1..], dead);
      InUseOfMarked(s[1..], dead);
    }
  }

  lemma MarkedOnceUsed(s: seq<Entry>, dead: seq<int>)
    requires Tracked(s)
    ensures OnceUsed(Marked(s, dead))
  {
    var m := Marked(s, dead);
    forall i, j | 0 <= i < j < |m| && m[i].client != 0 ensures m[i].client != m[j].client {
      assert Clients(s)[i] != Clients(s)[j];
    }
  }

  // the entries in use after compaction are the survivors
  lemma CompactedSurvivors(s: seq<Entry>, dead: seq<int>, t: seq<Entry>, lim: nat)
    requires Tracked(s) && multiset(t) == multiset(Marked(s, dead)) && OnceUsed(t) && lim == |s| - |dead|
    requires lim <= |t| == |s| && forall k :: 0 <= k < |t| ==> (t[k].client != 0 <==> k < lim)
    requires Packed(Marked(s, dead), lim) ==> t == Marked(s, dead)
    ensures Compacted(s, dead, t[..lim])
  {
    InUseAreSurvivors(s, dead, t, lim);
    InUseTracked(t, lim);
    if AtEnd(s, dead) { PackedPrefix(s, dead); }
  }

  lemma InUseAreSurvivors(s: seq<Entry>, dead: seq<int>, t: seq<Entry>, lim: nat)
    requires Tracked(s) && multiset(t) == multiset(Marked(s, dead))
    requires lim <= |t| && forall k :: 0 <= k < |t| ==> (t[k].client != 0 <==> k < lim)
    ensures multiset(t[..lim]) == multiset(Survivors(s, dead))
  {
    InUsePrefix(t, lim);
    InUseOfMarked(s, dead);
    forall e ensures multiset(t[..lim])[e] == multiset(Survivors(s, dead))[e] {
      InUseCounts(t, e);
      InUseCounts(Marked(s, dead), e);
    }
  }

  lemma InUseTracked(t: seq<Entry>, lim: nat)
    requires OnceUsed(t) && lim <= |t| && forall k :: 0 <= k < lim ==> t[k].client != 0
    ensures Tracked(t[..lim])
  {
  }

  lemma PackedPrefix(s: seq<Entry>, dead: seq<int>)
    requires AtEnd(s, dead)
    ensures Packed(Marked(s, dead), |s| - |dead|) && Marked(s, dead)[..|s| - |dead|] == s[..|s| - |dead|]
  {
  }

  // mark_dead_clients_in_group
  method MarkDeadClients(refArray: array<Entry>, refCount: nat, dead: seq<int>) returns (count: nat)
    requires refCount <= refArray.Length && Tracked(refArray[..refCount])
    requires Distinct(dead) && 0 !in dead && forall d :: d in dead ==> d in Clients(refArray[..refCount])
    modifies refArray
    ensures count == refCount - |dead| && Tracked(refArray[..count])
    ensures Compacted(old(refArray[..refCount]), dead, refArray[..count])
    ensures forall k :: count <= k < refCount ==> refArray[k].client == 0
    ensures refArray[refCount..] == old(refArray[refCount..])
  {
    ghost var s := refArray[..refCount];
    var marked := Mark(refArray, refCount, dead);
    MarkedOnceUsed(s, dead);
    Compact(refArray, refCount, marked);
    count := refCount - |dead|;
    ghost var t := refArray[..refCount];
    assert forall k :: 0 <= k < refCount ==> t[k] == refArray[k];
    CompactedSurvivors(s, dead, t, count);
    assert t[..count] == refArray[..count];
  }

  // no hole before lim and only holes from there on
  ghost predicate Packed(s: seq<Entry>, lim: nat) { forall k :: lim <= k < |s| ==> s[k].client == 0 }

  lemma PackedHasNoHole(s: seq<Entry>, lim: nat, i: nat)
    requires lim <= |s| && Holes(s) == |s| - lim && Packed(s, lim) && i < |s| && s[i].client == 0
    ensures lim <= i
  {
    assert i < lim ==> s[..lim][i] == s[i];
    assert s == s[..lim] + s[lim..];
    HolesJoin(s[..lim], s[lim..]);
    HolesAll(s[lim..]);
    HolesBound(s[..lim]);
  }

  // ---- the resent request ----

  function Files(s: seq<Entry>): multiset<string> {
    if s == [] then multiset{} else multiset(s[0].files) + Files(s[1..])
  }

  // the files of the map are those of each of its entries
  lemma FilesAt(s: seq<Entry>, k: nat)
    requires k < |s|
    ensures Files(s) == Files(s[..k]) + multiset(s[k].files) + Files(s[k + 1..]) && Files([]) == multiset{}
  {
    assert s == s[..k] + ([s[k]] + s[k + 1..]);
    FilesJoin(s[..k], [s[k]] + s[k + 1..]);
    assert ([s[k]] + s[k + 1..])[1..] == s[k + 1..];
  }

  lemma {:induction false} FilesJoin(a: seq<Entry>, b: seq<Entry>)
    ensures Files(a + b) == Files(a) + Files(b)
  {
    if a == [] {
      assert a + b == b;
    } else {
      assert (a + b)[1..] == a[1..] + b;
      FilesJoin(a[1..], b);
    }
  }

  // one more file for each of the first entries, as far as there are entries
  function Handed(s: seq<Entry>, files: seq<string>): (r: seq<Entry>)
    ensures |r| == |s|
    ensures forall i :: 0 <= i < |s| ==> r[i] == if i < |files| then s[i].(files := s[i].files + [files[i]]) else s[i]
  {
    seq(|s|, i requires 0 <= i < |s| => if i < |files| then s[i].(files := s[i].files + [files[i]]) else s[i])
  }

  lemma UsedFiles(s: seq<Entry>, files: seq<string>)
    requires s != [] && files != []
    ensures var rest, tail := files[1..], s[1..];
            multiset(if |files| <= |s| then files else files[..|s|])
                == multiset{files[0]} + multiset(if |rest| <= |tail| then rest else rest[..|tail|])
    ensures multiset(s[0].files + [files[0]]) == multiset(s[0].files) + multiset{files[0]}
  {
    var rest, tail := files[1..], s[1..];
    assert (if |files| <= |s| then files else files[..|s|])
        == [files[0]] + (if |rest| <= |tail| then rest else rest[..|tail|]);
  }

  lemma {:induction false} HandedFiles(s: seq<Entry>, files: seq<string>)
    ensures Files(Handed(s, files)) == Files(s) + multiset(if |files| <= |s| then files else files[..|s|])
  {
    if s != [] {
      var rest := if files == [] then [] else files[1..];
      assert Handed(s, files)[1..] == Handed(s[1..], rest);
      HandedFiles(s[1..], rest);
      if files != [] { UsedFiles(s, files); }
    }
  }

  // the request of retransmit_task_req_for_client
  datatype TaskRequest = TaskRequest(clients: seq<int>, files: seq<string>, reassigned: bool)

  // the client every resent file goes to; when no client is left, the id that marks a dead entry
  function Chosen(s: seq<Entry>, moderator: int): int {
    if s == [] then 0 else if s[0].client != moderator || |s| == 1 then s[0].client else s[1].client
  }

  // the first client that is not the moderator, or the moderator when it is alone
  lemma ChosenIsAnother(s: seq<Entry>, moderator: int)
    requires Tracked(s) && s != []
    ensures exists k :: 0 <= k < |s| && Chosen(s, moderator) == s[k].client
                        && (|s| > 1 ==> s[k].client != moderator) && forall j :: 0 <= j < k ==> s[j].client == moderator
  {
    if |s| > 1 && s[0].client == moderator {
      assert Clients(s)[0] != Clients(s)[1];
      assert Chosen(s, moderator) == s[1].client && s[1].client != moderator;
    } else {
      assert Chosen(s, moderator) == s[0].client;
    }
  }

  method Retransmit(taskMap: array<Entry>, working: nat, moderator: int, deadFiles: seq<string>)
      returns (req: TaskRequest)
    requires working <= taskMap.Length && |deadFiles| <= taskMap.Length && Tracked(taskMap[..working])
    requires working == 0 && taskMap.Length > 0 ==> taskMap[0].client == 0 != moderator
    modifies taskMap
    ensures taskMap[..] == Handed(old(taskMap[..]), deadFiles)
            && taskMap[..working] == Handed(old(taskMap[..working]), deadFiles)
    ensures req.files == deadFiles && req.reassigned && |req.clients| == |deadFiles|
    ensures forall j :: 0 <= j < |deadFiles| ==> req.clients[j] == Chosen(old(taskMap[..working]), moderator)
  {
    ghost var s, all := taskMap[..working], taskMap[..];
    assert forall k :: 0 <= k < working ==> s[k] == taskMap[k] && Clients(s)[k] == s[k].client;
    var index, j := 0, 0;
    var clients: seq<int> := [];
    while j < |deadFiles|
      invariant 0 <= j <= |deadFiles| && |clients| == j && 0 <= index <= 1 && (index == 0 || index < working)
      invariant taskMap[..] == all
      invariant index == 1 ==> s[0].client == moderator
      invariant forall k :: 0 <= k < j ==> clients[k] == Chosen(s, moderator)
    {
      var client := taskMap[0].client;
      client, index := NextClient(taskMap, working, moderator, index);
      clients := clients + [client];
      j := j + 1;
    }
    var i := 0;
    while i < |deadFiles|
      invariant 0 <= i <= |deadFiles|
      invariant forall k :: 0 <= k < taskMap.Length ==>
                  taskMap[k] == if k < i then all[k].(files := all[k].files + [deadFiles[k]]) else all[k]
    {
      taskMap[i] := taskMap[i].(files := taskMap[i].files + [deadFiles[i]]);
      i := i + 1;
    }
    req := TaskRequest(clients, deadFiles, true);
  }

  // the do-while over the map: from index on, the first entry that is not the moderator, else the first entry of all
  method NextClient(taskMap: array<Entry>, working: nat, moderator: int, index0: nat) returns (client: int, index: nat)
    requires working <= taskMap.Length && 0 < taskMap.Length && Tracked(taskMap[..working]) && index0 <= 1
             && (index0 == 0 || index0 < working)
    requires index0 == 1 ==> taskMap[0].client == moderator
    requires working == 0 ==> taskMap[0].client == 0 != moderator
    ensures client == Chosen(taskMap[..working], moderator) && index <= 1 && (index == 0 || index < working)
    ensures index == 1 ==> taskMap[0].client == moderator
  {
    ghost var s := taskMap[..working];
    assert forall k :: 0 <= k < working ==> s[k] == taskMap[k] && Clients(s)[k] == s[k].client;
    client := taskMap[0].client;
    var start := index0;
    index := index0;
    var again := true;
    while again
      invariant 0 <= index <= 1 && (index == 0 || index < working)
                && (!again ==> working == 1 && s[0].client == moderator)
      invariant index == 1 ==> taskMap[0].client == moderator
      invariant client == taskMap[0].client && start == index0
      invariant index == start || (index == 1 && start == 0)
      decreases if !again then 0 else if index == start then 2 else 1
    {
      if taskMap[index].client != moderator {
        client := taskMap[index].client;
        break;
      }
      index := (index + 1) % working;
      again := index != start;
    }
  }

  // the files of a client
  ghost function FilesOf(s: seq<Entry>, client: int): seq<string>
    requires client in Clients(s)
  {
    s[PlaceOf(Clients(s), client)].files
  }

  ghost function PlaceOf(cs: seq<int>, c: int): (i: nat)
    requires c in cs
    ensures i < |cs| && cs[i] == c
  {
    if cs[0] == c then 0 else 1 + PlaceOf(cs[1..], c)
  }

  // the files held by these clients
  function DeadFiles(s: seq<Entry>, dead: seq<int>): multiset<string> {
    if s == [] then multiset{}
    else (if s[0].client in dead then multiset(s[0].files) else multiset{}) + DeadFiles(s[1..], dead)
  }

  lemma {:induction false} FilesDivide(s: seq<Entry>, dead: seq<int>)
    ensures Files(s) == Files(Survivors(s, dead)) + DeadFiles(s, dead)
  {
    if s != [] {
      FilesDivide(s[1..], dead);
      var live, lost := Survivors(s[1..], dead), DeadFiles(s[1..], dead);
      if s[0].client !in dead {
        assert Survivors(s, dead) == [s[0]] + live && ([s[0]] + live)[1..] == live;
        assert DeadFiles(s, dead) == lost;
      } else {
        assert Survivors(s, dead) == live && DeadFiles(s, dead) == multiset(s[0].files) + lost;
      }
    }
  }

  lemma {:induction false} DeadFilesOfOne(s: seq<Entry>, client: int)
    requires Tracked(s)
    ensures DeadFiles(s, [client]) == if client in Clients(s) then multiset(FilesOf(s, client)) else multiset{}
  {
    if s != [] {
      TrackedTail(s);
      assert Clients(s)[1..] == Clients(s[1..]);
      DeadFilesOfOne(s[1..], client);
      if client in Clients(s) && s[0].client != client { OnceIndexed(s, client); }
      assert client in Clients(s) ==> Clients(s)[PlaceOf(Clients(s), client)] == client;
    }
  }

  lemma OnceIndexed(s: seq<Entry>, client: int)
    requires s != [] && client in Clients(s) && s[0].client != client && client in Clients(s[1..])
    ensures FilesOf(s, client) == FilesOf(s[1..], client)
  {
    assert Clients(s)[0] != client && Clients(s)[1..] == Clients(s[1..]);
  }

  lemma HandedTracked(s: seq<Entry>, files: seq<string>)
    requires Tracked(s)
    ensures Tracked(Handed(s, files)) && Clients(Handed(s, files)) == Clients(s)
  {
  }

  // what one report of dead clients does to the map
  ghost predicate Resent(s: seq<Entry>, t: seq<Entry>, reported: seq<int>, moderator: int, req: Option<TaskRequest>)
    requires reported != [] && reported[|reported| - 1] in Clients(s)
  {
    var files := FilesOf(s, reported[|reported| - 1]);
    && req.Some? && req.value.files == files && req.value.reassigned && |req.value.clients| == |files|
    && exists kept :: Compacted(s, reported, kept) && t == Handed(kept, files)
         && forall j :: 0 <= j < |files| ==> req.value.clients[j] == Chosen(kept, moderator)
  }

  // the survivors in some order, in theirs when the dead clients came last
  ghost predicate Compacted(s: seq<Entry>, dead: seq<int>, kept: seq<Entry>) {
    && multiset(kept) == multiset(Survivors(s, dead)) && Tracked(kept)
    && (AtEnd(s, dead) ==> kept == s[..|s| - |dead|])
  }

  ghost predicate AtEnd(s: seq<Entry>, dead: seq<int>) {
    |dead| <= |s| && forall i :: 0 <= i < |s| ==> (s[i].client in dead <==> |s| - |dead| <= i)
  }

  lemma {:induction false} FilesOfPermutation(a: seq<Entry>, b: seq<Entry>)
    requires multiset(a) == multiset(b)
    ensures Files(a) == Files(b)
  {
    assert |multiset(a)| == |a| && |multiset(b)| == |b|;
    if a != [] {
      var l, r := WithoutFirst(a, b);
      FilesOfPermutation(a[1..], l + r);
      FilesJoin(l, r);
      FilesJoin(l, [a[0]] + r);
      FilesJoin([a[0]], r);
      assert a == [a[0]] + a[1..];
    }
  }

  lemma FewerFiles(files: seq<string>, n: nat)
    requires n < |files|
    ensures multiset(files) != multiset(files[..n])
  {
    assert |multiset(files)| == |files| && |multiset(files[..n])| == n;
  }

  // handling one reported client conserves the files of the live entries exactly when it had no more
  // files than there are survivors; they go to a survivor, and to the moderator only if no one else is left
  lemma OneDeathConserves(s: seq<Entry>, t: seq<Entry>, client: int, moderator: int, req: Option<TaskRequest>)
    requires Tracked(s) && client in Clients(s) && Resent(s, t, [client], moderator, req)
    ensures Files(t) == Files(s) <==> |FilesOf(s, client)| <= |s| - 1
    ensures req.value.files == FilesOf(s, client)
    ensures forall c :: c in req.value.clients ==> if |s| == 1 then c == 0
            else c in Clients(s) && c != client && (c == moderator ==> |s| == 2)
  {
    var files := FilesOf(s, client);
    var kept :| Compacted(s, [client], kept) && t == Handed(kept, files)
                && forall j :: 0 <= j < |files| ==> req.value.clients[j] == Chosen(kept, moderator);
    KeptCount(s, client, kept);
    if kept != [] { ChosenSurvives(s, [client], kept, moderator); }
    OneDeathFiles(s, client, kept);
    AllTheSame(req.value.clients, Chosen(kept, moderator));
  }

  lemma AllTheSame(s: seq<int>, x: int)
    requires forall j :: 0 <= j < |s| ==> s[j] == x
    ensures forall c :: c in s ==> c == x
  {
  }

  lemma KeptCount(s: seq<Entry>, client: int, kept: seq<Entry>)
    requires Tracked(s) && client in Clients(s) && multiset(kept) == multiset(Survivors(s, [client]))
    ensures |kept| == |s| - 1
  {
    SurvivorCount(s, [client]);
    assert |multiset(kept)| == |kept| && |multiset(Survivors(s, [client]))| == |Survivors(s, [client])|;
  }

  lemma OneDeathFiles(s: seq<Entry>, client: int, kept: seq<Entry>)
    requires Tracked(s) && client in Clients(s) && multiset(kept) == multiset(Survivors(s, [client]))
    ensures Files(Handed(kept, FilesOf(s, client))) == Files(s) <==> |FilesOf(s, client)| <= |kept|
  {
    var files := FilesOf(s, client);
    FilesOfPermutation(kept, Survivors(s, [client]));
    FilesDivide(s, [client]);
    DeadFilesOfOne(s, client);
    HandedFiles(kept, files);
    if |files| > |kept| {
      FewerFiles(files, |kept|);
      CancelSum(Files(kept), multiset(files), multiset(files[..|kept|]));
    }
  }

  lemma {:induction false} SurvivorEntries(s: seq<Entry>, dead: seq<int>, e: Entry)
    requires e in Survivors(s, dead)
    ensures e.client in Clients(s) && e.client !in dead
  {
    if s[0].client in dead || e != s[0] {
      SurvivorEntries(s[1..], dead, e);
      var k :| 0 <= k < |s[1..]| && Clients(s[1..])[k] == e.client;
      assert Clients(s)[k + 1] == e.client;
    } else {
      assert Clients(s)[0] == e.client;
    }
  }

  lemma ChosenSurvives(s: seq<Entry>, dead: seq<int>, kept: seq<Entry>, moderator: int)
    requires multiset(kept) == multiset(Survivors(s, dead)) && kept != [] && Tracked(kept)
    ensures var c := Chosen(kept, moderator); c in Clients(s) && c !in dead && (c == moderator ==> |kept| == 1)
  {
    var e := if kept[0].client != moderator || |kept| == 1 then kept[0] else kept[1];
    assert e in multiset(kept);
    SurvivorEntries(s, dead, e);
    assert |kept| > 1 ==> Clients(kept)[0] != Clients(kept)[1];
  }

  lemma {:induction false} DeadFilesSplit(s: seq<Entry>, a: seq<int>, client: int)
    requires Tracked(s) && client !in a && client in Clients(s)
    ensures DeadFiles(s, a + [client]) == DeadFiles(s, a) + multiset(FilesOf(s, client))
  {
    TrackedTail(s);
    assert Clients(s)[1..] == Clients(s[1..]) && Clients(s)[PlaceOf(Clients(s), client)] == client;
    if s[0].client == client {
      DeadFilesNone(s[1..], a, client);
    } else {
      OnceIndexed(s, client);
      DeadFilesSplit(s[1..], a, client);
      assert s[0].client in a + [client] <==> s[0].client in a;
    }
  }

  lemma {:induction false} DeadFilesNone(s: seq<Entry>, a: seq<int>, client: int)
    requires client !in Clients(s)
    ensures DeadFiles(s, a + [client]) == DeadFiles(s, a)
  {
    if s != [] {
      assert Clients(s)[0] == s[0].client && Clients(s)[1..] == Clients(s[1..]);
      assert s[0].client in a + [client] <==> s[0].client in a;
      DeadFilesNone(s[1..], a, client);
    }
  }

  // with several clients reported at once the files of all but the last are lost: they are conserved
  // exactly when the others held none and those of the last fit
  lemma ManyDeathsConserve(s: seq<Entry>, t: seq<Entry>, others: seq<int>, client: int, moderator: int,
      req: Option<TaskRequest>)
    requires Tracked(s) && Distinct(others + [client]) && forall d :: d in others + [client] ==> d in Clients(s)
    requires client in Clients(s) && Resent(s, t, others + [client], moderator, req)
    ensures Files(t) == Files(s) <==> DeadFiles(s, others) == multiset{} && |FilesOf(s, client)| < |s| - |others|
  {
    var reported := others + [client];
    var files := FilesOf(s, client);
    var kept :| Compacted(s, reported, kept) && t == Handed(kept, files);
    assert forall i :: 0 <= i < |others| ==> reported[i] == others[i] && reported[|others|] == client;
    SurvivorCount(s, reported);
    assert |multiset(kept)| == |kept| && |multiset(Survivors(s, reported))| == |Survivors(s, reported)|;
    FilesOfPermutation(kept, Survivors(s, reported));
    FilesDivide(s, reported);
    DeadFilesSplit(s, others, client);
    HandedFiles(kept, files);
    var handed := if |files| <= |kept| then files else files[..|kept|];
    CancelSum(Files(kept), DeadFiles(s, reported), multiset(handed));
    assert |multiset(files)| == |files| && |multiset(handed)| == |handed|;
    assert |DeadFiles(s, reported)| == |DeadFiles(s, others)| + |files|;
  }

  lemma {:induction false} SurvivorStays(s: seq<Entry>, dead: seq<int>, client: int)
    requires client in Clients(s) && client !in dead
    ensures exists e :: e in Survivors(s, dead) && e.client == client
  {
    if s[0].client == client {
      assert s[0] in Survivors(s, dead);
    } else {
      assert Clients(s)[0] != client && Clients(s)[1..] == Clients(s[1..]);
      SurvivorStays(s[1..], dead, client);
      var e :| e in Survivors(s[1..], dead) && e.client == client;
      assert e in Survivors(s, dead);
    }
  }

  lemma KeptHas(s: seq<Entry>, dead: seq<int>, kept: seq<Entry>, client: int)
    requires multiset(kept) == multiset(Survivors(s, dead)) && client in Clients(s) && client !in dead
    ensures client in Clients(kept)
  {
    SurvivorStays(s, dead, client);
    var e :| e in Survivors(s, dead) && e.client == client;
    assert e in multiset(kept);
    var k :| 0 <= k < |kept| && kept[k] == e;
    assert Clients(kept)[k] == client;
  }

  lemma ResentKeepsClient(s: seq<Entry>, t: seq<Entry>, dead: int, client: int, moderator: int,
      req: Option<TaskRequest>)
    requires dead in Clients(s) && Resent(s, t, [dead], moderator, req) && client in Clients(s) && client != dead
    ensures client in Clients(t)
  {
    var kept :| Compacted(s, [dead], kept) && t == Handed(kept, FilesOf(s, dead));
    KeptHas(s, [dead], kept, client);
    HandedTracked(kept, FilesOf(s, dead));
  }

  // a report never makes files up
  lemma ResentKeepsFiles(s: seq<Entry>, t: seq<Entry>, others: seq<int>, client: int, moderator: int,
      req: Option<TaskRequest>)
    requires Tracked(s) && Distinct(others + [client]) && forall d :: d in others + [client] ==> d in Clients(s)
    requires client in Clients(s) && Resent(s, t, others + [client], moderator, req)
    ensures Files(t) <= Files(s) && Tracked(t)
  {
    var reported := others + [client];
    var files := FilesOf(s, client);
    assert reported[|others|] == client;
    assert forall i :: 0 <= i < |others| ==> reported[i] == others[i];
    var kept :| Compacted(s, reported, kept) && t == Handed(kept, files);
    KeptFilesBound(s, kept, others, client);
    HandedTracked(kept, files);
  }

  lemma PrefixFiles(files: seq<string>, n: nat)
    requires n <= |files|
    ensures multiset(files[..n]) <= multiset(files)
  {
    assert files == files[..n] + files[n..];
  }

  lemma KeptFilesBound(s: seq<Entry>, kept: seq<Entry>, others: seq<int>, client: int)
    requires Tracked(s) && client !in others && client in Clients(s)
    requires multiset(kept) == multiset(Survivors(s, others + [client]))
    ensures Files(Handed(kept, FilesOf(s, client))) <= Files(s)
  {
    var files := FilesOf(s, client);
    FilesOfPermutation(kept, Survivors(s, others + [client]));
    FilesDivide(s, others + [client]);
    DeadFilesSplit(s, others, client);
    HandedFiles(kept, files);
    if |files| > |kept| { PrefixFiles(files, |kept|); }
  }
}
