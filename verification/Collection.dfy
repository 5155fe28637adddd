// A task that sums numbers, from the chunks to the answer of the moderator.
module Collection {
  import opened Basics
  import opened Permutations
  import opened TaskSplit
  import opened TaskSum
  import opened ModeratorLists
  import opened Moderation

  ghost function Counting(primes: bool): nat -> bool { if primes then Prime else Any }

  // what a client does with its file
  method Work(chunk: seq<char>, primes: bool) returns (answer: Option<seq<char>>)
    ensures answer == AnswerOf(chunk, Counting(primes))
  {
    var taskCount := Newlines(chunk);
    if primes {
      answer := FindPrimeSum(chunk, taskCount);
    } else {
      answer := FindSum(chunk, taskCount);
    }
  }

  // a client and the chunk it works on
  datatype Job = Job(client: int, chunk: seq<char>)

  function Jobs(clients: seq<int>, chunks: seq<seq<char>>): (r: seq<Job>)
    requires |clients| == |chunks|
    ensures |r| == |clients| && forall i :: 0 <= i < |r| ==> r[i] == Job(clients[i], chunks[i])
  {
    seq(|clients|, i requires 0 <= i < |clients| => Job(clients[i], chunks[i]))
  }

  function ClientOf(j: Job): int { j.client }

  ghost function ReplyOf(keep: nat -> bool): Job -> seq<char> { (j: Job) => Print(LineSum(j.chunk, keep)) }

  // the answers of all jobs are those of the chunks, in whatever order they arrive
  lemma JobsAnswer(clients: seq<int>, chunks: seq<seq<char>>, arrivals: seq<Job>, keep: nat -> bool)
    requires |clients| == |chunks| && multiset(arrivals) == multiset(Jobs(clients, chunks)) && [] !in chunks
    ensures Answers(Mapped(ReplyOf(keep), arrivals), chunks, keep)
    ensures multiset(Mapped(ClientOf, arrivals)) == multiset(clients) && |arrivals| == |clients|
    ensures forall i :: 0 <= i < |arrivals| ==> arrivals[i].chunk != []
  {
    var jobs := Jobs(clients, chunks);
    MappedPermutation(ReplyOf(keep), arrivals, jobs);
    MappedPermutation(ClientOf, arrivals, jobs);
    assert Mapped(ClientOf, jobs) == clients;
    assert Mapped(ReplyOf(keep), jobs) == Printed(PartSums(chunks, keep));
    assert |multiset(arrivals)| == |arrivals| && |multiset(jobs)| == |jobs|;
    forall i | 0 <= i < |arrivals| ensures arrivals[i].chunk != [] {
      assert arrivals[i] in multiset(jobs);
      var k :| 0 <= k < |jobs| && jobs[k] == arrivals[i];
      assert chunks[k] in chunks;
    }
  }

  // the clients that have not answered yet
  ghost function StillOut(arrivals: seq<Job>, i: int): multiset<int>
    requires 0 <= i <= |arrivals|
  {
    multiset(Mapped(ClientOf, arrivals[i..]))
  }

  lemma NextOut(arrivals: seq<Job>, i: nat, keep: nat -> bool)
    requires i < |arrivals|
    ensures StillOut(arrivals, i) == multiset{arrivals[i].client} + StillOut(arrivals, i + 1)
    ensures Mapped(ReplyOf(keep), arrivals[..i + 1]) == Mapped(ReplyOf(keep), arrivals[..i])
            + [ReplyOf(keep)(arrivals[i])]
    ensures Mapped(ClientOf, arrivals[..i + 1]) == Mapped(ClientOf, arrivals[..i]) + [arrivals[i].client]
  {
    var rest := arrivals[i + 1..];
    assert arrivals[i..] == [] + ([arrivals[i]] + rest) && [] + rest == rest;
    MappedMoves(ClientOf, [], arrivals[i], rest);
  }

  // the moderator sums numbers, and these have been recorded
  ghost predicate Summing(m: Moderator, a: seq<string>, b: seq<int>)
    requires |a| == |b|
    reads m, m.Held(), m.lists, m.lists.pend, m.lists.done, m.lists.Elements()
  {
    && m.Valid() && (m.rsp == null || m.rsp.kind == TypeLong) && m.Results() == Zip(a, b)
    && (!m.active ==> m.sent == [Sent(TypeLong, a, b, Print(MergedSum(a)), false)])
  }

  // Summing, for proofs that only carry it along
  ghost predicate Summed(m: Moderator, a: seq<string>, b: seq<int>)
    reads m, m.Held(), m.lists, m.lists.pend, m.lists.done, m.lists.Elements()
  {
    && |a| == |b| && m.active == (|a| < m.expected)
    && forall u: Gate {:trigger Opened(u)} :: Opened(u) && u == ModeratorGate ==> Summing(m, a, b)
  }

  lemma ZipParts(a: seq<string>, b: seq<int>, c: seq<string>, d: seq<int>)
    requires |a| == |b| && |c| == |d| && Zip(a, b) == Zip(c, d)
    ensures a == c && b == d
  {
    assert |a| == |c|;
    forall i | 0 <= i < |a| ensures a[i] == c[i] && b[i] == d[i] { assert Zip(a, b)[i] == Zip(c, d)[i]; }
  }

  lemma ZipMore(a: seq<string>, b: seq<int>, x: string, y: int)
    requires |a| == |b|
    ensures Zip(a + [x], b + [y]) == Zip(a, b) + [(x, y)]
  {
  }

  lemma RecordedAre(m: Moderator, a: seq<string>, b: seq<int>)
    requires m.Valid() && |a| == |b| > 0 && m.Results() == Zip(a, b)
    ensures m.rsp != null && m.rsp.num == |a| && m.rsp.result[..|a|] == a && m.rsp.clients[..|a|] == b
  {
    assert m.rsp != null;
    ZipParts(m.rsp.result[..m.rsp.num], m.rsp.clients[..m.rsp.num], a, b);
  }

  // an answer of a client that owes one
  method Feed(m: Moderator, peer: int, answer: string, ghost a: seq<string>, ghost b: seq<int>)
    requires Summed(m, a, b) && m.active && Owes(m.lists.pending, peer) > 0
    modifies m`rsp, m`duplicates, m`sent, m`active, m.Held(), m.lists, m.lists.pend, m.lists.done, m.lists.Elements()
    ensures Summed(m, a + [answer], b + [peer]) && Settled(old(m.lists.pending), m.lists.pending, peer)
            && StillBeating(old(m.lists.pending), m.lists.pending)
    ensures fresh(m.Held() - old(m.Held())) && m.lists.Elements() == old(m.lists.Elements())
  {
    assert Opened(ModeratorGate);
    m.PendingOwes(peer);
    ZipMore(a, b, answer, peer);
    m.TaskResponse(peer, TypeLong, answer);
    RecordedAre(m, a + [answer], b + [peer]);
  }

  // the first i answers have come in
  ghost predicate Halfway(m: Moderator, arrivals: seq<Job>, i: int, keep: nat -> bool)
    reads m, m.Held(), m.lists, m.lists.pend, m.lists.done, m.lists.Elements()
  {
    && 0 <= i <= |arrivals| == m.expected
    && Summed(m, Mapped(ReplyOf(keep), arrivals[..i]), Mapped(ClientOf, arrivals[..i]))
    && forall c :: Owes(m.lists.pending, c) == StillOut(arrivals, i)[c]
  }

  // Halfway, for proofs that only carry it along
  ghost predicate Partway(m: Moderator, arrivals: seq<Job>, i: int, keep: nat -> bool)
    reads m, m.Held(), m.lists, m.lists.pend, m.lists.done, m.lists.Elements()
  {
    forall u: Gate {:trigger Opened(u)} :: Opened(u) && u == JobGate ==> Halfway(m, arrivals, i, keep)
  }

  lemma OwedNext(before: seq<ModNode>, after: seq<ModNode>, peer: int, rest: multiset<int>)
    requires Settled(before, after, peer) && forall c :: Owes(before, c) == (multiset{peer} + rest)[c]
    ensures forall c :: Owes(after, c) == rest[c]
  {
  }

  method HearNext(m: Moderator, arrivals: seq<Job>, i: nat, answer: string, ghost keep: nat -> bool)
    requires i < |arrivals| && Halfway(m, arrivals, i, keep) && answer == ReplyOf(keep)(arrivals[i])
    modifies m`rsp, m`duplicates, m`sent, m`active, m.Held(), m.lists, m.lists.pend, m.lists.done, m.lists.Elements()
    ensures Halfway(m, arrivals, i + 1, keep)
    ensures fresh(m.Held() - old(m.Held())) && m.lists.Elements() == old(m.lists.Elements())
  {
    ghost var a, b := Mapped(ReplyOf(keep), arrivals[..i]), Mapped(ClientOf, arrivals[..i]);
    ghost var c, before := arrivals[i].client, m.lists.pending;
    NextOut(arrivals, i, keep);
    assert Owes(before, c) > 0;
    Feed(m, arrivals[i].client, answer, a, b);
    OwedNext(before, m.lists.pending, c, StillOut(arrivals, i + 1));
  }

  method TakeIn(m: Moderator, arrivals: seq<Job>, i: nat, answer: string, ghost keep: nat -> bool)
    requires i < |arrivals| && Partway(m, arrivals, i, keep) && answer == ReplyOf(keep)(arrivals[i])
    modifies m`rsp, m`duplicates, m`sent, m`active, m.Held(), m.lists, m.lists.pend, m.lists.done, m.lists.Elements()
    ensures Partway(m, arrivals, i + 1, keep)
    ensures fresh(m.Held() - old(m.Held())) && m.lists.Elements() == old(m.lists.Elements())
  {
    assert Opened(JobGate);
    HearNext(m, arrivals, i, answer, keep);
  }

  // every client works on its chunk
  method WorkAll(arrivals: seq<Job>, primes: bool) returns (answers: seq<string>)
    requires forall i :: 0 <= i < |arrivals| ==> arrivals[i].chunk != []
    ensures answers == Mapped(ReplyOf(Counting(primes)), arrivals)
  {
    answers := [];
    var i := 0;
    while i < |arrivals|
      invariant 0 <= i <= |arrivals| && answers == Mapped(ReplyOf(Counting(primes)), arrivals[..i])
    {
      var answer := WorkOn(arrivals[i], primes);
      NextOut(arrivals, i, Counting(primes));
      answers := answers + [answer];
      i := i + 1;
    }
    assert arrivals[..i] == arrivals;
  }

  method WorkOn(j: Job, primes: bool) returns (answer: seq<char>)
    requires j.chunk != []
    ensures answer == ReplyOf(Counting(primes))(j)
  {
    var a := Work(j.chunk, primes);
    answer := a.value;
  }

  // one answer for each chunk reaches the moderator, in any order
  method Gather(m: Moderator, arrivals: seq<Job>, answers: seq<string>, ghost keep: nat -> bool)
    requires m.Valid() && m.active && m.rsp == null && m.expected == |arrivals|
    requires forall c :: Owes(m.lists.pending, c) == multiset(Mapped(ClientOf, arrivals))[c]
    requires answers == Mapped(ReplyOf(keep), arrivals)
    modifies m`rsp, m`duplicates, m`sent, m`active, m.Held(), m.lists, m.lists.pend, m.lists.done, m.lists.Elements()
    ensures m.Valid() && !m.active && |m.sent| == 1
    ensures var s := m.sent[0];
            && s.kind == TypeLong && s.result == answers && s.clients == Mapped(ClientOf, arrivals) && !s.forced
            && s.finalResp == Print(MergedSum(answers))
  {
    var i := 0;
    assert arrivals[0..] == arrivals;
    while i < |arrivals|
      invariant i <= |arrivals| && Partway(m, arrivals, i, keep)
      invariant fresh(m.Held() - old(m.Held())) && m.lists.Elements() == old(m.lists.Elements())
    {
      TakeIn(m, arrivals, i, answers[i], keep);
      i := i + 1;
    }
    assert arrivals[..i] == arrivals;
    assert Opened(JobGate) && Opened(ModeratorGate);
  }

  // the whole way: a text is split, every client works on its chunk, and the answers come in, in any order. What
  // the moderator sends is the merged sum, and on clean chunks the sequential one
  method CollectSum(m: Moderator, ghost src: seq<char>, ghost caps: seq<nat>, ghost clients: seq<int>,
      arrivals: seq<Job>, primes: bool)
    requires |caps| == |clients| == m.expected && 0 < TaskSplit.Sum(caps) < WORD && [] !in ChunksOf(src, caps)
    requires m.Valid() && m.active && m.rsp == null
    requires forall c :: Owes(m.lists.pending, c) == multiset(clients)[c]
    requires |ChunksOf(src, caps)| == |clients|
    requires multiset(arrivals) == multiset(Jobs(clients, ChunksOf(src, caps)))
    modifies m`rsp, m`duplicates, m`sent, m`active, m.Held(), m.lists, m.lists.pend, m.lists.done, m.lists.Elements()
    ensures m.Valid() && !m.active && |m.sent| == 1
    ensures var keep, cut, s := Counting(primes), ChunksOf(src, caps), m.sent[0];
            && s.kind == TypeLong && s.clients == Mapped(ClientOf, arrivals) && !s.forced
            && s.result == Mapped(ReplyOf(keep), arrivals)
            && s.finalResp == Print(MergedSum(s.result))
            && LineSum(src, keep) == Added(MergedSum(s.result), Off(cut, TailOf(src), keep))
            && (Clean(cut, TailOf(src), keep) ==> s.finalResp == Print(LineSum(src, keep)))
  {
    ghost var keep := Counting(primes);
    JobsAnswer(clients, ChunksOf(src, caps), arrivals, keep);
    var answers := WorkAll(arrivals, primes);
    Gather(m, arrivals, answers, keep);
    DistributedSum(src, caps, m.sent[0].result, keep);
    DistributedSumIsSequential(src, caps, m.sent[0].result, keep);
  }

  // ---- a chunk that is counted twice ----

  lemma {:induction false} SumWith(s: seq<int>, i: nat, x: int)
    requires i < |s|
    ensures TaskSplit.Sum(s[i := x]) == TaskSplit.Sum(s) - s[i] + x
  {
    if i == 0 {
      assert s[0 := x][1..] == s[1..];
    } else {
      assert s[i := x][1..] == s[1..][i - 1 := x];
      SumWith(s[1..], i - 1, x);
    }
  }

  // numbers are not filtered: when the answer to chunk j is recorded in place of the one to chunk i, the merged
  // sum survives exactly when the two answers read the same
  lemma MergeWithRepeat(parts: seq<int>, i: nat, j: nat)
    requires i < |parts| && j < |parts| && forall k :: 0 <= k < |parts| ==> 0 <= parts[k] < LONG
    ensures MergedSum(Printed(parts[i := parts[j]])) == MergedSum(Printed(parts)) <==>
            Saturated(parts[i]) == Saturated(parts[j])
  {
    var n := Numbers(Printed(parts));
    ReadNumbers(parts);
    ReadNumbers(parts[i := parts[j]]);
    assert Numbers(Printed(parts[i := parts[j]])) == n[i := n[j]];
    SumWith(n, i, n[j]);
    ApartModulo(TaskSplit.Sum(n), n[i], n[j]);
  }

  lemma ReadNumbers(parts: seq<int>)
    requires forall k :: 0 <= k < |parts| ==> 0 <= parts[k] < LONG
    ensures var n := Numbers(Printed(parts));
            |n| == |parts| && forall k :: 0 <= k < |parts| ==> n[k] == Saturated(parts[k])
  {
    forall k | 0 <= k < |parts| ensures Numbers(Printed(parts))[k] == Saturated(parts[k]) { PrintReads(parts[k]); }
  }

  lemma ApartModulo(sum: int, x: int, y: int)
    requires 0 <= x <= LONG_MAX && 0 <= y <= LONG_MAX
    ensures (sum - x + y) % LONG == sum % LONG <==> x == y
  {
    ModCancel(sum, y - x);
  }

  // and this is how it comes about: client b has answered one of its two chunks when a pass finds that it has no
  // heartbeat left. Both chunks go to the moderator itself, and the first answers to reach it again close the task,
  // the other chunk missing
  method CountTwice(m: Moderator, b: int, first: string, own: string) returns (givenUp: bool)
    requires m.Valid() && m.active && m.rsp == null && m.expected == 3 && b != m.self
    requires forall c :: Owes(m.lists.pending, c) == if c == b then 2 else if c == m.self then 1 else 0
    modifies m, m.Held(), m.lists, m.lists.pend, m.lists.done, m.lists.Elements()
    ensures m.Valid() && (givenUp <==> ModNode(b, 2, 0) in old(m.lists.pending))
    ensures givenUp ==>
              |m.sent| == 1 && m.sent[0] == Sent(TypeLong, [first, first, own], [b, m.self, m.self],
                                                 Print(MergedSum([first, first, own])), false)
  {
    givenUp := AnswerAndPass(m, b, first);
    if givenUp {
      AnswerAgain(m, b, first, own);
    } else {
      assert Opened(ModeratorGate);
    }
  }

  method AnswerAndPass(m: Moderator, b: int, first: string) returns (givenUp: bool)
    requires m.Valid() && m.active && m.rsp == null && m.expected == 3 && b != m.self
    requires forall c :: Owes(m.lists.pending, c) == if c == b then 2 else if c == m.self then 1 else 0
    modifies m`rsp, m`duplicates, m`sent, m`active, m`since, m`removed, m.Held(), m.lists, m.lists.pend, m.lists.done,
             m.lists.Elements()
    ensures Summed(m, [first], [b]) && m.active && m.rsp != null && m.expected == 3
    ensures fresh(m.Held() - old(m.Held())) && m.lists.Elements() <= old(m.lists.Elements())
    ensures givenUp <==> ModNode(b, 2, 0) in old(m.lists.pending)
    ensures givenUp ==> forall c :: Owes(m.lists.pending, c) == if c == m.self then 1 else 0
  {
    ghost var s := m.lists.pending;
    assert Opened(OwingGate);
    Feed(m, b, first, [], []);
    assert [] + [first] == [first] && [] + [b] == [b];
    assert Opened(ModeratorGate);
    KeepsBeat(s, m.lists.pending, b);
    givenUp := PassOver(m, b, first);
  }

  method PassOver(m: Moderator, b: int, first: string) returns (givenUp: bool)
    requires Summed(m, [first], [b]) && m.active && m.expected == 3 && b != m.self
    requires forall c :: Owes(m.lists.pending, c) == if c == b || c == m.self then 1 else 0
    modifies m`since, m`removed, m.lists, m.lists.pend, m.lists.done, m.lists.Elements()
    ensures Summed(m, [first], [b]) && m.active && m.rsp != null && m.lists.Elements() <= old(m.lists.Elements())
    ensures givenUp <==> ModNode(b, 1, 0) in old(m.lists.pending)
    ensures givenUp ==> forall c :: Owes(m.lists.pending, c) == if c == m.self then 1 else 0
  {
    assert Opened(ModeratorGate);
    assert Opened(OwingGate);
    ghost var t := m.lists.pending;
    forall c ensures Has(t, c) <==> c == b || c == m.self { m.PendingOwes(c); }
    RecordedAre(m, [first], [b]);
    var dead := m.Timeout();
    givenUp := dead == [b];
    LastBeat(m, t, m.lists.pending, dead, b);
  }

  lemma OwedAt(s: seq<ModNode>, b: int) returns (k: nat)
    requires DistinctIds(s) && Owes(s, b) > 0
    ensures k < |s| && s[k] == ModNode(b, Owes(s, b), s[k].heartbeat)
  {
    if !Has(s, b) { OwesNone(s, b); }
    k :| 0 <= k < |s| && s[k].id == b;
    OwesAt(s, k);
  }

  // an answer leaves the heartbeat of its client alone
  lemma KeepsBeat(s: seq<ModNode>, t: seq<ModNode>, b: int)
    requires DistinctIds(s) && DistinctIds(t) && StillBeating(s, t) && Owes(s, b) == 2 && Owes(t, b) == 1
    ensures ModNode(b, 2, 0) in s <==> ModNode(b, 1, 0) in t
  {
    var i := OwedAt(s, b);
    var k := OwedAt(t, b);
    assert s[i] in s && t[k] in t;
    var n := if t[k] in s then t[k] else t[k].(refCount := t[k].refCount + 1);
    assert n in s;
    var j :| 0 <= j < |s| && s[j] == n;
    assert j == i;
    if ModNode(b, 2, 0) in s { var l :| 0 <= l < |s| && s[l] == ModNode(b, 2, 0); assert l == i; }
    if ModNode(b, 1, 0) in t { var l :| 0 <= l < |t| && t[l] == ModNode(b, 1, 0); assert l == k; }
  }

  // a pass gives client b up exactly when it has no heartbeat left, nobody else but the moderator being pending
  lemma LastBeat(m: Moderator, t: seq<ModNode>, u: seq<ModNode>, dead: seq<int>, b: int)
    requires DistinctIds(t) && Owes(t, b) == 1 && b != m.self && m.Passed(t, u, dead)
    requires forall c :: Has(t, c) ==> c == b || c == m.self
    ensures dead == [b] <==> ModNode(b, 1, 0) in t
  {
    var k := OwedAt(t, b);
    if dead != [] {
      var i :| m.PassedTo(t, u, dead, i);
      assert Has(t, t[i].id);
    }
  }

  method Reassign(m: Moderator, ghost a: seq<string>, ghost b: seq<int>)
    requires Summed(m, a, b) && m.active && a != []
    requires forall c :: Owes(m.lists.pending, c) == if c == m.self then 1 else 0
    modifies m`tasks, m`since, m`expected, m`state, m`activeClients, m.lists, m.lists.pend, m.lists.done,
             m.lists.Elements()
    ensures Summed(m, a, b) && m.active && m.expected == old(m.expected) && m.rsp == old(m.rsp)
    ensures fresh(m.lists.Elements() - old(m.lists.Elements()))
    ensures forall c :: Owes(m.lists.pending, c) == if c == m.self then 3 else 0
  {
    assert Opened(ModeratorGate);
    m.PerformTask([m.self, m.self], true);
  }

  method AnswerAgain(m: Moderator, b: int, first: string, own: string)
    requires Summed(m, [first], [b]) && m.active && m.rsp != null && m.expected == 3
    requires forall c :: Owes(m.lists.pending, c) == if c == m.self then 1 else 0
    modifies m, m.Held(), m.lists, m.lists.pend, m.lists.done, m.lists.Elements()
    ensures m.Valid() && |m.sent| == 1
    ensures m.sent[0] == Sent(TypeLong, [first, first, own], [b, m.self, m.self],
            Print(MergedSum([first, first, own])), false)
  {
    Reassign(m, [first], [b]);
    Feed(m, m.self, first, [first], [b]);
    assert [first] + [first] == [first, first] && [b] + [m.self] == [b, m.self];
    CloseTask(m, [first, first], [b, m.self], own);
    assert [first, first] + [own] == [first, first, own] && [b, m.self] + [m.self] == [b, m.self, m.self];
  }

  method CloseTask(m: Moderator, ghost a: seq<string>, ghost b: seq<int>, own: string)
    requires Summed(m, a, b) && |a| + 1 == m.expected && Owes(m.lists.pending, m.self) > 0
    modifies m`rsp, m`duplicates, m`sent, m`active, m.Held(), m.lists, m.lists.pend, m.lists.done, m.lists.Elements()
    ensures m.Valid() && m.sent == [Sent(TypeLong, a + [own], b + [m.self], Print(MergedSum(a + [own])), false)]
  {
    Feed(m, m.self, own, a, b);
    assert Opened(ModeratorGate);
  }
}
