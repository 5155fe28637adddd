// Dividing the lines of a task file among the working clients.
module TaskSplit {
  import opened Basics

  // ---- lines ----

  function Newlines(s: seq<char>): nat {
    if s == [] then 0 else (if s[0] == '\n' then 1 else 0) + Newlines(s[1..])
  }

  // a newline more or not, character by character
  lemma NewlinesMore(s: seq<char>, c: char)
    ensures Newlines([]) == 0 && Newlines(s + [c]) == Newlines(s) + if c as int == 10 then 1 else 0
  {
    NewlinesJoin(s, [c]);
    assert [c][1..] == [];
  }

  lemma {:induction false} NewlinesJoin(a: seq<char>, b: seq<char>)
    ensures Newlines(a + b) == Newlines(a) + Newlines(b)
  {
    if a == [] {
      assert a + b == b;
    } else {
      assert (a + b)[1..] == a[1..] + b;
      NewlinesJoin(a[1..], b);
    }
  }

  // empty, or ending with a newline
  predicate Whole(s: seq<char>) { s == [] || s[|s| - 1] == '\n' }

  // the text up to and with its last newline
  function WholeLines(s: seq<char>): seq<char> {
    if Whole(s) then s else WholeLines(s[..|s| - 1])
  }

  // where k lines from start on end, or the end of the text
  function LineEnd(s: seq<char>, start: nat, k: nat): (e: nat)
    requires start <= |s|
    ensures start <= e <= |s|
    decreases |s| - start
  {
    if k == 0 || start == |s| then start else LineEnd(s, start + 1, if s[start] == '\n' then k - 1 else k)
  }

  lemma {:induction false} LineEndCounts(s: seq<char>, start: nat, k: nat)
    requires start <= |s| && k <= Newlines(s[start..])
    ensures var e := LineEnd(s, start, k);
            Newlines(s[start..e]) == k && Whole(s[start..e]) && Newlines(s[e..]) == Newlines(s[start..]) - k
    decreases |s| - start
  {
    if k > 0 && start < |s| {
      var j := if s[start] == '\n' then k - 1 else k;
      assert s[start..][1..] == s[start + 1..];
      LineEndCounts(s, start + 1, j);
      var e := LineEnd(s, start + 1, j);
      assert s[start..e][1..] == s[start + 1..e] && s[start..e][0] == s[start];
      if e > start + 1 { assert s[start..e][e - start - 1] == s[start + 1..e][e - start - 2]; }
    }
  }

  // ---- the shares ----

  function Sum(s: seq<int>): int { if s == [] then 0 else s[0] + Sum(s[1..]) }

  lemma {:induction false} SumExtends(s: seq<int>, x: int)
    ensures Sum(s + [x]) == Sum(s) + x
  {
    if s == [] {
      assert [x][1..] == [];
    } else {
      assert (s + [x])[1..] == s[1..] + [x];
      SumExtends(s[1..], x);
    }
  }

  // in 32-bit arithmetic, as the server computes it
  function Share(capability: nat, count: nat, total: nat): nat
    requires total > 0
  {
    capability * count % WORD / total
  }

  // every client but the last gets its share, the last one what is left
  function Counts(caps: seq<nat>, count: nat, left: int, total: nat): seq<int>
    requires total > 0
  {
    if |caps| == 0 then []
    else if |caps| == 1 then [left]
    else
      var c := Share(caps[0], count, total);
      [c] + Counts(caps[1..], count, left - c, total)
  }

  lemma ShareBound(capability: nat, count: nat, total: nat)
    requires total > 0
    ensures Share(capability, count, total) * total <= capability * count
  {
    var p := capability * count;
    assert p % WORD <= p;
  }

  // the 32-bit share is the proportional one exactly when the product does not wrap
  lemma ShareIsProportional(capability: nat, count: nat, total: nat)
    requires 0 < total < WORD
    ensures Share(capability, count, total) == capability * count / total <==> capability * count < WORD
  {
    var p := capability * count;
    if p >= WORD {
      var q := p / WORD;
      assert p == q * WORD + p % WORD && q >= 1;
      assert q * WORD >= WORD > total;
      DivBelow(p % WORD, p, total);
    }
  }

  lemma Distributes(a: int, b: int, d: int)
    ensures (a + b) * d == a * d + b * d && (a - b) * d == a * d - b * d
  {
  }

  lemma TimesMonotone(a: int, b: int, d: nat)
    requires a <= b
    ensures a * d <= b * d
  {
  }

  lemma Floor(p: nat, d: nat)
    requires d > 0
    ensures p - (d - 1) <= p / d * d <= p
  {
  }

  lemma DivBelow(a: nat, b: nat, d: nat)
    requires d > 0 && a + d <= b
    ensures a / d < b / d
  {
    Floor(a, d);
    Floor(b, d);
    var p, q := a / d, b / d;
    if q <= p { TimesMonotone(q, p, d); }
  }

  lemma WrappedShare()
    ensures Share(70000, 70000, 100000) != 70000 * 70000 / 100000
  {
  }

  // the counts are never negative, so no unsigned subtraction underflows, and they add up
  lemma {:induction false} CountsAddUp(caps: seq<nat>, count: nat, left: int, total: nat)
    requires total > 0 && |caps| > 0 && Sum(caps) * count <= left * total
    ensures var cs := Counts(caps, count, left, total);
            |cs| == |caps| && Sum(cs) == left && forall i :: 0 <= i < |cs| ==> 0 <= cs[i] <= left
  {
    if |caps| == 1 {
      assert [left][1..] == [];
      assert caps[1..] == [] && Sum(caps) == caps[0];
      assert caps[0] * count >= 0;
      if left < 0 { TimesMonotone(left, -1, total); }
    } else {
      var c := Share(caps[0], count, total);
      ShareBound(caps[0], count, total);
      assert Sum(caps) * count == caps[0] * count + Sum(caps[1..]) * count;
      assert (left - c) * total == left * total - c * total;
      CountsAddUp(caps[1..], count, left - c, total);
      var cs := Counts(caps[1..], count, left - c, total);
      assert ([c] + cs)[1..] == cs;
      assert 0 <= cs[0] <= left - c;
    }
  }

  lemma {:induction false} CountsShares(caps: seq<nat>, count: nat, left: int, total: nat, i: nat)
    requires total > 0 && i < |caps| - 1
    ensures |Counts(caps, count, left, total)| == |caps| && Counts(caps, count, left, total)[i]
            == Share(caps[i], count, total)
    decreases i
  {
    CountsLength(caps, count, left, total);
    if i > 0 { CountsShares(caps[1..], count, left - Share(caps[0], count, total), total, i - 1); }
  }

  lemma {:induction false} CountsLength(caps: seq<nat>, count: nat, left: int, total: nat)
    requires total > 0
    ensures |Counts(caps, count, left, total)| == |caps|
  {
    if |caps| > 1 { CountsLength(caps[1..], count, left - Share(caps[0], count, total), total); }
  }

  // what the last client gets beyond its proportional share, times the total
  function Extra(caps: seq<nat>, count: nat, left: int, total: nat): int
    requires total > 0 && |caps| > 0
  {
    var n := |caps| - 1;
    CountsLength(caps, count, left, total);
    (Counts(caps, count, left, total)[n] - caps[n] * count / total) * total
  }

  lemma ExtraOfOne(caps: seq<nat>, count: nat, left: int, total: nat)
    requires total > 0 && |caps| == 1
    ensures left * total - Sum(caps) * count <= Extra(caps, count, left, total) <= left * total - Sum(caps) * count
            + total - 1
  {
    assert caps[1..] == [] && Sum(caps) == caps[0];
    Floor(caps[0] * count, total);
    Distributes(left, caps[0] * count / total, total);
  }

  lemma ExtraOfMore(caps: seq<nat>, count: nat, left: int, total: nat)
    requires total > 0 && |caps| > 1
    ensures var c := Share(caps[0], count, total);
            && Extra(caps, count, left, total) == Extra(caps[1..], count, left - c, total)
            && Sum(caps) * count == caps[0] * count + Sum(caps[1..]) * count
            && (left - c) * total == left * total - c * total
  {
    var c := Share(caps[0], count, total);
    CountsLength(caps[1..], count, left - c, total);
    Distributes(caps[0], Sum(caps[1..]), count);
    Distributes(left, c, total);
  }

  lemma {:induction false} ExtraAtLeast(caps: seq<nat>, count: nat, left: int, total: nat)
    requires total > 0 && |caps| > 0
    ensures Extra(caps, count, left, total) >= left * total - Sum(caps) * count
  {
    if |caps| == 1 {
      ExtraOfOne(caps, count, left, total);
    } else {
      ExtraOfMore(caps, count, left, total);
      ShareBound(caps[0], count, total);
      ExtraAtLeast(caps[1..], count, left - Share(caps[0], count, total), total);
    }
  }

  // unless a product wraps
  lemma {:induction false} ExtraAtMost(caps: seq<nat>, count: nat, left: int, total: nat)
    requires total > 0 && |caps| > 0 && forall i :: 0 <= i < |caps| ==> caps[i] * count < WORD
    ensures Extra(caps, count, left, total) <= left * total - Sum(caps) * count + |caps| * (total - 1)
  {
    if |caps| == 1 {
      ExtraOfOne(caps, count, left, total);
    } else {
      ExtraOfMore(caps, count, left, total);
      var p := caps[0] * count;
      Floor(p, total);
      assert p % WORD == p && Share(caps[0], count, total) == p / total;
      ExtraAtMost(caps[1..], count, left - Share(caps[0], count, total), total);
      Distributes(1, |caps| - 1, total - 1);
    }
  }

  // the split the server makes: capability_total is the sum of the capabilities
  lemma SplitIsFair(caps: seq<nat>, count: nat)
    requires |caps| > 0 && 0 < Sum(caps) < WORD
    ensures var cs := Counts(caps, count, count, Sum(caps));
            && |cs| == |caps| && Sum(cs) == count && (forall i :: 0 <= i < |cs| ==> cs[i] >= 0)
            && (forall i :: 0 <= i < |cs| - 1 ==> cs[i] == caps[i] * count % 0x1_0000_0000 / Sum(caps))
            && ((forall i :: 0 <= i < |cs| ==> caps[i] * count < WORD) ==>
                  var n := |cs| - 1; 0 <= cs[n] - caps[n] * count / Sum(caps) < |cs|)
  {
    var total, n := Sum(caps), |caps| - 1;
    var cs := Counts(caps, count, count, total);
    CountsAddUp(caps, count, count, total);
    forall i | 0 <= i < |cs| - 1 ensures cs[i] == Share(caps[i], count, total)
        { CountsShares(caps, count, count, total, i); }
    if forall i :: 0 <= i < |cs| ==> caps[i] * count < WORD {
      ExtraAtLeast(caps, count, count, total);
      ExtraAtMost(caps, count, count, total);
      BetweenMultiples(cs[n] - caps[n] * count / total, n + 1, total);
    }
  }

  lemma BetweenMultiples(extra: int, n: nat, total: nat)
    requires total > 0 && 0 <= extra * total <= n * (total - 1) && n > 0
    ensures 0 <= extra < n
  {
    if extra < 0 { TimesMonotone(extra, -1, total); }
    if extra >= n { TimesMonotone(n, extra, total); }
  }

  // ---- the chunks ----

  function Cut(s: seq<char>, start: nat, counts: seq<int>): seq<seq<char>>
    requires start <= |s|
    decreases |counts|
  {
    if counts == [] then []
    else
      var e := LineEnd(s, start, if counts[0] < 0 then 0 else counts[0]);
      [s[start..e]] + Cut(s, e, counts[1..])
  }

  function Join(parts: seq<seq<char>>): seq<char> {
    if parts == [] then [] else parts[0] + Join(parts[1..])
  }

  // the chunks are whole lines, as many as counted, and together the whole text up to its last newline
  lemma {:induction false} CutIsWhole(s: seq<char>, start: nat, counts: seq<int>)
    requires start <= |s| && Newlines(s[start..]) == Sum(counts) && forall i :: 0 <= i < |counts| ==> counts[i] >= 0
    ensures var cut := Cut(s, start, counts);
            && |cut| == |counts| && Join(cut) == WholeLines(s[start..])
            && forall i :: 0 <= i < |cut| ==> Newlines(cut[i]) == counts[i] && Whole(cut[i])
    decreases |counts|
  {
    if counts == [] {
      NoLine(s[start..]);
    } else {
      SumNonNegative(counts[1..]);
      LineEndCounts(s, start, counts[0]);
      var e := LineEnd(s, start, counts[0]);
      CutIsWhole(s, e, counts[1..]);
      assert s[start..] == s[start..e] + s[e..];
      BodyAfter(s[start..e], s[e..]);
    }
  }

  lemma {:induction false} SumNonNegative(s: seq<int>)
    requires forall i :: 0 <= i < |s| ==> s[i] >= 0
    ensures Sum(s) >= 0
  {
    if s != [] { SumNonNegative(s[1..]); }
  }

  lemma {:induction false} NoLine(s: seq<char>)
    requires Newlines(s) == 0
    ensures WholeLines(s) == []
    decreases |s|
  {
    if s != [] {
      var n := |s| - 1;
      assert s == s[..n] + [s[n]];
      NewlinesJoin(s[..n], [s[n]]);
      NoLine(s[..n]);
    }
  }

  lemma {:induction false} BodyAfter(a: seq<char>, b: seq<char>)
    requires Whole(a)
    ensures WholeLines(a + b) == a + WholeLines(b)
    decreases |b|
  {
    if b == [] {
      assert a + b == a;
    } else if !Whole(b) {
      assert (a + b)[..|a + b| - 1] == a + b[..|b| - 1];
      BodyAfter(a, b[..|b| - 1]);
    }
  }

  lemma ChunksOfText(src: seq<char>, caps: seq<nat>)
    requires |caps| > 0 && 0 < Sum(caps) < WORD
    ensures var cs := Counts(caps, Newlines(src), Newlines(src), Sum(caps)); var cut := Cut(src, 0, cs);
            && |cut| == |caps| == |cs| && Sum(cs) == Newlines(src) && Join(cut) == WholeLines(src)
            && (forall i :: 0 <= i < |cut| ==> Newlines(cut[i]) == cs[i] && Whole(cut[i]))
  {
    SplitIsFair(caps, Newlines(src));
    assert src[0..] == src;
    CutIsWhole(src, 0, Counts(caps, Newlines(src), Newlines(src), Sum(caps)));
  }

  // the last client gets what the shares of the others leave
  lemma LastCount(caps: seq<nat>, count: nat)
    requires |caps| > 0 && 0 < Sum(caps) < WORD
    ensures var cs, n := Counts(caps, count, count, Sum(caps)), |caps| - 1;
            |cs| == |caps| && cs[n] >= 0 && Sum(Shares(caps[..n], count, Sum(caps))) + cs[n] == count
  {
    var cs, n := Counts(caps, count, count, Sum(caps)), |caps| - 1;
    SplitIsFair(caps, count);
    assert cs[..n] == Shares(caps[..n], count, Sum(caps));
    assert cs == cs[..n] + [cs[n]];
    SumExtends(cs[..n], cs[n]);
  }

  lemma ShareIsZero(caps: seq<nat>, count: nat, i: nat)
    requires 0 < Sum(caps) < WORD && i < |caps| - 1
    ensures var cs := Counts(caps, count, count, Sum(caps));
            |cs| == |caps| && (cs[i] == 0 <==> caps[i] * count % WORD < Sum(caps))
  {
    SplitIsFair(caps, count);
    QuotientIsZero(caps[i] * count % WORD, Sum(caps));
  }

  // what every client is given, on any text and any capabilities
  lemma TaskSetsPartition(src: seq<char>, caps: seq<nat>)
    requires |caps| > 0 && 0 < Sum(caps) < WORD
    ensures var cs := Counts(caps, Newlines(src), Newlines(src), Sum(caps)); var cut := Cut(src, 0, cs);
            && |cut| == |caps| == |cs| && Sum(cs) == Newlines(src) && Join(cut) == WholeLines(src)
            && (forall i :: 0 <= i < |cut| ==> Newlines(cut[i]) == cs[i] && Whole(cut[i]))
            && (forall i :: 0 <= i < |cut| - 1 ==> (cut[i] == [] <==> caps[i] * Newlines(src) % WORD < Sum(caps)))
            && Sum(Shares(caps[..|caps| - 1], Newlines(src), Sum(caps))) <= Newlines(src)
            && (cut[|cut| - 1] == [] <==> Sum(Shares(caps[..|caps| - 1], Newlines(src), Sum(caps))) == Newlines(src))
  {
    var count := Newlines(src);
    var cut := Cut(src, 0, Counts(caps, count, count, Sum(caps)));
    ChunksOfText(src, caps);
    forall i | 0 <= i < |cut| - 1 ensures cut[i] == [] <==> caps[i] * count % WORD < Sum(caps) {
      WholeIsEmpty(cut[i]);
      ShareIsZero(caps, count, i);
    }
    LastCount(caps, count);
    WholeIsEmpty(cut[|caps| - 1]);
  }

  function Shares(caps: seq<nat>, count: nat, total: nat): (r: seq<int>)
    requires total > 0
    ensures |r| == |caps| && forall i :: 0 <= i < |r| ==> r[i] == Share(caps[i], count, total)
  {
    seq(|caps|, i requires 0 <= i < |caps| => Share(caps[i], count, total))
  }

  lemma WholeIsEmpty(s: seq<char>)
    requires Whole(s)
    ensures Newlines(s) == 0 <==> s == []
  {
    if s != [] {
      var n := |s| - 1;
      assert s == s[..n] + [s[n]];
      NewlinesJoin(s[..n], [s[n]]);
    }
  }

  lemma QuotientIsZero(p: nat, d: nat)
    requires d > 0
    ensures p / d == 0 <==> p < d
  {
    Floor(p, d);
  }

  // the structured form: every line has ten characters and its newline
  predicate Structured(s: seq<char>) { forall i :: 0 <= i < |s| ==> (s[i] == '\n' <==> i % 11 == 10) }

  lemma {:induction false} StructuredLineEnd(s: seq<char>, m: nat, k: nat)
    requires Structured(s) && 11 * m <= |s| && k <= Newlines(s[11 * m..])
    ensures LineEnd(s, 11 * m, k) == 11 * m + 11 * k
    decreases k
  {
    if k > 0 {
      NextEnd(s, m, 0, k);
      StructuredLineEnd(s, m + 1, k - 1);
    }
  }

  // walks to the end of the line
  lemma {:induction false} NextEnd(s: seq<char>, m: nat, d: nat, k: nat)
    requires k > 0 && Structured(s) && d <= 10 && 11 * m + d <= |s| && Newlines(s[11 * m + d..]) > 0
    ensures 11 * (m + 1) <= |s| && Newlines(s[11 * m + d..]) == 1 + Newlines(s[11 * (m + 1)..])
    ensures LineEnd(s, 11 * m + d, k) == LineEnd(s, 11 * (m + 1), k - 1)
    decreases 10 - d
  {
    var p := 11 * m + d;
    assert s[p..] != [] && s[p..][0] == s[p] && s[p..][1..] == s[p + 1..];
    PlaceInLine(m, d);
    if d < 10 { NextEnd(s, m, d + 1, k); }
  }

  lemma PlaceInLine(m: nat, d: nat)
    requires d <= 10
    ensures (11 * m + d) % 11 == d
  {
  }

  function Plus(a: nat, b: nat): (r: nat)
    ensures a + b < WORD ==> r == a + b
  {
    (a + b) % WORD
  }

  function Minus(a: nat, b: nat): (r: nat)
    ensures b <= a < WORD ==> r == a - b
  {
    (a - b) % WORD
  }

  lemma ElevensAdd(a: nat, b: nat)
    requires a % 11 == 0 && b % 11 == 0
    ensures (a + b) % 11 == 0
  {
  }

  // left lines remain from start on for these clients
  ghost predicate Remaining(src: seq<char>, start: nat, caps: seq<nat>, count: nat, left: int, total: nat) {
    && total > 0 && start <= |src| && 0 <= left <= count < WORD && Newlines(src[start..]) == left
    && Sum(caps) * count <= left * total
  }

  // Remaining, for proofs that only carry it along
  ghost predicate Pending(src: seq<char>, start: nat, caps: seq<nat>, count: nat, left: int, total: nat) {
    forall u: Gate {:trigger Opened(u)} :: Opened(u) && u == SplitGate ==>
        Remaining(src, start, caps, count, left, total)
  }

  lemma AllPending(src: seq<char>, caps: seq<nat>)
    requires Newlines(src) < WORD && 0 < Sum(caps)
    ensures Pending(src, 0, caps, Newlines(src), Newlines(src), Sum(caps))
  {
    assert src[0..] == src;
  }

  lemma NextShare(src: seq<char>, start: nat, caps: seq<nat>, count: nat, left: int, total: nat)
    requires total > 0 && start <= |src| && Pending(src, start, caps, count, left, total) && |caps| > 0
    ensures var share := Share(caps[0], count, total); var cs := Counts(caps, count, left, total);
            && 0 <= share <= left < WORD && |cs| == |caps| && 0 <= cs[0] <= left
            && cs[0] == (if |caps| == 1 then Plus(share, Minus(left, share)) else share)
                && (|caps| > 1 ==> Minus(left, share) == left - share)
            && cs[1..] == (if |caps| == 1 then [] else Counts(caps[1..], count, left - share, total))
            && cs[0] <= Newlines(src[start..])
            && (|caps| > 1 ==> Pending(src, LineEnd(src, start, cs[0]), caps[1..], count, left - share, total))
  {
    assert Opened(SplitGate);
    var share := Share(caps[0], count, total);
    var cs := Counts(caps, count, left, total);
    ShareBound(caps[0], count, total);
    Distributes(caps[0], Sum(caps[1..]), count);
    Distributes(left, share, total);
    SumNonNegative(caps[1..]);
    TimesMonotone(0, Sum(caps[1..]), count);
    if share > left { TimesMonotone(left - share, -1, total); }
    CountsLength(caps, count, left, total);
    LineEndCounts(src, start, cs[0]);
  }

  // create_task_sets_per_client: both forms cut the same chunks, and an empty one, which cannot be mapped, ends
  // the server
  method CreateTaskSets(src: seq<char>, capability: seq<nat>, taskCount: nat, total: nat, unstructured: bool)
    returns (sets: Option<seq<seq<char>>>)
    requires |src| < 0x8000_0000 && taskCount == Newlines(src) && |capability| > 0
    requires total == Sum(capability) && 0 < total < WORD && (unstructured || Structured(src))
    ensures var cut := Cut(src, 0, Counts(capability, taskCount, taskCount, total));
            sets == if [] in cut then None else Some(cut)
  {
    ghost var rest := Counts(capability, taskCount, taskCount, total);
    ghost var cut := Cut(src, 0, rest);
    var chunks: seq<seq<char>> := [];
    var start, remaining, i := 0, taskCount, 0;
    NewlinesBound(src);
    AllPending(src, capability);
    assert capability[0..] == capability;
    while i < |capability|
      invariant 0 <= i <= |capability| && 0 <= start <= |src|
      invariant i < |capability| ==> Pending(src, start, capability[i..], taskCount, remaining, total)
      invariant !unstructured && i < |capability| ==> start % 11 == 0
      invariant rest == if i < |capability| then Counts(capability[i..], taskCount, remaining, total) else []
      invariant chunks + Cut(src, start, rest) == cut && [] !in chunks
    {
      assert capability[i..][1..] == capability[i + 1..];
      var chunk, left := CreateTaskSet(src, start, remaining, capability[i..], taskCount, total, unstructured);
      NextChunk(chunks, chunk, Cut(src, Plus(start, |chunk|), rest[1..]));
      if |chunk| == 0 { return None; }
      chunks, start, remaining := chunks + [chunk], Plus(start, |chunk|), left;
      rest := rest[1..];
      i := i + 1;
    }
    assert chunks + [] == chunks;
    sets := Some(chunks);
  }

  lemma NextChunk(chunks: seq<seq<char>>, chunk: seq<char>, later: seq<seq<char>>)
    ensures chunks + ([chunk] + later) == chunks + [chunk] + later && chunk in chunks + ([chunk] + later)
  {
    assert (chunks + ([chunk] + later))[|chunks|] == chunk;
  }

  // one round: the chunk of the first of these clients, and the lines not yet accounted for
  method CreateTaskSet(src: seq<char>, start: nat, remaining: nat, capability: seq<nat>, taskCount: nat, total: nat,
      unstructured: bool)
    returns (chunk: seq<char>, left: nat)
    requires start <= |src| < 0x8000_0000 && total > 0 && |capability| > 0
    requires Pending(src, start, capability, taskCount, remaining, total)
    requires unstructured || (Structured(src) && start % 11 == 0)
    ensures var cs := Counts(capability, taskCount, remaining, total); var next := Plus(start, |chunk|);
            && |cs| == |capability| && next <= |src| && Cut(src, start, cs) == [chunk] + Cut(src, next, cs[1..])
            && (!unstructured ==> next % 11 == 0)
            && cs[1..] == (if |capability| == 1 then [] else Counts(capability[1..], taskCount, left, total))
            && (|capability| > 1 ==> Pending(src, next, capability[1..], taskCount, left, total))
  {
    ghost var cs := Counts(capability, taskCount, remaining, total);
    NextShare(src, start, capability, taskCount, remaining, total);
    var dataCount := Share(capability[0], taskCount, total);
    left := Minus(remaining, dataCount);
    if |capability| == 1 {
      dataCount := Plus(dataCount, left);
    }
    assert dataCount == cs[0];
    var size := ChunkSize(src, start, dataCount, unstructured);
    CutFirst(src, start, cs);
    chunk := src[start..start + size];
    if !unstructured { ElevensAdd(start, size); }
  }

  lemma CutFirst(src: seq<char>, start: nat, counts: seq<int>)
    requires start <= |src| < 0x8000_0000 && counts != [] && counts[0] >= 0
    ensures var e := LineEnd(src, start, counts[0]);
            Plus(start, |src[start..e]|) == e && Cut(src, start, counts) == [src[start..e]] + Cut(src, e, counts[1..])
  {
  }

  method ChunkSize(src: seq<char>, start: nat, dataCount: nat, unstructured: bool) returns (size: nat)
    requires start <= |src| < 0x8000_0000 && dataCount <= Newlines(src[start..])
    requires unstructured || (Structured(src) && start % 11 == 0)
    ensures start + size == LineEnd(src, start, dataCount)
    ensures !unstructured ==> size % 11 == 0
  {
    if unstructured {
      size := ScanLines(src, start, dataCount);
    } else {
      StructuredLineEnd(src, start / 11, dataCount);
      size := dataCount * 11 % WORD;
    }
  }

  lemma {:induction false} NewlinesBound(s: seq<char>)
    ensures Newlines(s) <= |s|
  {
    if s != [] { NewlinesBound(s[1..]); }
  }

  // the scanning loop: the length of the next k lines
  method ScanLines(src: seq<char>, start: nat, k: nat) returns (size: nat)
    requires start <= |src|
    ensures start + size == LineEnd(src, start, k)
  {
    var ptr, x := start, 0;
    while ptr < |src| && x < k
      invariant start <= ptr <= |src| && x <= k
      invariant LineEnd(src, ptr, k - x) == LineEnd(src, start, k)
    {
      if src[ptr] == '\n' { x := x + 1; }
      ptr := ptr + 1;
    }
    size := ptr - start;
  }
}
