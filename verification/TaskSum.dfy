// What the clients compute on their chunks, and how the moderator merges it.
module TaskSum {
  import opened Basics
  import opened TaskSplit
  import opened Permutations

  const LONG: int := 0x1_0000_0000_0000_0000
  const LONG_MAX: int := 0x7fff_ffff_ffff_ffff

  // adding unsigned longs
  function Added(a: int, b: int): (r: nat)
    ensures 0 <= a < LONG && 0 <= b < LONG ==> r == if a + b < LONG then a + b else a + b - LONG
  {
    (a + b) % LONG
  }

  // ---- primes ----

  predicate Divides(d: nat, n: nat) { d > 0 && n % d == 0 }

  ghost predicate Prime(n: nat) { n >= 2 && forall d :: 2 <= d < n ==> !Divides(d, n) }

  // the integer square root
  function Root(n: nat): (r: nat)
    ensures r * r <= n < (r + 1) * (r + 1)
  {
    if n == 0 then 0
    else
      var r := Root(n - 1);
      if (r + 1) * (r + 1) <= n then r + 1 else r
  }

  // a composite number has a divisor no larger than its root
  lemma SmallDivisor(n: nat, d: nat)
    requires n >= 2 && 2 <= d < n && Divides(d, n)
    ensures exists j :: 2 <= j <= Root(n) && Divides(j, n)
  {
    var e := n / d;
    var r := Root(n);
    assert n == e * d;
    if d <= r {
      assert Divides(d, n);
    } else {
      if e > r { Squares(r + 1, e, d); }
      if e < 2 { TimesMonotone(e, 1, d); }
      MultipleOf(e, d);
      assert Divides(e, n);
    }
  }

  lemma Squares(r: nat, e: nat, d: nat)
    requires r <= e && r <= d
    ensures r * r <= e * d
  {
    TimesMonotone(r, e, d);
    assert r * r <= r * d by { TimesMonotone(r, d, r); }
  }

  lemma MultipleOf(e: nat, d: nat)
    requires e > 0
    ensures e * d % e == 0
  {
    var q := e * d / e;
    Floor(e * d, e);
    Distributes(q, 1, e);
    Distributes(d, 1, e);
    assert e * d == d * e;
    if q < d { TimesMonotone(q + 1, d, e); }
    if q > d { TimesMonotone(d + 1, q, e); }
  }

  method IsPrime(number: nat) returns (prime: bool)
    ensures prime <==> Prime(number)
  {
    if number < 2 { return false; }
    var root := Root(number);
    var j := 2;
    while j <= root
      invariant 2 <= j
      invariant forall d :: 2 <= d < j ==> !Divides(d, number)
    {
      if number % j == 0 {
        RootBelow(number);
        assert Divides(j, number);
        return false;
      }
      j := j + 1;
    }
    if !Prime(number) {
      var d :| 2 <= d < number && Divides(d, number);
      SmallDivisor(number, d);
    }
    return true;
  }

  lemma RootBelow(n: nat)
    requires n >= 2
    ensures Root(n) < n
  {
    var r := Root(n);
    if r >= n { TimesMonotone(2, r, r); }
  }

  // ---- reading a number ----

  predicate Space(c: char) { c == ' ' || 9 <= c as int <= 13 }
  predicate Digit(c: char) { '0' <= c <= '9' }

  function Skip(s: seq<char>): seq<char> { if s != [] && Space(s[0]) then Skip(s[1..]) else s }

  function Decimal(s: seq<char>, acc: nat): nat {
    if s != [] && Digit(s[0]) then Decimal(s[1..], 10 * acc + (s[0] as int - '0' as int)) else acc
  }

  function Clamp(n: int): int { if n > LONG_MAX then LONG_MAX else if n < -LONG_MAX - 1 then -LONG_MAX - 1 else n }

  // atol, which saturates, and skips white space across line ends
  function Atol(s: seq<char>): int {
    var t := Skip(s);
    if t != [] && t[0] == '-' then Clamp(0 - Decimal(t[1..], 0))
    else if t != [] && t[0] == '+' then Clamp(Decimal(t[1..], 0))
    else Clamp(Decimal(t, 0))
  }

  // %lu
  function Print(n: nat): (s: seq<char>)
    ensures s != [] && forall i :: 0 <= i < |s| ==> Digit(s[i])
  {
    var d := [('0' as int + n % 10) as char];
    if n < 10 then d else Print(n / 10) + d
  }

  lemma {:induction false} DecimalJoin(a: seq<char>, b: seq<char>, acc: nat)
    requires forall i :: 0 <= i < |a| ==> Digit(a[i])
    ensures Decimal(a + b, acc) == Decimal(b, Decimal(a, acc))
  {
    if a == [] {
      assert a + b == b;
    } else {
      assert (a + b)[1..] == a[1..] + b;
      DecimalJoin(a[1..], b, 10 * acc + (a[0] as int - '0' as int));
    }
  }

  lemma {:induction false} DecimalOfPrint(n: nat)
    ensures Decimal(Print(n), 0) == n
  {
    var d := [('0' as int + n % 10) as char];
    assert Digit(d[0]) && d[1..] == [];
    if n >= 10 {
      DecimalOfPrint(n / 10);
      DecimalJoin(Print(n / 10), d, 0);
      assert Decimal(d, n / 10) == 10 * (n / 10) + n % 10;
    }
  }

  function Saturated(n: nat): (r: nat)
    ensures r == n <==> n <= LONG_MAX
  {
    if n <= LONG_MAX then n else LONG_MAX
  }

  // a printed number is read back exactly when it fits a signed long, and saturates otherwise
  lemma PrintReads(n: nat)
    requires n < LONG
    ensures Atol(Print(n)) == Saturated(n)
    ensures Atol(Print(n)) % LONG == n <==> n <= LONG_MAX
  {
    DecimalOfPrint(n);
    assert Digit(Print(n)[0]);
    assert Skip(Print(n)) == Print(n);
  }

  predicate Blank(s: seq<char>) { forall i :: 0 <= i < |s| ==> Space(s[i]) }

  lemma {:induction false} SkipJoin(a: seq<char>, b: seq<char>)
    requires !Blank(a)
    ensures Skip(a) != [] && Skip(a + b) == Skip(a) + b && Skip(a)[|Skip(a)| - 1] == a[|a| - 1]
  {
    if Space(a[0]) {
      assert (a + b)[1..] == a[1..] + b;
      var i :| 0 <= i < |a| && !Space(a[i]);
      assert !Space(a[1..][i - 1]);
      SkipJoin(a[1..], b);
    }
  }

  lemma {:induction false} DecimalStops(a: seq<char>, b: seq<char>, acc: nat)
    requires a != [] && !Digit(a[|a| - 1])
    ensures Decimal(a + b, acc) == Decimal(a, acc)
  {
    if Digit(a[0]) {
      assert (a + b)[1..] == a[1..] + b;
      DecimalStops(a[1..], b, 10 * acc + (a[0] as int - '0' as int));
    }
  }

  // a number never reaches beyond a line that is not blank
  lemma AtolInLine(line: seq<char>, rest: seq<char>)
    requires !Blank(line) && line[|line| - 1] == '\n'
    ensures Atol(line + rest) == Atol(line)
  {
    SkipJoin(line, rest);
    var t := Skip(line);
    if t[0] == '-' || t[0] == '+' {
      assert (t + rest)[1..] == t[1..] + rest;
      DecimalStops(t[1..], rest, 0);
    } else {
      DecimalStops(t, rest, 0);
    }
  }

  // white space is read over, into whatever follows
  lemma {:induction false} SkipBlank(a: seq<char>, b: seq<char>)
    requires Blank(a)
    ensures Skip(a + b) == Skip(b)
  {
    if a == [] {
      assert a + b == b;
    } else {
      assert (a + b)[1..] == a[1..] + b;
      SkipBlank(a[1..], b);
    }
  }

  // what a number read at the start of a, before b, is: that of a alone, unless a is all white space
  lemma AtolJoin(a: seq<char>, b: seq<char>)
    requires a != [] && a[|a| - 1] == '\n'
    ensures Atol(a + b) == if Blank(a) then Atol(b) else Atol(a)
    ensures Blank(a) ==> Atol(a) == 0
  {
    if Blank(a) {
      SkipBlank(a, b);
      SkipBlank(a, []);
      assert a + [] == a;
    } else {
      AtolInLine(a, b);
    }
  }

  // ---- the sum over the lines of a text ----

  ghost predicate Any(n: nat) { true }

  // the numbers that count: all of them, or the primes
  ghost function Picked(n: nat, keep: nat -> bool): nat { if keep(n) then n else 0 }

  // the number read at the start of s, if it counts
  ghost function FirstNumber(s: seq<char>, keep: nat -> bool): nat { Picked(Atol(s) % LONG, keep) }

  ghost function SumFrom(s: seq<char>, start: nat, keep: nat -> bool): nat
    requires start <= |s|
    decreases |s| - start
  {
    if Newlines(s[start..]) == 0 then 0
    else
      LineEndCounts(s, start, 1);
      FirstNumber(s[start..], keep) + SumFrom(s, LineEnd(s, start, 1), keep)
  }

  // the sum in 64-bit arithmetic: what a sequential program over the whole text computes
  ghost function LineSum(s: seq<char>, keep: nat -> bool): (r: nat)
    ensures r < LONG
  {
    SumFrom(s, 0, keep) % LONG
  }

  lemma ModStep(sum: nat, n: nat, rest: nat)
    ensures ((sum + n) % LONG + rest) % LONG == (sum + (n + rest)) % LONG
  {
  }

  // lines from which on there is only white space
  function BlankFrom(s: seq<char>, start: nat): nat
    requires start <= |s|
    decreases |s| - start
  {
    if Newlines(s[start..]) == 0 then 0
    else
      LineEndCounts(s, start, 1);
      (if Blank(s[start..]) then 1 else 0) + BlankFrom(s, LineEnd(s, start, 1))
  }

  // a number for each of these lines
  function Overread(s: seq<char>, start: nat, next: nat): nat
    requires start <= |s|
    decreases |s| - start
  {
    if Newlines(s[start..]) == 0 then 0
    else
      LineEndCounts(s, start, 1);
      (if Blank(s[start..]) then next else 0) + Overread(s, LineEnd(s, start, 1), next)
  }

  lemma {:induction false} OverreadIsProduct(s: seq<char>, start: nat, next: nat)
    requires start <= |s|
    ensures Overread(s, start, next) == BlankFrom(s, start) * next
    decreases |s| - start
  {
    if Newlines(s[start..]) > 0 {
      LineEndCounts(s, start, 1);
      var e := LineEnd(s, start, 1);
      OverreadIsProduct(s, e, next);
      Distributes(BlankFrom(s, e), 1, next);
    }
  }

  method Line(src: seq<char>, num: nat) returns (len: nat)
    requires num <= |src| && Newlines(src[num..]) > 0
    ensures len == LineEnd(src, num, 1)
  {
    len := num;
    LineEndCounts(src, num, 1);
    NewlineAt(src, num);
    while src[len] != '\n'
      invariant num <= len < |src|
      invariant LineEnd(src, len, 1) == LineEnd(src, num, 1) && Newlines(src[len..]) > 0
      decreases |src| - len
    {
      assert src[len..][1..] == src[len + 1..];
      len := len + 1;
      NewlineAt(src, len);
    }
    len := len + 1;
  }

  lemma NewlineAt(s: seq<char>, i: nat)
    requires i <= |s| && Newlines(s[i..]) > 0
    ensures i < |s|
  {
  }

  lemma FirstOfSum(s: seq<char>, num: nat, keep: nat -> bool)
    requires num <= |s| && Newlines(s[num..]) > 0
    ensures var e := LineEnd(s, num, 1);
            Newlines(s[e..]) == Newlines(s[num..]) - 1 && SumFrom(s, num, keep)
                == FirstNumber(s[num..], keep) + SumFrom(s, e, keep)
  {
    LineEndCounts(s, num, 1);
  }

  lemma LineStep(s: seq<char>, num: nat, sum: nat, keep: nat -> bool, want: nat)
    requires num <= |s| && Newlines(s[num..]) > 0 && sum < LONG && (sum + SumFrom(s, num, keep)) % LONG == want
    ensures var e := LineEnd(s, num, 1); var n := FirstNumber(s[num..], keep);
            Newlines(s[e..]) == Newlines(s[num..]) - 1 && ((sum + n) % LONG + SumFrom(s, e, keep)) % LONG == want
  {
    FirstOfSum(s, num, keep);
    var n, rest := FirstNumber(s[num..], keep), SumFrom(s, LineEnd(s, num, 1), keep);
    ModStep(sum, n, rest);
  }

  // one line of find_sum
  method AddLine(src: seq<char>, num: nat, sum: nat, ghost want: nat) returns (len: nat, total: nat)
    requires num <= |src| && Newlines(src[num..]) > 0 && sum < LONG && (sum + SumFrom(src, num, Any)) % LONG == want
    ensures num <= len <= |src| && Newlines(src[len..]) == Newlines(src[num..]) - 1
    ensures total < LONG && (total + SumFrom(src, len, Any)) % LONG == want
  {
    LineStep(src, num, sum, Any, want);
    len := Line(src, num);
    total := (sum + Atol(src[num..]) % LONG) % LONG;
  }

  // find_sum: an empty file ends the client without an answer
  method FindSum(src: seq<char>, taskCount: nat) returns (answer: Option<seq<char>>)
    requires taskCount == Newlines(src)
    ensures answer == AnswerOf(src, Any)
  {
    if |src| == 0 { return None; }
    var sum, len, i := 0, 0, 0;
    assert src[0..] == src;
    ghost var want := LineSum(src, Any);
    while i < taskCount
      invariant 0 <= i <= taskCount && 0 <= len <= |src| && 0 <= sum < LONG
      invariant Newlines(src[len..]) == taskCount - i
      invariant (sum + SumFrom(src, len, Any)) % LONG == want
    {
      len, sum := AddLine(src, len, sum, want);
      i := i + 1;
    }
    assert sum == want;
    answer := Some(Print(sum));
  }

  method AddIfPrime(sum: nat, number: nat) returns (r: nat)
    requires sum < LONG
    ensures r == (sum + Picked(number, Prime)) % LONG
  {
    r := sum;
    var prime := IsPrime(number);
    if prime {
      r := (sum + number) % LONG;
    }
  }

  // one line of find_prime_sum
  method AddPrimeLine(src: seq<char>, num: nat, sum: nat, ghost want: nat) returns (len: nat, total: nat)
    requires num <= |src| && Newlines(src[num..]) > 0 && sum < LONG && (sum + SumFrom(src, num, Prime)) % LONG == want
    ensures num <= len <= |src| && Newlines(src[len..]) == Newlines(src[num..]) - 1
    ensures total < LONG && (total + SumFrom(src, len, Prime)) % LONG == want
  {
    LineStep(src, num, sum, Prime, want);
    len := Line(src, num);
    total := AddIfPrime(sum, Atol(src[num..]) % LONG);
  }

  // find_prime_sum
  method FindPrimeSum(src: seq<char>, taskCount: nat) returns (answer: Option<seq<char>>)
    requires taskCount == Newlines(src)
    ensures answer == AnswerOf(src, Prime)
  {
    if |src| == 0 { return None; }
    var sum, len, i := 0, 0, 0;
    assert src[0..] == src;
    ghost var want := LineSum(src, Prime);
    while i < taskCount
      invariant 0 <= i <= taskCount && 0 <= len <= |src| && 0 <= sum < LONG
      invariant Newlines(src[len..]) == taskCount - i
      invariant (sum + SumFrom(src, len, Prime)) % LONG == want
    {
      len, sum := AddPrimeLine(src, len, sum, want);
      i := i + 1;
    }
    assert sum == want;
    answer := Some(Print(sum));
  }

  // ---- splitting does not change the sum ----

  lemma {:induction false} LineEndJoin(a: seq<char>, b: seq<char>, start: nat)
    requires start <= |a| && Newlines(a[start..]) > 0
    ensures LineEnd(a + b, start, 1) == LineEnd(a, start, 1)
    decreases |a| - start
  {
    assert a[start..][1..] == a[start + 1..];
    if a[start] != '\n' { LineEndJoin(a, b, start + 1); }
  }

  lemma {:induction false} LineEndShift(a: seq<char>, b: seq<char>, start: nat, k: nat)
    requires start <= |b|
    ensures LineEnd(a + b, |a| + start, k) == |a| + LineEnd(b, start, k)
    decreases |b| - start
  {
    if k > 0 && start < |b| { LineEndShift(a, b, start + 1, if b[start] == '\n' then k - 1 else k); }
  }

  lemma {:induction false} SumShift(a: seq<char>, b: seq<char>, start: nat, keep: nat -> bool)
    requires start <= |b|
    ensures SumFrom(a + b, |a| + start, keep) == SumFrom(b, start, keep)
    decreases |b| - start
  {
    assert (a + b)[|a| + start..] == b[start..];
    if Newlines(b[start..]) > 0 {
      LineEndCounts(b, start, 1);
      LineEndShift(a, b, start, 1);
      var e := LineEnd(b, start, 1);
      SumShift(a, b, e, keep);
    }
  }

  lemma LineBefore(a: seq<char>, b: seq<char>, start: nat)
    requires start < |a| && Whole(a[start..])
    ensures Newlines(a[start..]) > 0 && Newlines((a + b)[start..]) > 0
    ensures LineEnd(a, start, 1) == LineEnd(a + b, start, 1)
  {
    assert (a + b)[start..] == a[start..] + b;
    NewlinesJoin(a[start..], b);
    WholeIsEmpty(a[start..]);
    LineEndJoin(a, b, start);
  }

  lemma LineOfWhole(a: seq<char>, start: nat)
    requires start < |a| && Whole(a[start..]) && Newlines(a[start..]) > 0
    ensures start < LineEnd(a, start, 1) <= |a| && Whole(a[LineEnd(a, start, 1)..])
  {
    LineNonEmpty(a, start);
    var e := LineEnd(a, start, 1);
    assert e < |a| ==> a[e..][|a| - e - 1] == a[start..][|a| - start - 1];
  }

  // the first line of a is read the same with b behind it, unless only white space is left of a
  lemma FirstNumberJoin(a: seq<char>, b: seq<char>, start: nat, keep: nat -> bool)
    requires start < |a| && Whole(a[start..])
    ensures FirstNumber((a + b)[start..], keep) == FirstNumber(a[start..], keep)
            + (if Blank(a[start..]) then FirstNumber(b, keep) else 0)
  {
    assert (a + b)[start..] == a[start..] + b;
    assert a[start..][|a| - start - 1] == a[|a| - 1];
    AtolJoin(a[start..], b);
  }

  lemma JoinFromLine(a: seq<char>, b: seq<char>, start: nat, keep: nat -> bool)
    requires start < |a| && Whole(a[start..])
    ensures Newlines(a[start..]) > 0 && start < LineEnd(a, start, 1) <= |a| && Whole(a[LineEnd(a, start, 1)..])
    ensures var e := LineEnd(a, start, 1); var next := if Blank(a[start..]) then FirstNumber(b, keep) else 0;
            && SumFrom(a, start, keep) == FirstNumber(a[start..], keep) + SumFrom(a, e, keep)
            && SumFrom(a + b, start, keep) == FirstNumber(a[start..], keep) + next + SumFrom(a + b, e, keep)
            && Overread(a, start, FirstNumber(b, keep)) == next + Overread(a, e, FirstNumber(b, keep))
  {
    LineBefore(a, b, start);
    LineOfWhole(a, start);
    FirstNumberJoin(a, b, start, keep);
    FirstOfSum(a, start, keep);
    FirstOfSum(a + b, start, keep);
  }

  // what follows a text is read once for each of the blank lines the text ends in
  lemma {:induction false} SumJoin(a: seq<char>, b: seq<char>, start: nat, keep: nat -> bool)
    requires start <= |a| && Whole(a[start..])
    ensures SumFrom(a + b, start, keep) ==
            SumFrom(a, start, keep) + Overread(a, start, FirstNumber(b, keep)) + SumFrom(b, 0, keep)
    decreases |a| - start
  {
    if start == |a| {
      SumShift(a, b, 0, keep);
    } else {
      JoinFromLine(a, b, start, keep);
      SumJoin(a, b, LineEnd(a, start, 1), keep);
    }
  }

  lemma LineNonEmpty(s: seq<char>, start: nat)
    requires start <= |s| && Newlines(s[start..]) > 0
    ensures LineEnd(s, start, 1) > start
  {
  }

  // what the clients answer, before printing
  ghost function PartSums(cut: seq<seq<char>>, keep: nat -> bool): (r: seq<int>)
    ensures |r| == |cut| && forall i :: 0 <= i < |cut| ==> r[i] == LineSum(cut[i], keep)
  {
    seq(|cut|, i requires 0 <= i < |cut| => LineSum(cut[i], keep))
  }

  // what the sequential program reads across the ends of the chunks
  ghost function Overrun(cut: seq<seq<char>>, tail: seq<char>, keep: nat -> bool): nat {
    if cut == [] then 0
    else Overread(cut[0], 0, FirstNumber(Join(cut[1..]) + tail, keep)) + Overrun(cut[1..], tail, keep)
  }

  ghost function RawSum(cut: seq<seq<char>>, keep: nat -> bool): nat {
    if cut == [] then 0 else SumFrom(cut[0], 0, keep) + RawSum(cut[1..], keep)
  }

  lemma LineSumIsSum(s: seq<char>, keep: nat -> bool) returns (q: int)
    ensures SumFrom(s, 0, keep) == LineSum(s, keep) + q * LONG
  {
    q := SumFrom(s, 0, keep) / LONG;
  }

  lemma {:induction false} RawParts(cut: seq<seq<char>>, keep: nat -> bool) returns (q: int)
    ensures RawSum(cut, keep) == Sum(PartSums(cut, keep)) + q * LONG
  {
    q := 0;
    if cut != [] {
      var p := LineSumIsSum(cut[0], keep);
      q := RawParts(cut[1..], keep);
      assert PartSums(cut, keep)[1..] == PartSums(cut[1..], keep);
      q := q + p;
    }
  }

  lemma {:induction false} PartsAddUp(cut: seq<seq<char>>, tail: seq<char>, keep: nat -> bool)
    requires (forall i :: 0 <= i < |cut| ==> Whole(cut[i])) && Newlines(tail) == 0
    ensures SumFrom(Join(cut) + tail, 0, keep) == RawSum(cut, keep) + Overrun(cut, tail, keep)
  {
    if cut == [] {
      assert [] + tail == tail && tail[0..] == tail;
    } else {
      var rest := Join(cut[1..]) + tail;
      assert Join(cut) + tail == cut[0] + rest;
      assert cut[0][0..] == cut[0];
      SumJoin(cut[0], rest, 0, keep);
      PartsAddUp(cut[1..], tail, keep);
    }
  }

  lemma ModSum(a: int, b: int, c: int)
    requires b % LONG == c % LONG
    ensures (a + b) % LONG == (a % LONG + c) % LONG
  {
  }

  lemma {:induction false} BodyAndTail(s: seq<char>) returns (tail: seq<char>)
    ensures s == WholeLines(s) + tail && Newlines(tail) == 0
    decreases |s|
  {
    tail := [];
    if !Whole(s) {
      var n := |s| - 1;
      tail := BodyAndTail(s[..n]);
      NewlinesJoin(tail, [s[n]]);
      tail := tail + [s[n]];
      assert s == s[..n] + [s[n]];
    } else {
      assert s == s + [];
    }
  }

  // ---- the merge ----

  function Numbers(result: seq<seq<char>>): (r: seq<int>)
    ensures |r| == |result| && forall i :: 0 <= i < |r| ==> r[i] == Atol(result[i]) % LONG
  {
    seq(|result|, i requires 0 <= i < |result| => Atol(result[i]) % LONG)
  }

  function MergedSum(result: seq<seq<char>>): (r: nat)
    ensures r < LONG
  {
    Sum(Numbers(result)) % LONG
  }

  // the TYPE_LONG branch of moderator_send_task_response_to_server
  method MergeLong(result: seq<seq<char>>) returns (finalResp: seq<char>)
    ensures finalResp == Print(MergedSum(result))
  {
    var total, i := 0, 0;
    while i < |result|
      invariant 0 <= i <= |result|
      invariant total == Sum(Numbers(result)[..i]) % LONG
    {
      var num := Atol(result[i]) % LONG;
      total := (total + num) % LONG;
      assert Numbers(result)[..i + 1] == Numbers(result)[..i] + [num];
      SumExtends(Numbers(result)[..i], num);
      i := i + 1;
    }
    assert Numbers(result)[..|result|] == Numbers(result);
    finalResp := Print(total);
  }

  // the merge does not depend on the order of arrival
  lemma {:induction false} MergeOfPermutation(a: seq<seq<char>>, b: seq<seq<char>>)
    requires multiset(a) == multiset(b)
    ensures Sum(Numbers(a)) == Sum(Numbers(b))
  {
    assert |multiset(a)| == |a| && |multiset(b)| == |b|;
    if a != [] {
      var l, r := WithoutFirst(a, b);
      MergeOfPermutation(a[1..], l + r);
      assert a == [a[0]] + a[1..];
      MergeMoves(a[0], a[1..], l, r);
    }
  }

  lemma MergeMoves(x: seq<char>, a: seq<seq<char>>, l: seq<seq<char>>, r: seq<seq<char>>)
    ensures Sum(Numbers([x] + a)) == Atol(x) % LONG + Sum(Numbers(a))
    ensures Sum(Numbers(l + ([x] + r))) == Atol(x) % LONG + Sum(Numbers(l + r))
  {
    var n := Atol(x) % LONG;
    assert Numbers([x] + a)[1..] == Numbers(a);
    assert Numbers(l + r) == Numbers(l) + Numbers(r);
    assert Numbers(l + ([x] + r)) == Numbers(l) + ([n] + Numbers(r));
    SumMoves(Numbers(l), n, Numbers(r));
  }

  lemma {:induction false} SumMoves(a: seq<int>, x: int, b: seq<int>)
    ensures Sum(a + ([x] + b)) == x + Sum(a + b)
  {
    if a == [] {
      assert a + ([x] + b) == [x] + b && a + b == b && ([x] + b)[1..] == b;
    } else {
      assert (a + ([x] + b))[1..] == a[1..] + ([x] + b) && (a + b)[1..] == a[1..] + b;
      SumMoves(a[1..], x, b);
    }
  }

  // what a client answers on its chunk: nothing when the chunk is empty
  ghost function AnswerOf(chunk: seq<char>, keep: nat -> bool): Option<seq<char>> {
    if chunk == [] then None else Some(Print(LineSum(chunk, keep)))
  }

  // one answer from every client, in any order
  ghost predicate Answers(result: seq<seq<char>>, cut: seq<seq<char>>, keep: nat -> bool) {
    && (forall i :: 0 <= i < |cut| ==> AnswerOf(cut[i], keep).Some?)
    && multiset(result) == multiset(Printed(PartSums(cut, keep)))
  }

  ghost function Printed(parts: seq<int>): (r: seq<seq<char>>)
    requires forall i :: 0 <= i < |parts| ==> parts[i] >= 0
    ensures |r| == |parts| && forall i :: 0 <= i < |r| ==> r[i] == Print(parts[i])
  {
    seq(|parts|, i requires 0 <= i < |parts| => Print(parts[i]))
  }

  // what saturation takes off the parts
  ghost function Excess(parts: seq<int>): nat
    requires forall i :: 0 <= i < |parts| ==> parts[i] >= 0
  {
    if parts == [] then 0 else parts[0] - Saturated(parts[0]) + Excess(parts[1..])
  }

  lemma {:induction false} ReadBack(parts: seq<int>)
    requires forall i :: 0 <= i < |parts| ==> 0 <= parts[i] < LONG
    ensures Sum(Numbers(Printed(parts))) == Sum(parts) - Excess(parts)
  {
    if parts != [] {
      PrintReads(parts[0]);
      var r := Numbers(Printed(parts));
      assert r[0] == Saturated(parts[0]);
      assert r[1..] == Numbers(Printed(parts[1..]));
      ReadBack(parts[1..]);
    }
  }

  ghost function ChunksOf(src: seq<char>, caps: seq<nat>): seq<seq<char>>
    requires |caps| > 0 && 0 < Sum(caps)
  {
    Cut(src, 0, Counts(caps, Newlines(src), Newlines(src), Sum(caps)))
  }

  // the text behind the last newline
  ghost function TailOf(s: seq<char>): (t: seq<char>)
    ensures s == WholeLines(s) + t
  {
    BodyIsPrefix(s);
    s[|WholeLines(s)|..]
  }

  lemma {:induction false} BodyIsPrefix(s: seq<char>)
    ensures WholeLines(s) <= s
    decreases |s|
  {
    if !Whole(s) { BodyIsPrefix(s[..|s| - 1]); }
  }

  lemma ChunksJoin(src: seq<char>, caps: seq<nat>)
    requires |caps| > 0 && 0 < Sum(caps) < WORD
    ensures var cut := ChunksOf(src, caps);
            (forall i :: 0 <= i < |cut| ==> Whole(cut[i])) && Join(cut) + TailOf(src) == src
                && Newlines(TailOf(src)) == 0
  {
    TaskSetsPartition(src, caps);
    var tail := BodyAndTail(src);
    assert tail == TailOf(src);
  }

  // the server gets through the split, and every client has something to answer, exactly when every share but
  // the last is at least one line and the shares do not use up all lines before the last client
  lemma EveryoneAnswers(src: seq<char>, caps: seq<nat>, keep: nat -> bool)
    requires |caps| > 0 && 0 < Sum(caps) < WORD
    ensures var cut, n, count := ChunksOf(src, caps), |caps| - 1, Newlines(src);
            [] !in cut <==>
            (forall i :: 0 <= i < n ==> caps[i] * count % WORD >= Sum(caps))
                && Sum(Shares(caps[..n], count, Sum(caps))) < count
    ensures var cut := ChunksOf(src, caps); [] !in cut <==> forall i :: 0 <= i < |cut| ==> AnswerOf(cut[i], keep).Some?
  {
    TaskSetsPartition(src, caps);
    var cut, n, count := ChunksOf(src, caps), |caps| - 1, Newlines(src);
    assert forall i :: 0 <= i < |cut| ==> (AnswerOf(cut[i], keep).Some? <==> cut[i] != []);
    assert forall i :: 0 <= i < n ==> (cut[i] == [] <==> caps[i] * count % WORD < Sum(caps));
  }

  lemma ModEquation(sequential: int, merged: int, off: nat, q: int)
    requires 0 <= sequential < LONG && sequential == merged + off + q * LONG
    ensures sequential == Added(merged % LONG, off)
    ensures merged % LONG == sequential <==> off % LONG == 0
  {
    assert (merged + off) % LONG == sequential;
    ModSum(off, merged, merged % LONG);
    ModSum(off, merged % LONG, merged);
    ModCancel(merged, off);
  }

  lemma ModCancel(a: int, b: int)
    ensures (a + b) % LONG == a % LONG <==> b % LONG == 0
  {
  }

  // what differs between the two sums
  ghost function Off(cut: seq<seq<char>>, tail: seq<char>, keep: nat -> bool): nat {
    Overrun(cut, tail, keep) + Excess(PartSums(cut, keep))
  }

  lemma ReadSum(result: seq<seq<char>>, parts: seq<int>)
    requires (forall i :: 0 <= i < |parts| ==> 0 <= parts[i] < LONG) && multiset(result) == multiset(Printed(parts))
    ensures Sum(Numbers(result)) == Sum(parts) - Excess(parts)
  {
    ReadBack(parts);
    MergeOfPermutation(result, Printed(parts));
  }

  lemma WholeSum(text: seq<char>, cut: seq<seq<char>>, tail: seq<char>, keep: nat -> bool) returns (q: int)
    requires (forall i :: 0 <= i < |cut| ==> Whole(cut[i])) && Newlines(tail) == 0 && text == Join(cut) + tail
    ensures LineSum(text, keep) == Sum(PartSums(cut, keep)) + Overrun(cut, tail, keep) + q * LONG
  {
    PartsAddUp(cut, tail, keep);
    var p := LineSumIsSum(text, keep);
    q := RawParts(cut, keep);
    q := q - p;
  }

  lemma Figures(src: seq<char>, caps: seq<nat>, result: seq<seq<char>>, keep: nat -> bool) returns (q: int)
    requires |caps| > 0 && 0 < Sum(caps) < WORD && Answers(result, ChunksOf(src, caps), keep)
    ensures LineSum(src, keep) == Sum(Numbers(result)) + Off(ChunksOf(src, caps), TailOf(src), keep) + q * LONG
  {
    var cut, tail := ChunksOf(src, caps), TailOf(src);
    ChunksJoin(src, caps);
    q := WholeSum(src, cut, tail, keep);
    ReadSum(result, PartSums(cut, keep));
  }

  // the sequential sum is the merged one plus what is read across the ends of the chunks plus what saturation
  // takes off, for any text, any capabilities and any order of the answers; so the two agree exactly when
  // those come to a multiple of 2^64
  lemma DistributedSum(src: seq<char>, caps: seq<nat>, result: seq<seq<char>>, keep: nat -> bool)
    requires |caps| > 0 && 0 < Sum(caps) < WORD && Answers(result, ChunksOf(src, caps), keep)
    ensures var off := Off(ChunksOf(src, caps), TailOf(src), keep);
            LineSum(src, keep) == Added(MergedSum(result), off)
                && (MergedSum(result) == LineSum(src, keep) <==> off % LONG == 0)
  {
    var q := Figures(src, caps, result, keep);
    var merged, off := Sum(Numbers(result)), Off(ChunksOf(src, caps), TailOf(src), keep);
    ModEquation(LineSum(src, keep), merged, off, q);
  }

  // ---- when the two sums agree ----

  predicate LineStart(s: seq<char>, p: int) { 0 <= p < |s| && (p == 0 || s[p - 1] == '\n') }

  predicate EndsInBlankLine(s: seq<char>) { exists p :: 0 <= p < |s| && LineStart(s, p) && Blank(s[p..]) }

  lemma {:induction false} LineEndBefore(s: seq<char>, start: nat, p: nat)
    requires start < p <= |s| && s[p - 1] == '\n'
    ensures LineEnd(s, start, 1) <= p
    decreases p - start
  {
    if s[start] != '\n' { LineEndBefore(s, start + 1, p); }
  }

  lemma {:induction false} BlankLineIsFound(s: seq<char>, start: nat, p: nat)
    requires start <= p < |s| && Whole(s) && LineStart(s, p) && Blank(s[p..])
    ensures BlankFrom(s, start) > 0
    decreases p - start
  {
    assert s[start..][|s| - start - 1] == s[|s| - 1];
    WholeIsEmpty(s[start..]);
    if start < p {
      LineEndCounts(s, start, 1);
      LineNonEmpty(s, start);
      LineEndBefore(s, start, p);
      BlankLineIsFound(s, LineEnd(s, start, 1), p);
    }
  }

  lemma {:induction false} NoBlankFrom(s: seq<char>, start: nat)
    requires start <= |s| && (start == |s| || LineStart(s, start)) && !EndsInBlankLine(s)
    ensures BlankFrom(s, start) == 0
    decreases |s| - start
  {
    if Newlines(s[start..]) > 0 {
      NewlineAt(s, start);
      assert LineStart(s, start);
      LineEndCounts(s, start, 1);
      LineNonEmpty(s, start);
      var e := LineEnd(s, start, 1);
      WholeIsEmpty(s[start..e]);
      assert s[start..e][e - start - 1] == s[e - 1];
      NoBlankFrom(s, e);
    }
  }

  // a chunk that ends in a blank line, before a number that counts and is not zero
  ghost predicate Crossed(cut: seq<seq<char>>, tail: seq<char>, i: nat, keep: nat -> bool)
    requires i < |cut|
  {
    EndsInBlankLine(cut[i]) && FirstNumber(Join(cut[i + 1..]) + tail, keep) != 0
  }

  lemma FirstCrossed(cut: seq<seq<char>>, tail: seq<char>, keep: nat -> bool)
    requires cut != [] && Whole(cut[0])
    ensures Overread(cut[0], 0, FirstNumber(Join(cut[1..]) + tail, keep)) == 0 <==> !Crossed(cut, tail, 0, keep)
  {
    var s, next := cut[0], FirstNumber(Join(cut[1..]) + tail, keep);
    OverreadIsProduct(s, 0, next);
    ZeroProduct(BlankFrom(s, 0), next);
    if EndsInBlankLine(s) {
      var p :| 0 <= p < |s| && LineStart(s, p) && Blank(s[p..]);
      BlankLineIsFound(s, 0, p);
    } else {
      NoBlankFrom(s, 0);
    }
  }

  lemma ZeroProduct(m: nat, n: nat)
    ensures m == 0 || n == 0 <==> m * n == 0
  {
  }

  lemma {:induction false} OverrunIsZero(cut: seq<seq<char>>, tail: seq<char>, keep: nat -> bool)
    requires forall i :: 0 <= i < |cut| ==> Whole(cut[i])
    ensures Overrun(cut, tail, keep) == 0 <==> forall i :: 0 <= i < |cut| ==> !Crossed(cut, tail, i, keep)
  {
    if cut != [] {
      var rest := cut[1..];
      OverrunIsZero(rest, tail, keep);
      FirstCrossed(cut, tail, keep);
      forall i | 0 <= i < |rest| ensures Crossed(rest, tail, i, keep) == Crossed(cut, tail, i + 1, keep) {
        assert rest[i + 1..] == cut[i + 2..];
      }
      assert forall i :: 0 < i < |cut| ==> Crossed(cut, tail, i, keep) == Crossed(rest, tail, i - 1, keep);
    }
  }

  lemma {:induction false} ExcessIsZero(parts: seq<int>)
    requires forall i :: 0 <= i < |parts| ==> parts[i] >= 0
    ensures Excess(parts) == 0 <==> forall i :: 0 <= i < |parts| ==> parts[i] <= LONG_MAX
  {
    if parts != [] { ExcessIsZero(parts[1..]); }
  }

  // no number is read across the end of a chunk, and every partial sum can be read back
  ghost predicate Clean(cut: seq<seq<char>>, tail: seq<char>, keep: nat -> bool) {
    && (forall i :: 0 <= i < |cut| ==> !Crossed(cut, tail, i, keep))
    && (forall i :: 0 <= i < |cut| ==> LineSum(cut[i], keep) <= LONG_MAX)
  }

  lemma NothingOff(cut: seq<seq<char>>, tail: seq<char>, keep: nat -> bool)
    requires forall i :: 0 <= i < |cut| ==> Whole(cut[i])
    ensures Off(cut, tail, keep) == 0 <==> Clean(cut, tail, keep)
  {
    var parts := PartSums(cut, keep);
    OverrunIsZero(cut, tail, keep);
    ExcessIsZero(parts);
    assert forall i :: 0 <= i < |cut| ==> parts[i] == LineSum(cut[i], keep);
  }

  // so the distributed answer is the sequential one on clean chunks, and on no others unless what is off
  // comes to 2^64
  lemma DistributedSumIsSequential(src: seq<char>, caps: seq<nat>, result: seq<seq<char>>, keep: nat -> bool)
    requires |caps| > 0 && 0 < Sum(caps) < WORD && Answers(result, ChunksOf(src, caps), keep)
    ensures var clean := Clean(ChunksOf(src, caps), TailOf(src), keep);
            var agree := MergedSum(result) == LineSum(src, keep);
            && (clean ==> agree)
            && (Off(ChunksOf(src, caps), TailOf(src), keep) < LONG ==> (agree <==> clean))
  {
    DistributedSum(src, caps, result, keep);
    ChunksJoin(src, caps);
    NothingOff(ChunksOf(src, caps), TailOf(src), keep);
    SmallMultiple(Off(ChunksOf(src, caps), TailOf(src), keep));
  }

  lemma SmallMultiple(n: nat)
    ensures n < LONG ==> (n % LONG == 0 <==> n == 0)
    ensures n == 0 ==> n % LONG == 0
  {
  }

  // chunks are not crossed when none with text behind it ends in a blank line
  lemma LastMayEndBlank(cut: seq<seq<char>>, keep: nat -> bool)
    requires forall i :: 0 <= i < |cut| - 1 ==> !EndsInBlankLine(cut[i])
    ensures forall i :: 0 <= i < |cut| ==> !Crossed(cut, [], i, keep)
  {
    var nothing: seq<char> := [];
    assert Atol(nothing) == 0 && Join([]) + nothing == nothing;
  }

  // ---- a text that comes out wrong ----

  const FIVE := ['5', '\n']
  const BLANK := ['\n']

  function Fives(n: nat): seq<char> { if n == 0 then [] else FIVE + Fives(n - 1) }

  lemma SumOfBlank()
    ensures SumFrom(BLANK, 0, Any) == 0 && Newlines(BLANK) == 1 && FirstNumber(BLANK, Any) == 0
    ensures forall next :: Overread(BLANK, 0, next) == next
  {
    assert BLANK[0..] == BLANK && BLANK[1..] == [];
    assert Skip(BLANK) == [] && LineEnd(BLANK, 0, 1) == 1 && SumFrom(BLANK, 1, Any) == 0;
  }

  lemma SumOfFive()
    ensures SumFrom(FIVE, 0, Any) == 5 && Atol(FIVE) == 5 && Newlines(FIVE) == 1
  {
    SumOfBlank();
    assert FIVE[0..] == FIVE && FIVE[1..] == BLANK && FIVE[2..] == [];
    assert Decimal(FIVE, 0) == Decimal(BLANK, 5) == 5 && Skip(FIVE) == FIVE;
    assert LineEnd(FIVE, 1, 1) == 2 == LineEnd(FIVE, 0, 1) && SumFrom(FIVE, 2, Any) == 0;
  }

  lemma {:induction false} FivesText(n: nat)
    ensures var s := Fives(n); |s| == 2 * n && Newlines(s) == n && Whole(s) && (n > 0 ==> s[|s| - 2] == '5')
  {
    if n > 0 {
      FivesText(n - 1);
      SumOfFive();
      NewlinesJoin(FIVE, Fives(n - 1));
    }
  }

  // no line of such a text is blank, so nothing behind it is read early
  lemma FivesKeepToThemselves(n: nat, next: nat)
    ensures Overread(Fives(n), 0, next) == 0
  {
    var s := Fives(n);
    FivesText(n);
    forall p | 0 <= p < |s| && LineStart(s, p) ensures !Blank(s[p..]) {
      assert s[|s| - 1] == '\n';
      assert s[p..][|s| - 2 - p] == '5';
    }
    NoBlankFrom(s, 0);
    OverreadIsProduct(s, 0, next);
  }

  lemma SumAfterFives(n: nat, rest: seq<char>)
    ensures SumFrom(Fives(n) + rest, 0, Any) == SumFrom(Fives(n), 0, Any) + SumFrom(rest, 0, Any)
  {
    FivesText(n);
    assert Fives(n)[0..] == Fives(n);
    SumJoin(Fives(n), rest, 0, Any);
    FivesKeepToThemselves(n, FirstNumber(rest, Any));
  }

  lemma {:induction false} SumOfFives(n: nat)
    ensures SumFrom(Fives(n), 0, Any) == 5 * n
  {
    if n == 0 {
      assert Fives(0)[0..] == [];
    } else {
      SumOfFives(n - 1);
      SumOfFive();
      assert Fives(1) == FIVE + Fives(0) == FIVE;
      SumAfterFives(1, Fives(n - 1));
    }
  }

  lemma FirstOfFives(n: nat)
    requires n > 0
    ensures FirstNumber(Fives(n), Any) == 5
  {
    SumOfFive();
    assert !Space(FIVE[0]);
    AtolJoin(FIVE, Fives(n - 1));
  }

  lemma {:induction false} WholeLineEnd(a: seq<char>, b: seq<char>, start: nat)
    requires start <= |a| && Whole(a[start..])
    ensures LineEnd(a + b, start, Newlines(a[start..])) == |a|
    decreases |a| - start
  {
    if start < |a| {
      WholeIsEmpty(a[start..]);
      assert a[start..][1..] == a[start + 1..];
      assert start + 1 < |a| ==> a[start + 1..][|a| - start - 2] == a[start..][|a| - start - 1];
      WholeLineEnd(a, b, start + 1);
    }
  }

  // two clients of equal capability: a text of two halves with equally many lines is cut in the middle
  lemma ChunksOfHalves(a: seq<char>, b: seq<char>, k: nat)
    requires Whole(a) && Whole(b) && Newlines(a) == Newlines(b) == k && 0 < 2 * k < WORD
    ensures Sum([1, 1]) == 2 && Newlines(a + b) == 2 * k && ChunksOf(a + b, [1, 1]) == [a, b]
  {
    var s := a + b;
    NewlinesJoin(a, b);
    assert [1, 1][1..] == [1] && [1][1..] == [];
    assert Sum([1]) == 1;
    assert Share(1, 2 * k, 2) == k;
    assert Counts([1, 1], 2 * k, 2 * k, 2) == [k] + Counts([1], 2 * k, k, 2) == [k, k];
    assert a[0..] == a && b[0..] == b && b + [] == b;
    WholeLineEnd(a, b, 0);
    WholeLineEnd(b, [], 0);
    LineEndShift(a, b, 0, k);
    assert s[..|a|] == a && s[0..|a|] == a && s[|a|..|s|] == b;
    assert Cut(s, |a|, [k]) == [b] + Cut(s, |s|, [k][1..]) == [b];
    assert [k, k][1..] == [k];
  }

  lemma BlankBeforeFives(k: nat)
    requires k > 0
    ensures SumFrom(BLANK + Fives(k), 0, Any) == 5 * k + 5
  {
    SumOfBlank();
    SumOfFives(k);
    assert BLANK[0..] == BLANK;
    SumJoin(BLANK, Fives(k), 0, Any);
    FirstOfFives(k);
  }

  lemma FirstHalfSum(n: nat)
    ensures SumFrom(Fives(n) + BLANK, 0, Any) == 5 * n
  {
    SumOfBlank();
    SumOfFives(n);
    SumAfterFives(n, BLANK);
  }

  lemma Regroup(a: seq<char>, b: seq<char>, c: seq<char>)
    ensures a + b + c == a + (b + c)
  {
  }

  lemma SequentialSum(n: nat, k: nat)
    requires k > 0
    ensures SumFrom(Fives(n) + BLANK + Fives(k), 0, Any) == 5 * n + 5 * k + 5
  {
    Regroup(Fives(n), BLANK, Fives(k));
    SumAfterFives(n, BLANK + Fives(k));
    SumOfFives(n);
    BlankBeforeFives(k);
  }

  lemma SmallSum(s: seq<char>, n: nat)
    requires SumFrom(s, 0, Any) == n < LONG
    ensures LineSum(s, Any) == n
  {
  }

  lemma MergedPair(a: seq<char>, b: seq<char>, m: nat, n: nat)
    requires a != [] && b != [] && LineSum(a, Any) == m && LineSum(b, Any) == n && m + n <= LONG_MAX
    ensures var parts := PartSums([a, b], Any);
            Answers(Printed(parts), [a, b], Any) && MergedSum(Printed(parts)) == m + n
  {
    var parts := PartSums([a, b], Any);
    assert parts == [m, n] && [m, n][1..] == [n] && [n][1..] == [];
    assert Sum([n]) == n && Sum([m, n]) == m + Sum([m, n][1..]) == m + n;
    ReadBack(parts);
    ExcessIsZero(parts);
    assert AnswerOf([a, b][0], Any).Some? && AnswerOf([a, b][1], Any).Some?;
    SmallMultiple(m + n);
  }

  // a text that ends in a blank line behind n fives
  function FirstHalf(n: nat): seq<char> { Fives(n) + BLANK }

  lemma Halves(n: nat, k: nat)
    requires k > 0
    ensures Whole(FirstHalf(n)) && FirstHalf(n) != [] && Newlines(FirstHalf(n)) == n + 1
    ensures Whole(Fives(k)) && Fives(k) != [] && Newlines(Fives(k)) == k
  {
    FivesText(n);
    FivesText(k);
    SumOfBlank();
    NewlinesJoin(Fives(n), BLANK);
  }

  lemma FirstHalfAnswer(n: nat)
    requires n < WORD
    ensures LineSum(FirstHalf(n), Any) == 5 * n
  {
    FirstHalfSum(n);
    SmallSum(FirstHalf(n), 5 * n);
  }

  lemma SecondHalfAnswer(k: nat)
    requires k < WORD
    ensures LineSum(Fives(k), Any) == 5 * k
  {
    SumOfFives(k);
    SmallSum(Fives(k), 5 * k);
  }

  lemma SequentialAnswer(n: nat, k: nat)
    requires k > 0 && n + k < WORD
    ensures LineSum(Fives(n) + BLANK + Fives(k), Any) == 5 * n + 5 * k + 5
  {
    SequentialSum(n, k);
    SmallSum(Fives(n) + BLANK + Fives(k), 5 * n + 5 * k + 5);
  }

  // a blank line is read past its chunk: the sequential sum is five more than the merged one, and when either half
  // has k lines, two equal clients get just these
  lemma BlankLineChangesSum(n: nat, k: nat)
    requires k >= 10 && n + 1 + k < WORD
    ensures Newlines(FirstHalf(n) + Fives(k)) == n + 1 + k && LineSum(FirstHalf(n) + Fives(k), Any) == 5 * n + 5 * k + 5
    ensures n + 1 == k ==> Sum([1, 1]) == 2 && ChunksOf(FirstHalf(n) + Fives(k), [1, 1]) == [FirstHalf(n), Fives(k)]
    ensures var cut := [FirstHalf(n), Fives(k)]; var result := Printed(PartSums(cut, Any));
            Answers(result, cut, Any) && MergedSum(result) == 5 * n + 5 * k
  {
    Halves(n, k);
    if n + 1 == k { ChunksOfHalves(FirstHalf(n), Fives(k), k); }
    NewlinesJoin(FirstHalf(n), Fives(k));
    FirstHalfAnswer(n);
    SecondHalfAnswer(k);
    SequentialAnswer(n, k);
    MergedPair(FirstHalf(n), Fives(k), 5 * n, 5 * k);
  }
}
