// What the numbers in the texts are: decimal notation, for reading, printing, the answers of the clients and the merge.
module Decimals {
  import opened Basics
  import opened TaskSplit
  import opened TaskSum

  function Power(base: nat, k: nat): nat { if k == 0 then 1 else base * Power(base, k - 1) }

  ghost predicate Digits(s: seq<char>) { forall i :: 0 <= i < |s| ==> '0' <= s[i] <= '9' }

  // the sum of every digit's value times the power of the base at its place
  function Positional(base: nat, s: seq<char>): int {
    if s == [] then 0 else (s[0] as int - '0' as int) * Power(base, |s| - 1) + Positional(base, s[1..])
  }

  // no digit at the front
  ghost predicate Ends(rest: seq<char>) { rest == [] || !('0' <= rest[0] <= '9') }

  lemma {:induction false} PositionalMore(s: seq<char>, c: char)
    ensures Positional(10, s + [c]) == 10 * Positional(10, s) + (c as int - '0' as int)
  {
    if s == [] {
      assert [] + [c] == [c] && [c][1..] == [];
      assert Power(10, 0) == 1;
    } else {
      assert (s + [c])[1..] == s[1..] + [c];
      PositionalMore(s[1..], c);
      Shifted(s[0] as int - '0' as int, Power(10, |s| - 1));
      assert Power(10, |s|) == 10 * Power(10, |s| - 1);
    }
  }

  lemma Shifted(d: int, p: int)
    ensures d * (10 * p) == 10 * (d * p)
  {
  }

  lemma {:induction false} DecimalIsPositional(s: seq<char>, rest: seq<char>, acc: nat)
    requires Digits(s) && Ends(rest)
    ensures Decimal(s + rest, acc) == acc * Power(10, |s|) + Positional(10, s)
  {
    if s == [] {
      assert s + rest == rest;
      assert acc * Power(10, 0) == acc;
    } else {
      var d := s[0] as int - '0' as int;
      assert (s + rest)[1..] == s[1..] + rest;
      DecimalIsPositional(s[1..], rest, 10 * acc + d);
      Folded(acc, d, Power(10, |s| - 1));
    }
  }

  lemma Folded(acc: int, d: int, p: int)
    ensures (10 * acc + d) * p == acc * (10 * p) + d * p
  {
  }

  // the digits at the front of a text, as atol reads them: white space before them, a sign, and saturation
  lemma AtolReads(space: seq<char>, s: seq<char>, rest: seq<char>)
    requires forall i :: 0 <= i < |space| ==> space[i] == ' ' || 9 <= space[i] as int <= 13
    requires s != [] && Digits(s) && Ends(rest)
    ensures var v := Positional(10, s);
            && v >= 0
            && Atol(space + (s + rest)) == Atol(space + (['+'] + (s + rest)))
                == (if v <= 0x7fff_ffff_ffff_ffff then v else 0x7fff_ffff_ffff_ffff)
            && Atol(space + (['-'] + (s + rest)))
                == (if v <= 0x8000_0000_0000_0000 then -v else -0x8000_0000_0000_0000)
  {
    DecimalIsPositional(s, rest, 0);
    assert 0 * Power(10, |s|) == 0;
    var t := s + rest;
    assert t[0] == s[0] && !Space(t[0]);
    SkipBlank(space, t);
    SkipBlank(space, ['+'] + t);
    SkipBlank(space, ['-'] + t);
    assert (['+'] + t)[1..] == t && (['-'] + t)[1..] == t;
  }

  // anything else reads as zero: no digit where the number should be, with a sign or without
  lemma AtolReadsNothing(space: seq<char>, rest: seq<char>)
    requires forall i :: 0 <= i < |space| ==> space[i] == ' ' || 9 <= space[i] as int <= 13
    requires Ends(rest)
    ensures Atol(space + (['+'] + rest)) == 0 == Atol(space + (['-'] + rest))
    ensures rest == [] || (rest[0] != ' ' && !(9 <= rest[0] as int <= 13) && rest[0] != '+' && rest[0] != '-') ==>
              Atol(space + rest) == 0
  {
    SkipBlank(space, ['+'] + rest);
    SkipBlank(space, ['-'] + rest);
    SkipBlank(space, rest);
    assert (['+'] + rest)[1..] == rest && (['-'] + rest)[1..] == rest;
  }

  // digits, and no zero in front of others
  ghost predicate Plain(s: seq<char>) { s != [] && Digits(s) && (s[0] == '0' ==> s == "0") }

  // what is printed for n: its decimal digits, without a leading zero
  lemma {:induction false} PrintIsPositional(n: nat)
    ensures var s := Print(n); Plain(s) && Positional(10, s) == n && (n > 0 ==> s[0] != '0')
  {
    var d := ('0' as int + n % 10) as char;
    if n < 10 {
      PositionalMore([], d);
      assert [] + [d] == [d];
    } else {
      PrintIsPositional(n / 10);
      PositionalMore(Print(n / 10), d);
    }
  }

  // ---- texts of decimal numbers, one on a line ----

  ghost predicate AllDigits(lines: seq<seq<char>>) { forall i :: 0 <= i < |lines| ==>
      lines[i] != [] && Digits(lines[i]) }

  function TextOf(lines: seq<seq<char>>): seq<char> {
    if lines == [] then [] else lines[0] + ['\n'] + TextOf(lines[1..])
  }

  // the numbers that count, added up; what exceeds a signed long is read as the largest one
  ghost function LinesTotal(lines: seq<seq<char>>, keep: nat -> bool): int {
    if lines == [] then 0
    else
      var v := Positional(10, lines[0]);
      var n := if 0 <= v <= 0x7fff_ffff_ffff_ffff then v else 0x7fff_ffff_ffff_ffff;
      (if keep(n) then n else 0) + LinesTotal(lines[1..], keep)
  }

  // a line that is not blank, in front of a text
  lemma LineInFront(line: seq<char>, rest: seq<char>, keep: nat -> bool)
    requires '\n' !in line && !Blank(line)
    ensures var n := Atol(line + ['\n']) % 0x1_0000_0000_0000_0000;
            SumFrom(line + ['\n'] + rest, 0, keep) == (if keep(n) then n else 0) + SumFrom(rest, 0, keep)
  {
    var a, next := line + ['\n'], FirstNumber(rest, keep);
    OneLine(line);
    SumJoin(a, rest, 0, keep);
    var i :| 0 <= i < |line| && !Space(line[i]);
    assert !Space(a[i]);
    SingleLine(a, next, keep);
  }

  // a blank line adds the number at the start of what follows, which is read once more
  lemma BlankInFront(line: seq<char>, rest: seq<char>, keep: nat -> bool)
    requires '\n' !in line && forall i :: 0 <= i < |line| ==> line[i] == ' ' || 9 <= line[i] as int <= 13
    ensures var n := Atol(rest) % 0x1_0000_0000_0000_0000;
            SumFrom(line + ['\n'] + rest, 0, keep)
                == (if keep(n) then n else 0) + SumFrom(rest, 0, keep)
  {
    var a, next := line + ['\n'], FirstNumber(rest, keep);
    OneLine(line);
    SumJoin(a, rest, 0, keep);
    assert Blank(a) && a[0..] == a && a[|a|..] == [];
    FirstOfSum(a, 0, keep);
    AtolJoin(a, []);
    assert Overread(a, 0, next) == next + Overread(a, |a|, next) == next;
  }

  // what is behind the last newline is never read
  lemma TailIsNotRead(tail: seq<char>, keep: nat -> bool)
    requires '\n' !in tail
    ensures SumFrom(tail, 0, keep) == 0
  {
    NoNewline(tail);
    assert tail[0..] == tail;
  }

  lemma DigitsInLine(line: seq<char>)
    requires line != [] && Digits(line)
    ensures var v := Positional(10, line);
            Atol(line + ['\n']) == if 0 <= v <= 0x7fff_ffff_ffff_ffff then v else 0x7fff_ffff_ffff_ffff
  {
    AtolReads([], line, ['\n']);
    assert [] + (line + ['\n']) == line + ['\n'];
  }

  // one such line in front of a text
  lemma LineOfDigits(line: seq<char>, rest: seq<char>, keep: nat -> bool)
    requires line != [] && Digits(line)
    ensures var v := Positional(10, line);
            var n := if 0 <= v <= 0x7fff_ffff_ffff_ffff then v else 0x7fff_ffff_ffff_ffff;
            SumFrom(line + ['\n'] + rest, 0, keep) == (if keep(n) then n else 0) + SumFrom(rest, 0, keep)
  {
    assert !Space(line[0]);
    LineInFront(line, rest, keep);
    DigitsInLine(line);
  }

  lemma SingleLine(a: seq<char>, next: nat, keep: nat -> bool)
    requires a != [] && !Blank(a) && Newlines(a) == 1 && LineEnd(a, 0, 1) == |a|
    ensures SumFrom(a, 0, keep) == FirstNumber(a, keep) && Overread(a, 0, next) == 0
  {
    assert a[0..] == a && a[|a|..] == [];
    FirstOfSum(a, 0, keep);
    assert Overread(a, 0, next) == Overread(a, |a|, next) == 0;
  }

  lemma {:induction false} OneLine(line: seq<char>)
    requires '\n' !in line
    ensures var a := line + ['\n']; a[0..] == a && Newlines(a) == 1 && LineEnd(a, 0, 1) == |a|
  {
    var a := line + ['\n'];
    NoNewline(line);
    NewlinesJoin(line, ['\n']);
    assert ['\n'][1..] == [];
    assert a[0..] == a;
    LineEndCounts(a, 0, 1);
  }

  lemma {:induction false} NoNewline(line: seq<char>)
    requires '\n' !in line
    ensures Newlines(line) == 0
  {
    if line != [] { NoNewline(line[1..]); }
  }

  lemma {:induction false} SumOfLines(lines: seq<seq<char>>, keep: nat -> bool)
    requires AllDigits(lines)
    ensures SumFrom(TextOf(lines), 0, keep) == LinesTotal(lines, keep)
  {
    if lines == [] {
      assert TextOf(lines)[0..] == [];
    } else {
      LineOfDigits(lines[0], TextOf(lines[1..]), keep);
      SumOfLines(lines[1..], keep);
    }
  }

  // the answer of a client whose file has these lines
  lemma AnswerOfLines(lines: seq<seq<char>>, keep: nat -> bool)
    requires lines != [] && AllDigits(lines)
    ensures var answer := AnswerOf(TextOf(lines), keep);
            && answer.Some? && Plain(answer.value)
            && Positional(10, answer.value) == LinesTotal(lines, keep) % 0x1_0000_0000_0000_0000
  {
    SumOfLines(lines, keep);
    PrintIsPositional(LineSum(TextOf(lines), keep));
  }

  // find_sum and find_prime_sum on such a file
  method SumLines(lines: seq<seq<char>>, primes: bool) returns (answer: Option<seq<char>>)
    requires lines != [] && AllDigits(lines)
    ensures answer.Some? && Plain(answer.value)
    ensures Positional(10, answer.value) == LinesTotal(lines, if primes then Prime
            else n => true) % 0x1_0000_0000_0000_0000
  {
    var src := TextOf(lines);
    var taskCount := Newlines(src);
    if primes {
      AnswerOfLines(lines, Prime);
      answer := FindPrimeSum(src, taskCount);
    } else {
      AnswerOfLines(lines, Any);
      AnyIsAll(lines);
      answer := FindSum(src, taskCount);
    }
  }

  lemma {:induction false} AnyIsAll(lines: seq<seq<char>>)
    ensures LinesTotal(lines, Any) == LinesTotal(lines, n => true)
  {
    if lines != [] { AnyIsAll(lines[1..]); }
  }

  // the merge of such answers
  lemma DigitsAlone(s: seq<char>)
    requires s != [] && Digits(s)
    ensures var v := Positional(10, s); Atol(s) == if 0 <= v <= 0x7fff_ffff_ffff_ffff then v else 0x7fff_ffff_ffff_ffff
  {
    AtolReads([], s, []);
    assert [] + (s + []) == s;
  }

  lemma {:induction false} NumbersAddUp(result: seq<seq<char>>)
    requires AllDigits(result)
    ensures Sum(Numbers(result)) == LinesTotal(result, n => true)
  {
    if result != [] {
      DigitsAlone(result[0]);
      assert Numbers(result)[1..] == Numbers(result[1..]);
      NumbersAddUp(result[1..]);
    }
  }

  lemma MergeOfLines(result: seq<seq<char>>)
    requires AllDigits(result)
    ensures var s := Print(MergedSum(result));
            && Plain(s)
            && Positional(10, s) == LinesTotal(result, n => true) % 0x1_0000_0000_0000_0000
  {
    NumbersAddUp(result);
    PrintIsPositional(MergedSum(result));
  }

  method MergeLines(result: seq<seq<char>>) returns (finalResp: seq<char>)
    requires AllDigits(result)
    ensures Plain(finalResp)
    ensures Positional(10, finalResp) == LinesTotal(result, n => true) % 0x1_0000_0000_0000_0000
  {
    MergeOfLines(result);
    finalResp := MergeLong(result);
  }

  // two lines, with the numbers 7 and 8
  lemma SevenAndEight()
    ensures AnswerOf("7\n8\n", Any) == Some("15")
  {
    var lines := ["7", "8"];
    assert lines[1..] == ["8"] && lines[1..][1..] == [];
    assert TextOf(lines[1..][1..]) == [] && TextOf(lines[1..]) == "8" + ['\n'] + [] && TextOf(lines) == "7\n8\n";
    PositionalMore([], '7');
    PositionalMore([], '8');
    assert [] + ['7'] == "7" && [] + ['8'] == "8";
    assert Positional(10, "7") == 7 && Positional(10, "8") == 8;
    assert LinesTotal(lines[1..][1..], Any) == 0 && LinesTotal(lines[1..], Any) == 8 && LinesTotal(lines, Any) == 15;
    SumOfLines(lines, Any);
    assert 15 / 10 == 1 && 15 % 10 == 5 && ('0' as int + 5) as char == '5' && ('0' as int + 1) as char == '1';
    assert Print(1) == ['1'] && Print(15) == Print(1) + ['5'] == "15";
  }
}
