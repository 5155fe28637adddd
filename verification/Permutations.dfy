// Taking one element out of two lists that hold the same elements.
module Permutations {
  lemma OneOut<T>(l: seq<T>, x: T, r: seq<T>)
    ensures multiset(l + ([x] + r)) == multiset{x} + multiset(l + r)
  {
    assert multiset([x] + r) == multiset{x} + multiset(r);
  }

  lemma Cancels<T>(x: T, a: multiset<T>, b: multiset<T>)
    requires multiset{x} + a == multiset{x} + b
    ensures a == b
  {
    assert a == (multiset{x} + a) - multiset{x};
    assert b == (multiset{x} + b) - multiset{x};
  }

  lemma FirstOut<T>(a: seq<T>)
    requires a != []
    ensures multiset(a) == multiset{a[0]} + multiset(a[1..])
  {
    assert a == [a[0]] + a[1..];
  }

  lemma WithoutFirst<T>(a: seq<T>, b: seq<T>) returns (l: seq<T>, r: seq<T>)
    requires multiset(a) == multiset(b) && a != []
    ensures b == l + ([a[0]] + r) && multiset(a[1..]) == multiset(l + r)
  {
    assert a[0] in multiset(b);
    var i :| 0 <= i < |b| && b[i] == a[0];
    l, r := b[..i], b[i + 1..];
    assert b == l + ([a[0]] + r);
    OneOut(l, a[0], r);
    FirstOut(a);
    Cancels(a[0], multiset(a[1..]), multiset(l + r));
  }

  lemma CancelSum<T>(a: multiset<T>, b: multiset<T>, c: multiset<T>)
    ensures a + b == a + c <==> b == c
  {
    assert b == (a + b) - a;
    assert c == (a + c) - a;
  }

  // ---- the same of every element ----

  function Mapped<T, U>(f: T -> U, s: seq<T>): (r: seq<U>)
    ensures |r| == |s| && forall i :: 0 <= i < |r| ==> r[i] == f(s[i])
  {
    seq(|s|, i requires 0 <= i < |s| => f(s[i]))
  }

  lemma MappedMoves<T, U>(f: T -> U, l: seq<T>, x: T, r: seq<T>)
    ensures multiset(Mapped(f, l + ([x] + r))) == multiset{f(x)} + multiset(Mapped(f, l + r))
  {
    var ml, mr := Mapped(f, l), Mapped(f, r);
    assert Mapped(f, l + r) == ml + mr;
    assert Mapped(f, l + ([x] + r)) == ml + ([f(x)] + mr);
    OneOut(ml, f(x), mr);
  }

  lemma {:induction false} MappedPermutation<T, U>(f: T -> U, a: seq<T>, b: seq<T>)
    requires multiset(a) == multiset(b)
    ensures multiset(Mapped(f, a)) == multiset(Mapped(f, b))
  {
    assert |multiset(a)| == |a| && |multiset(b)| == |b|;
    if a != [] {
      var l, r := WithoutFirst(a, b);
      MappedPermutation(f, a[1..], l + r);
      assert a == [] + ([a[0]] + a[1..]) && [] + a[1..] == a[1..];
      MappedMoves(f, [], a[0], a[1..]);
      MappedMoves(f, l, a[0], r);
    }
  }
}
