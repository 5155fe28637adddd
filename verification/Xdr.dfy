// External data representation (RFC 4506): one description of a layout gives both directions.
module Xdr {
  import opened Basics

  type byte = x: int | 0 <= x < 256

  // sections 4.1 to 4.3 (integers, enumeration), 4.11 (string), 4.13 (variable-length array), 4.14 (structure)
  datatype Layout =
    | UInt | SInt | Enumeration | Short | UShort | ULong
    | Text(max: nat)
    | Array(max: nat, elem: Layout)
    | Then(first: Layout, second: Layout)

  datatype Value = Number(n: int) | Str(s: seq<byte>) | List(items: seq<Value>) | Both(first: Value, second: Value)

  // ---- words ----

  predicate InRange(f: Layout, n: int) {
    match f
    case UInt => 0 <= n < WORD
    case ULong => 0 <= n < WORD
    case SInt => -0x8000_0000 <= n < 0x8000_0000
    case Enumeration => -0x8000_0000 <= n < 0x8000_0000
    case Short => -0x8000 <= n < 0x8000
    case UShort => 0 <= n < 0x1_0000
    case _ => false
  }

  function Word(n: int): (b: seq<byte>)
    ensures |b| == 4
  {
    var u0 := n % WORD;
    var u1 := u0 / 0x100;
    var u2 := u1 / 0x100;
    [u2 / 0x100, u2 % 0x100, u1 % 0x100, u0 % 0x100]
  }

  function Unsigned(b: seq<byte>): (n: int)
    requires |b| >= 4
    ensures 0 <= n < WORD
  {
    (((b[0] as int) * 0x100 + b[1]) * 0x100 + b[2]) * 0x100 + b[3]
  }

  lemma WordReads(n: int, rest: seq<byte>)
    ensures Unsigned(Word(n) + rest) == n % WORD
  {
  }

  // the value a decoded word stands for; short integers keep the low sixteen bits only
  function Meaning(f: Layout, u: int): int
    requires f.UInt? || f.SInt? || f.Enumeration? || f.Short? || f.UShort? || f.ULong?
  {
    match f
    case UInt => u
    case ULong => u
    case SInt => if u < 0x8000_0000 then u else u - WORD
    case Enumeration => if u < 0x8000_0000 then u else u - WORD
    case Short => var h := u % 0x1_0000; if h < 0x8000 then h else h - 0x1_0000
    case UShort => u % 0x1_0000
  }

  lemma MeaningOfWord(f: Layout, n: int)
    requires InRange(f, n)
    ensures Meaning(f, n % WORD) == n
  {
    if f.Short? && n < 0 { assert n % WORD == n + WORD; }
  }

  // bytes of padding behind n bytes
  function Pad(n: nat): (p: nat)
    ensures p < 4 && (n + p) % 4 == 0
  {
    (4 - n % 4) % 4
  }

  function Zeros(n: nat): (b: seq<byte>)
    ensures |b| == n
  {
    if n == 0 then [] else [0] + Zeros(n - 1)
  }

  // ---- both directions ----

  ghost predicate Fits(f: Layout, v: Value)
    decreases f
  {
    match f
    case Text(max) => v.Str? && |v.s| <= max && |v.s| < WORD
    case Array(max, elem) => v.List? && |v.items| <= max && |v.items| < WORD && forall i :: 0 <= i < |v.items| ==>
        Fits(elem, v.items[i])
    case Then(a, b) => v.Both? && Fits(a, v.first) && Fits(b, v.second)
    case _ => v.Number? && InRange(f, v.n)
  }

  function Encode(f: Layout, v: Value): seq<byte>
    requires Fits(f, v)
    decreases f, 0
  {
    match f
    case Text(_) => Word(|v.s|) + (v.s + Zeros(Pad(|v.s|)))
    case Array(_, elem) => Word(|v.items|) + EncodeAll(elem, v.items)
    case Then(a, b) => Encode(a, v.first) + Encode(b, v.second)
    case _ => Word(v.n)
  }

  function EncodeAll(f: Layout, vs: seq<Value>): seq<byte>
    requires forall i :: 0 <= i < |vs| ==> Fits(f, vs[i])
    decreases f, 1 + |vs|
  {
    if vs == [] then [] else Encode(f, vs[0]) + EncodeAll(f, vs[1..])
  }

  // the value at the front and what is left, or nothing when the bytes do not fit the layout
  function Decode(f: Layout, b: seq<byte>): Option<(Value, seq<byte>)>
    decreases f, 0
  {
    match f
    case Text(max) =>
      if |b| < 4 then None
      else
        var n := Unsigned(b);
        if n > max || |b| < 4 + n + Pad(n) then None
        else Some((Str(b[4..4 + n]), b[4 + n + Pad(n)..]))
    case Array(max, elem) =>
      if |b| < 4 || Unsigned(b) > max then None
      else
        var r := DecodeAll(elem, Unsigned(b), b[4..]);
        if r.None? then None else Some((List(r.value.0), r.value.1))
    case Then(x, y) =>
      var r := Decode(x, b);
      if r.None? then None
      else
        var s := Decode(y, r.value.1);
        if s.None? then None else Some((Both(r.value.0, s.value.0), s.value.1))
    case _ =>
      if |b| < 4 then None else Some((Number(Meaning(f, Unsigned(b))), b[4..]))
  }

  function DecodeAll(f: Layout, n: nat, b: seq<byte>): Option<(seq<Value>, seq<byte>)>
    decreases f, 1 + n
  {
    if n == 0 then Some(([], b))
    else
      var r := Decode(f, b);
      if r.None? then None
      else
        var s := DecodeAll(f, n - 1, r.value.1);
        if s.None? then None else Some(([r.value.0] + s.value.0, s.value.1))
  }

  // ---- what one side writes the other reads ----

  lemma {:induction false} RoundTrip(f: Layout, v: Value, rest: seq<byte>)
    requires Fits(f, v)
    ensures Decode(f, Encode(f, v) + rest) == Some((v, rest))
    decreases f, 0
  {
    match f {
      case Text(max) => RoundTripText(max, v.s, rest);
      case Array(max, elem) =>
        RoundTripAll(elem, v.items, rest);
        ArrayReads(max, elem, v.items, EncodeAll(elem, v.items), rest);
      case Then(x, y) =>
        var ex, ey := Encode(x, v.first), Encode(y, v.second);
        RoundTrip(x, v.first, ey + rest);
        RoundTrip(y, v.second, rest);
        assert ex + (ey + rest) == ex + ey + rest;
      case _ => RoundTripWord(f, v.n, rest);
    }
  }

  lemma ArrayReads(max: nat, elem: Layout, vs: seq<Value>, body: seq<byte>, rest: seq<byte>)
    requires |vs| <= max && |vs| < WORD && DecodeAll(elem, |vs|, body + rest) == Some((vs, rest))
    ensures Decode(Array(max, elem), Word(|vs|) + body + rest) == Some((List(vs), rest))
  {
    assert Word(|vs|) + body + rest == Word(|vs|) + (body + rest);
    WordThen(|vs|, body + rest);
  }

  lemma WordThen(n: nat, rest: seq<byte>)
    requires n < WORD
    ensures var b := Word(n) + rest; Unsigned(b) == n && b[4..] == rest
  {
    WordReads(n, rest);
  }

  lemma RoundTripWord(f: Layout, n: int, rest: seq<byte>)
    requires InRange(f, n)
    ensures Decode(f, Word(n) + rest) == Some((Number(n), rest))
  {
    WordReads(n, rest);
    MeaningOfWord(f, n);
    assert (Word(n) + rest)[4..] == rest;
  }

  lemma Sliced(a: seq<byte>, b: seq<byte>, c: seq<byte>, d: seq<byte>)
    ensures var t := a + (b + c) + d;
            t[|a|..|a| + |b|] == b && t[|a| + |b| + |c|..] == d && |t| == |a| + |b| + |c| + |d|
  {
  }

  lemma RoundTripText(max: nat, s: seq<byte>, rest: seq<byte>)
    requires |s| <= max && |s| < WORD
    ensures Decode(Text(max), Encode(Text(max), Str(s)) + rest) == Some((Str(s), rest))
  {
    PaddedText(max, s, Zeros(Pad(|s|)), rest);
  }

  // whatever fills a string up to a multiple of four is skipped
  lemma PaddingIsSkipped(max: nat, s: seq<byte>, pad: seq<byte>, rest: seq<byte>)
    requires |s| <= max && |s| < WORD && |pad| == (4 - |s| % 4) % 4
    ensures Decode(Text(max), Word(|s|) + (s + pad) + rest) == Some((Str(s), rest))
  {
    PaddedText(max, s, pad, rest);
  }

  lemma PaddedText(max: nat, s: seq<byte>, pad: seq<byte>, rest: seq<byte>)
    requires |s| <= max && |s| < WORD && |pad| == Pad(|s|)
    ensures Decode(Text(max), Word(|s|) + (s + pad) + rest) == Some((Str(s), rest))
  {
    Sliced(Word(|s|), s, pad, rest);
    assert Word(|s|) + (s + pad) + rest == Word(|s|) + (s + pad + rest);
    WordThen(|s|, s + pad + rest);
  }

  lemma {:induction false} RoundTripAll(f: Layout, vs: seq<Value>, rest: seq<byte>)
    requires forall i :: 0 <= i < |vs| ==> Fits(f, vs[i])
    ensures DecodeAll(f, |vs|, EncodeAll(f, vs) + rest) == Some((vs, rest))
    decreases f, 1 + |vs|
  {
    if vs == [] {
      assert [] + rest == rest;
    } else {
      assert EncodeAll(f, vs) + rest == Encode(f, vs[0]) + (EncodeAll(f, vs[1..]) + rest);
      RoundTrip(f, vs[0], EncodeAll(f, vs[1..]) + rest);
      RoundTripAll(f, vs[1..], rest);
      assert vs == [vs[0]] + vs[1..];
    }
  }

  // ---- what is accepted ----

  lemma MeaningInRange(f: Layout, u: int)
    requires (f.UInt? || f.SInt? || f.Enumeration? || f.Short? || f.UShort? || f.ULong?) && 0 <= u < WORD
    ensures InRange(f, Meaning(f, u))
  {
  }

  // whatever the bytes, an accepted value is within the limits of its layout, and what is left is the end of the bytes
  lemma {:induction false} AcceptedFits(f: Layout, b: seq<byte>)
    ensures var r := Decode(f, b);
            r.Some? ==> Fits(f, r.value.0) && |r.value.1| <= |b| && r.value.1 == b[|b| - |r.value.1|..]
    decreases f, 0
  {
    match f {
      case Text(_) =>
      case Array(max, elem) =>
        if |b| >= 4 && Unsigned(b) <= max { AcceptedAllFit(elem, Unsigned(b), b[4..]); }
      case Then(x, y) =>
        AcceptedFits(x, b);
        var r := Decode(x, b);
        if r.Some? { AcceptedFits(y, r.value.1); }
      case _ =>
        if |b| >= 4 { MeaningInRange(f, Unsigned(b)); }
    }
  }

  lemma {:induction false} AcceptedAllFit(f: Layout, n: nat, b: seq<byte>)
    ensures var r := DecodeAll(f, n, b);
            r.Some? ==>
              && |r.value.0| == n && (forall i :: 0 <= i < n ==> Fits(f, r.value.0[i]))
              && |r.value.1| <= |b| && r.value.1 == b[|b| - |r.value.1|..]
    decreases f, 1 + n
  {
    if n > 0 {
      AcceptedFits(f, b);
      var r := Decode(f, b);
      if r.Some? { AcceptedAllFit(f, n - 1, r.value.1); }
    }
  }

  // xdr_sizeof: the sum of the parts
  ghost function Size(f: Layout, v: Value): nat
    requires Fits(f, v)
    decreases f, 0
  {
    match f
    case Text(_) => 4 + |v.s| + Pad(|v.s|)
    case Array(_, elem) => 4 + SizeAll(elem, v.items)
    case Then(a, b) => Size(a, v.first) + Size(b, v.second)
    case _ => 4
  }

  ghost function SizeAll(f: Layout, vs: seq<Value>): nat
    requires forall i :: 0 <= i < |vs| ==> Fits(f, vs[i])
    decreases f, 1 + |vs|
  {
    if vs == [] then 0 else Size(f, vs[0]) + SizeAll(f, vs[1..])
  }

  lemma Fours(m: nat, n: nat)
    requires m % 4 == 0 && n % 4 == 0
    ensures (m + n) % 4 == 0
  {
  }

  lemma PaddedSize(n: nat)
    ensures (4 + n + Pad(n)) % 4 == 0
  {
  }

  lemma {:induction false} EncodedSize(f: Layout, v: Value)
    requires Fits(f, v)
    ensures |Encode(f, v)| == Size(f, v) && Size(f, v) % 4 == 0
    decreases f, 0
  {
    match f {
      case Text(_) => PaddedSize(|v.s|);
      case Array(_, elem) =>
        EncodedSizeAll(elem, v.items);
        Fours(4, SizeAll(elem, v.items));
      case Then(a, b) =>
        EncodedSize(a, v.first);
        EncodedSize(b, v.second);
        Fours(Size(a, v.first), Size(b, v.second));
      case _ =>
    }
  }

  lemma {:induction false} EncodedSizeAll(f: Layout, vs: seq<Value>)
    requires forall i :: 0 <= i < |vs| ==> Fits(f, vs[i])
    ensures |EncodeAll(f, vs)| == SizeAll(f, vs) && SizeAll(f, vs) % 4 == 0
    decreases f, 1 + |vs|
  {
    if vs != [] {
      EncodedSize(f, vs[0]);
      EncodedSizeAll(f, vs[1..]);
      Fours(Size(f, vs[0]), SizeAll(f, vs[1..]));
    }
  }
}
