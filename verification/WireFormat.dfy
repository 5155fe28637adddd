// The bytes of every message, written out: which fields go out in which order, and what each of them looks like.
module WireFormat {
  import opened Basics
  import opened Xdr
  import opened Messages

  // a number: four bytes, the most significant one first; two's complement when it is negative
  function Number4(n: int): seq<byte> { [n / 0x100_0000 % 0x100, n / 0x1_0000 % 0x100, n / 0x100 % 0x100, n % 0x100] }

  // a string: its length, its bytes, and zeros up to a multiple of four
  function Chars(s: Name): seq<byte> { Number4(|s|) + (s + seq((4 - |s| % 4) % 4, _ => 0)) }

  // arrays: the number of elements and then each of them
  function StringList(s: seq<Name>): seq<byte> { Number4(|s|) + EachString(s) }
  function EachString(s: seq<Name>): seq<byte> { if s == [] then [] else Chars(s[0]) + EachString(s[1..]) }

  function NumberList(s: seq<int>): seq<byte> { Number4(|s|) + EachNumber(s) }
  function EachNumber(s: seq<int>): seq<byte> { if s == [] then [] else Number4(s[0]) + EachNumber(s[1..]) }

  function AddressList(s: seq<Saddr>): seq<byte> { Number4(|s|) + EachAddress(s) }
  function EachAddress(s: seq<Saddr>): seq<byte> { if s == [] then [] else Address(s[0]) + EachAddress(s[1..]) }

  function Address(a: Saddr): seq<byte> {
    Number4(a.family) + (Number4(a.port) + (Number4(a.addr)
        + (Chars(a.group) + (Number4(a.cause) + Number4(a.groupPort)))))
  }

  lemma ByteByByte(n: int, a: int, b: int, c: int)
    requires a == n / 0x100 && b == a / 0x100 && c == b / 0x100
    ensures n / 0x1_0000 == b && n / 0x100_0000 == c
  {
  }

  lemma WordIsNumber4(n: int)
    ensures Word(n) == Number4(n)
  {
    var u := n % WORD;
    var k := n / WORD;
    ByteByByte(n, n / 0x100, n / 0x100 / 0x100, n / 0x100 / 0x100 / 0x100);
    assert n == WORD * k + u;
    assert n / 0x100 == 0x100_0000 * k + u / 0x100;
    assert n / 0x100 / 0x100 == 0x1_0000 * k + u / 0x100 / 0x100;
    assert n / 0x100 / 0x100 / 0x100 == 0x100 * k + u / 0x100 / 0x100 / 0x100;
  }

  lemma {:induction false} ZerosAre(n: nat)
    ensures Zeros(n) == seq(n, _ => 0)
  {
    if n > 0 {
      ZerosAre(n - 1);
      assert Zeros(n) == [0] + Zeros(n - 1);
    }
  }

  lemma TextIsChars(max: nat, s: Name)
    requires Fits(Text(max), Str(s))
    ensures Encode(Text(max), Str(s)) == Chars(s)
  {
    WordIsNumber4(|s|);
    ZerosAre(Pad(|s|));
  }

  lemma {:induction false} StringsAre(max: nat, vs: seq<Value>, s: seq<Name>)
    requires |vs| == |s| && forall i :: 0 <= i < |vs| ==> vs[i] == Str(s[i]) && Fits(Text(max), vs[i])
    ensures EncodeAll(Text(max), vs) == EachString(s)
  {
    if vs != [] {
      TextIsChars(max, s[0]);
      StringsAre(max, vs[1..], s[1..]);
    }
  }

  lemma {:induction false} NumbersAre(vs: seq<Value>, s: seq<int>)
    requires |vs| == |s| && forall i :: 0 <= i < |vs| ==> vs[i] == Number(s[i]) && Fits(UInt, vs[i])
    ensures EncodeAll(UInt, vs) == EachNumber(s)
  {
    if vs != [] {
      WordIsNumber4(s[0]);
      NumbersAre(vs[1..], s[1..]);
    }
  }

  lemma {:induction false} AddressesAre(vs: seq<Value>, s: seq<Saddr>)
    requires |vs| == |s| && forall i :: 0 <= i < |vs| ==> vs[i] == SaddrOut(s[i]) && IsSaddr(s[i]) && Fits(SADDR, vs[i])
    ensures EncodeAll(SADDR, vs) == EachAddress(s)
  {
    if vs != [] {
      AddressIs(s[0]);
      AddressesAre(vs[1..], s[1..]);
    }
  }

  // ---- one field, and what is behind it ----

  // the bytes of a value that fits the layout
  ghost function BytesOf(f: Layout, v: Value): Option<seq<byte>> { if Fits(f, v) then Some(Encode(f, v)) else None }

  ghost predicate IsNumeric(f: Layout) { !f.Text? && !f.Array? && !f.Then? }

  lemma Plainly(f: Layout, n: int)
    requires IsNumeric(f) && InRange(f, n)
    ensures BytesOf(f, Number(n)) == Some(Number4(n))
  {
    WordIsNumber4(n);
  }

  lemma Textually(max: nat, s: Name)
    requires |s| <= max < WORD
    ensures BytesOf(Text(max), Str(s)) == Some(Chars(s))
  {
    TextIsChars(max, s);
  }

  lemma NumberThen(f: Layout, n: int, g: Layout, w: Value, rest: seq<byte>)
    requires IsNumeric(f) && InRange(f, n) && BytesOf(g, w) == Some(rest)
    ensures BytesOf(Then(f, g), Both(Number(n), w)) == Some(Number4(n) + rest)
  {
    Plainly(f, n);
    Then2(f, Number(n), g, w, Number4(n), rest);
  }

  lemma TextThen(max: nat, s: Name, g: Layout, w: Value, rest: seq<byte>)
    requires |s| <= max < WORD && BytesOf(g, w) == Some(rest)
    ensures BytesOf(Then(Text(max), g), Both(Str(s), w)) == Some(Chars(s) + rest)
  {
    Textually(max, s);
    Then2(Text(max), Str(s), g, w, Chars(s), rest);
  }

  lemma NamesAre(count: nat, max: nat, s: seq<Name>)
    requires AreNames(s, count, max) && count < WORD && max < WORD
    ensures BytesOf(Array(count, Text(max)), NamesOut(s)) == Some(StringList(s))
  {
    NamesFit(s, count, max);
    WordIsNumber4(|s|);
    StringsAre(max, NamesOut(s).items, s);
  }

  lemma IdsAre(s: seq<int>)
    requires AreIds(s)
    ensures BytesOf(Array(255, UInt), IdsOut(s)) == Some(NumberList(s))
  {
    IdsFit(s);
    WordIsNumber4(|s|);
    NumbersAre(IdsOut(s).items, s);
  }

  lemma SaddrsAre(s: seq<Saddr>)
    requires AreSaddrs(s)
    ensures BytesOf(Array(1000, SADDR), SaddrsOut(s)) == Some(AddressList(s))
  {
    SaddrsFit(s);
    WordIsNumber4(|s|);
    AddressesAre(SaddrsOut(s).items, s);
  }

  lemma Then2(f: Layout, v: Value, g: Layout, w: Value, first: seq<byte>, rest: seq<byte>)
    requires BytesOf(f, v) == Some(first) && BytesOf(g, w) == Some(rest)
    ensures BytesOf(Then(f, g), Both(v, w)) == Some(first + rest)
  {
  }

  lemma NumbersThen(f1: Layout, x: int, f2: Layout, y: int, g: Layout, w: Value, rest: seq<byte>)
    requires IsNumeric(f1) && InRange(f1, x) && IsNumeric(f2) && InRange(f2, y) && BytesOf(g, w) == Some(rest)
    ensures BytesOf(Then(f1, Then(f2, g)), Both(Number(x), Both(Number(y), w)))
            == Some(Number4(x) + (Number4(y) + rest))
  {
    NumberThen(f2, y, g, w, rest);
    NumberThen(f1, x, Then(f2, g), Both(Number(y), w), Number4(y) + rest);
  }

  lemma AddressIs(a: Saddr)
    requires IsSaddr(a)
    ensures BytesOf(SADDR, SaddrOut(a)) == Some(Address(a))
  {
    Plainly(UInt, a.groupPort);
    NumberThen(UInt, a.cause, UInt, Number(a.groupPort), Number4(a.groupPort));
    var t := Number4(a.cause) + Number4(a.groupPort);
    var v := Both(Number(a.cause), Number(a.groupPort));
    TextThen(25, a.group, Then(UInt, UInt), v, t);
    NumberThen(ULong, a.addr, Then(Text(25), Then(UInt, UInt)), Both(Str(a.group), v), Chars(a.group) + t);
    var w := Both(Number(a.addr), Both(Str(a.group), v));
    var u := Number4(a.addr) + (Chars(a.group) + t);
    NumberThen(UShort, a.port, Then(ULong, Then(Text(25), Then(UInt, UInt))), w, u);
    NumberThen(Short, a.family, Then(UShort, Then(ULong, Then(Text(25), Then(UInt, UInt)))), Both(Number(a.port), w),
               Number4(a.port) + u);
  }

  // the discriminant goes out twice in front of the body
  lemma Framed(m: Message, f: Layout, v: Value, body: seq<byte>)
    requires LayoutOf(Id(m)) == Some(f) && Body(m) == v && BytesOf(f, v) == Some(body)
    ensures WellFormed(m) ==> EncodeMessage(m) == Number4(Id(m)) + (Number4(Id(m)) + body)
  {
    WordIsNumber4(Id(m));
  }

  lemma NotifyRspLayout()
    ensures LayoutOf(41) == Some(Then(Text(25), Then(UInt, Then(UInt, Array(255, UInt)))))
  {
  }

  lemma TaskReqLayout()
    ensures LayoutOf(42) == Some(Then(Array(255, Text(150)), Then(UInt, Then(UInt, Then(Text(25), Then(Text(150),
                            Then(Array(255, UInt), Then(SInt, SInt))))))))
  {
  }

  lemma TaskRspLayout()
    ensures LayoutOf(43) == Some(Then(Text(25), Then(Text(25), Then(UInt, Then(Enumeration, Then(UInt,
                            Then(Array(255, UInt), Array(255, Text(150)))))))))
  {
  }

  lemma UpdateLayout()
    ensures LayoutOf(44) == Some(Then(UInt, Then(UInt, Then(UInt, Then(Text(25), Then(Array(255, UInt), SInt))))))
  {
  }

  lemma CheckpointLayout()
    ensures LayoutOf(45) == Some(Then(UInt, Then(UInt, Array(1000, SADDR))))
  {
  }

  // ---- the thirteen messages ----

  lemma JoinReqBytes(groups: seq<Name>, capability: int)
    requires WellFormed(JoinReq(groups, capability))
    ensures EncodeMessage(JoinReq(groups, capability)) ==
            Number4(32) + (Number4(32) + (Number4(|groups|) + (StringList(groups) + Number4(capability))))
  {
    NamesAre(1000, 25, groups);
    Plainly(UInt, capability);
    Then2(Array(1000, Text(25)), NamesOut(groups), UInt, Number(capability), StringList(groups), Number4(capability));
    NumberThen(UInt, |groups|, Then(Array(1000, Text(25)), UInt), Both(NamesOut(groups), Number(capability)),
               StringList(groups) + Number4(capability));
    Framed(JoinReq(groups, capability), Then(UInt, Then(Array(1000, Text(25)), UInt)),
           Both(Number(|groups|), Both(NamesOut(groups), Number(capability))),
           Number4(|groups|) + (StringList(groups) + Number4(capability)));
  }

  lemma JoinRspBytes(ips: seq<Saddr>)
    requires WellFormed(JoinRsp(ips))
    ensures EncodeMessage(JoinRsp(ips)) == Number4(33) + (Number4(33) + (Number4(|ips|) + AddressList(ips)))
  {
    SaddrsAre(ips);
    NumberThen(UInt, |ips|, Array(1000, SADDR), SaddrsOut(ips), AddressList(ips));
    Framed(JoinRsp(ips), Then(UInt, Array(1000, SADDR)), Both(Number(|ips|), SaddrsOut(ips)),
           Number4(|ips|) + AddressList(ips));
  }

  lemma EchoReqBytes(group: Name, ids: seq<int>)
    requires WellFormed(EchoReq(group, ids))
    ensures EncodeMessage(EchoReq(group, ids)) ==
            Number4(36) + (Number4(36) + (Chars(group) + (Number4(|ids|) + NumberList(ids))))
  {
    IdsAre(ids);
    NumberThen(UInt, |ids|, Array(255, UInt), IdsOut(ids), NumberList(ids));
    TextThen(25, group, Then(UInt, Array(255, UInt)), Both(Number(|ids|), IdsOut(ids)),
        Number4(|ids|) + NumberList(ids));
    Framed(EchoReq(group, ids), Then(Text(25), Then(UInt, Array(255, UInt))),
           Both(Str(group), Both(Number(|ids|), IdsOut(ids))), Chars(group) + (Number4(|ids|) + NumberList(ids)));
  }

  lemma EchoRspBytes(status: int, group: Name)
    requires WellFormed(EchoRsp(status, group))
    ensures EncodeMessage(EchoRsp(status, group)) == Number4(37) + (Number4(37) + (Number4(status) + Chars(group)))
  {
    Textually(25, group);
    NumberThen(UInt, status, Text(25), Str(group), Chars(group));
    Framed(EchoRsp(status, group), Then(UInt, Text(25)), Both(Number(status), Str(group)),
        Number4(status) + Chars(group));
  }

  lemma LeaveReqBytes(groups: seq<Name>)
    requires WellFormed(LeaveReq(groups))
    ensures EncodeMessage(LeaveReq(groups)) == Number4(38) + (Number4(38) + (Number4(|groups|) + StringList(groups)))
  {
    NamesAre(1000, 25, groups);
    NumberThen(UInt, |groups|, Array(1000, Text(25)), NamesOut(groups), StringList(groups));
    Framed(LeaveReq(groups), Then(UInt, Array(1000, Text(25))), Both(Number(|groups|), NamesOut(groups)),
           Number4(|groups|) + StringList(groups));
  }

  lemma LeaveRspBytes(groups: seq<Name>, cause: int)
    requires WellFormed(LeaveRsp(groups, cause))
    ensures EncodeMessage(LeaveRsp(groups, cause)) ==
            Number4(39) + (Number4(39) + (Number4(|groups|) + (StringList(groups) + Number4(cause))))
  {
    NamesAre(1000, 25, groups);
    Plainly(UInt, cause);
    Then2(Array(1000, Text(25)), NamesOut(groups), UInt, Number(cause), StringList(groups), Number4(cause));
    NumberThen(UInt, |groups|, Then(Array(1000, Text(25)), UInt), Both(NamesOut(groups), Number(cause)),
               StringList(groups) + Number4(cause));
    Framed(LeaveRsp(groups, cause), Then(UInt, Then(Array(1000, Text(25)), UInt)),
           Both(Number(|groups|), Both(NamesOut(groups), Number(cause))),
           Number4(|groups|) + (StringList(groups) + Number4(cause)));
  }

  lemma ModeratorNotifyReqBytes(moderator: int, port: int, clients: int, group: Name)
    requires WellFormed(ModeratorNotifyReq(moderator, port, clients, group))
    ensures EncodeMessage(ModeratorNotifyReq(moderator, port, clients, group)) ==
            Number4(40) + (Number4(40) + (Number4(moderator) + (Number4(port) + (Number4(clients) + Chars(group)))))
  {
    Textually(25, group);
    NumberThen(SInt, clients, Text(25), Str(group), Chars(group));
    var v := Both(Number(clients), Str(group));
    NumberThen(UInt, port, Then(SInt, Text(25)), v, Number4(clients) + Chars(group));
    NumberThen(UInt, moderator, Then(UInt, Then(SInt, Text(25))), Both(Number(port), v),
               Number4(port) + (Number4(clients) + Chars(group)));
    Framed(ModeratorNotifyReq(moderator, port, clients, group), Then(UInt, Then(UInt, Then(SInt, Text(25)))),
           Both(Number(moderator), Both(Number(port), v)),
           Number4(moderator) + (Number4(port) + (Number4(clients) + Chars(group))));
  }

  lemma ModeratorNotifyRspBytes(group: Name, moderator: int, ids: seq<int>)
    requires WellFormed(ModeratorNotifyRsp(group, moderator, ids))
    ensures EncodeMessage(ModeratorNotifyRsp(group, moderator, ids)) ==
            Number4(41) + (Number4(41) + (Chars(group) + (Number4(moderator) + (Number4(|ids|) + NumberList(ids)))))
  {
    IdsAre(ids);
    NumberThen(UInt, |ids|, Array(255, UInt), IdsOut(ids), NumberList(ids));
    var f, v := Then(UInt, Array(255, UInt)), Both(Number(|ids|), IdsOut(ids));
    NumberThen(UInt, moderator, f, v, Number4(|ids|) + NumberList(ids));
    TextThen(25, group, Then(UInt, f), Both(Number(moderator), v),
        Number4(moderator) + (Number4(|ids|) + NumberList(ids)));
    NotifyRspLayout();
    Framed(ModeratorNotifyRsp(group, moderator, ids), Then(Text(25), Then(UInt, f)),
           Both(Str(group), Both(Number(moderator), v)),
           Chars(group) + (Number4(moderator) + (Number4(|ids|) + NumberList(ids))));
  }

  // the part of a task request behind the group
  lemma TaskDetails(folder: Name, ids: seq<int>, taskType: int, reassigned: int)
    requires IsText(folder, 150) && AreIds(ids) && IsInt(taskType) && IsInt(reassigned)
    ensures var f := Then(Text(150), Then(Array(255, UInt), Then(SInt, SInt)));
            var v := Both(Str(folder), Both(IdsOut(ids), Both(Number(taskType), Number(reassigned))));
            BytesOf(f, v) == Some(Chars(folder) + (NumberList(ids) + (Number4(taskType) + Number4(reassigned))))
  {
    Plainly(SInt, reassigned);
    NumberThen(SInt, taskType, SInt, Number(reassigned), Number4(reassigned));
    var f, v, t := Then(SInt, SInt), Both(Number(taskType), Number(reassigned)),
        Number4(taskType) + Number4(reassigned);
    IdsAre(ids);
    Then2(Array(255, UInt), IdsOut(ids), f, v, NumberList(ids), t);
    TextThen(150, folder, Then(Array(255, UInt), f), Both(IdsOut(ids), v), NumberList(ids) + t);
  }

  // and the part before the files' names
  lemma TaskHead(count: int, taskId: int, group: Name, f: Layout, v: Value, rest: seq<byte>)
    requires IsUInt(count) && IsUInt(taskId) && IsText(group, 25) && BytesOf(f, v) == Some(rest)
    ensures var g, w := Then(UInt, Then(UInt, Then(Text(25), f))),
            Both(Number(count), Both(Number(taskId), Both(Str(group), v)));
            BytesOf(g, w) == Some(Number4(count) + (Number4(taskId) + (Chars(group) + rest)))
  {
    TextThen(25, group, f, v, rest);
    NumbersThen(UInt, count, UInt, taskId, Then(Text(25), f), Both(Str(group), v), Chars(group) + rest);
  }

  lemma PerformTaskReqBytes(files: seq<Name>, taskId: int, group: Name, folder: Name, ids: seq<int>, taskType: int,
      reassigned: int)
    requires WellFormed(PerformTaskReq(files, taskId, group, folder, ids, taskType, reassigned))
    ensures EncodeMessage(PerformTaskReq(files, taskId, group, folder, ids, taskType, reassigned)) ==
            Number4(42) + (Number4(42) + (StringList(files) + (Number4(|ids|) + (Number4(taskId) + (Chars(group)
            + (Chars(folder) + (NumberList(ids) + (Number4(taskType) + Number4(reassigned)))))))))
  {
    TaskDetails(folder, ids, taskType, reassigned);
    var f := Then(Text(150), Then(Array(255, UInt), Then(SInt, SInt)));
    var v := Both(Str(folder), Both(IdsOut(ids), Both(Number(taskType), Number(reassigned))));
    var t := Chars(folder) + (NumberList(ids) + (Number4(taskType) + Number4(reassigned)));
    TaskHead(|ids|, taskId, group, f, v, t);
    NamesAre(255, 150, files);
    var g, w := Then(UInt, Then(UInt, Then(Text(25), f))), Both(Number(|ids|),
        Both(Number(taskId), Both(Str(group), v)));
    var u := Number4(|ids|) + (Number4(taskId) + (Chars(group) + t));
    Then2(Array(255, Text(150)), NamesOut(files), g, w, StringList(files), u);
    TaskReqLayout();
    Framed(PerformTaskReq(files, taskId, group, folder, ids, taskType, reassigned), Then(Array(255, Text(150)), g),
           Both(NamesOut(files), w), StringList(files) + u);
  }

  // the part of a task response in front of the arrays
  lemma ResponseHead(group: Name, finalResp: Name, taskId: int, kind: int, f: Layout, v: Value, rest: seq<byte>)
    requires IsText(group, 25) && IsText(finalResp, 25) && IsUInt(taskId) && IsInt(kind) && BytesOf(f, v) == Some(rest)
    ensures var g := Then(Text(25), Then(Text(25), Then(UInt, Then(Enumeration, f))));
            var w := Both(Str(group), Both(Str(finalResp), Both(Number(taskId), Both(Number(kind), v))));
            BytesOf(g, w) == Some(Chars(group) + (Chars(finalResp) + (Number4(taskId) + (Number4(kind) + rest))))
  {
    NumbersThen(UInt, taskId, Enumeration, kind, f, v, rest);
    var g, w, u := Then(UInt, Then(Enumeration, f)), Both(Number(taskId), Both(Number(kind), v)),
        Number4(taskId) + (Number4(kind) + rest);
    TextThen(25, finalResp, g, w, u);
    TextThen(25, group, Then(Text(25), g), Both(Str(finalResp), w), Chars(finalResp) + u);
  }

  lemma ResponseArrays(ids: seq<int>, result: seq<Name>)
    requires AreIds(ids) && AreNames(result, 255, 150)
    ensures var f := Then(UInt, Then(Array(255, UInt), Array(255, Text(150))));
            var v := Both(Number(|ids|), Both(IdsOut(ids), NamesOut(result)));
            BytesOf(f, v) == Some(Number4(|ids|) + (NumberList(ids) + StringList(result)))
  {
    IdsAre(ids);
    NamesAre(255, 150, result);
    Then2(Array(255, UInt), IdsOut(ids), Array(255, Text(150)), NamesOut(result), NumberList(ids), StringList(result));
    NumberThen(UInt, |ids|, Then(Array(255, UInt), Array(255, Text(150))), Both(IdsOut(ids), NamesOut(result)),
               NumberList(ids) + StringList(result));
  }

  lemma TaskRspBytes(group: Name, finalResp: Name, taskId: int, kind: int, ids: seq<int>, result: seq<Name>)
    requires WellFormed(TaskRsp(group, finalResp, taskId, kind, ids, result))
    ensures EncodeMessage(TaskRsp(group, finalResp, taskId, kind, ids, result)) ==
            Number4(43) + (Number4(43) + (Chars(group) + (Chars(finalResp) + (Number4(taskId) + (Number4(kind)
            + (Number4(|ids|) + (NumberList(ids) + StringList(result))))))))
  {
    ResponseArrays(ids, result);
    var f := Then(UInt, Then(Array(255, UInt), Array(255, Text(150))));
    var v := Both(Number(|ids|), Both(IdsOut(ids), NamesOut(result)));
    var t := Number4(|ids|) + (NumberList(ids) + StringList(result));
    ResponseHead(group, finalResp, taskId, kind, f, v, t);
    TaskRspLayout();
    Framed(TaskRsp(group, finalResp, taskId, kind, ids, result),
           Then(Text(25), Then(Text(25), Then(UInt, Then(Enumeration, f)))),
           Both(Str(group), Both(Str(finalResp), Both(Number(taskId), Both(Number(kind), v)))),
           Chars(group) + (Chars(finalResp) + (Number4(taskId) + (Number4(kind) + t))));
  }

  // the part of an update behind the two numbers
  lemma UpdateTail(group: Name, ids: seq<int>, expected: int)
    requires IsText(group, 25) && AreIds(ids) && IsInt(expected)
    ensures var f := Then(UInt, Then(Text(25), Then(Array(255, UInt), SInt)));
            var v := Both(Number(|ids|), Both(Str(group), Both(IdsOut(ids), Number(expected))));
            BytesOf(f, v) == Some(Number4(|ids|) + (Chars(group) + (NumberList(ids) + Number4(expected))))
  {
    IdsAre(ids);
    Plainly(SInt, expected);
    Then2(Array(255, UInt), IdsOut(ids), SInt, Number(expected), NumberList(ids), Number4(expected));
    var f, v, t := Then(Array(255, UInt), SInt), Both(IdsOut(ids), Number(expected)),
        NumberList(ids) + Number4(expected);
    TextThen(25, group, f, v, t);
    NumberThen(UInt, |ids|, Then(Text(25), f), Both(Str(group), v), Chars(group) + t);
  }

  lemma ModeratorUpdateReqBytes(moderator: int, port: int, group: Name, ids: seq<int>, expected: int)
    requires WellFormed(ModeratorUpdateReq(moderator, port, group, ids, expected))
    ensures EncodeMessage(ModeratorUpdateReq(moderator, port, group, ids, expected)) ==
            Number4(44) + (Number4(44) + (Number4(moderator) + (Number4(port) + (Number4(|ids|) + (Chars(group)
            + (NumberList(ids) + Number4(expected)))))))
  {
    UpdateTail(group, ids, expected);
    var f := Then(UInt, Then(Text(25), Then(Array(255, UInt), SInt)));
    var v := Both(Number(|ids|), Both(Str(group), Both(IdsOut(ids), Number(expected))));
    var t := Number4(|ids|) + (Chars(group) + (NumberList(ids) + Number4(expected)));
    NumbersThen(UInt, moderator, UInt, port, f, v, t);
    UpdateLayout();
    Framed(ModeratorUpdateReq(moderator, port, group, ids, expected), Then(UInt, Then(UInt, f)),
           Both(Number(moderator), Both(Number(port), v)), Number4(moderator) + (Number4(port) + t));
  }

  lemma CheckpointReqBytes(kind: int, capability: int, ips: seq<Saddr>)
    requires WellFormed(CheckpointReq(kind, capability, ips))
    ensures EncodeMessage(CheckpointReq(kind, capability, ips)) ==
            Number4(45) + (Number4(45) + (Number4(kind) + (Number4(capability) + AddressList(ips))))
  {
    SaddrsAre(ips);
    NumbersThen(UInt, kind, UInt, capability, Array(1000, SADDR), SaddrsOut(ips), AddressList(ips));
    CheckpointLayout();
    Framed(CheckpointReq(kind, capability, ips), Then(UInt, Then(UInt, Array(1000, SADDR))),
           Both(Number(kind), Both(Number(capability), SaddrsOut(ips))),
               Number4(kind) + (Number4(capability) + AddressList(ips)));
  }

  lemma NewServerNotifyBytes(server: int)
    requires WellFormed(NewServerNotify(server))
    ensures EncodeMessage(NewServerNotify(server)) == Number4(46) + (Number4(46) + Number4(server))
  {
    Plainly(UInt, server);
    Framed(NewServerNotify(server), UInt, Number(server), Number4(server));
  }
}
