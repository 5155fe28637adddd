// The thirteen messages of the protocol and their layouts.
module Messages {
  import opened Basics
  import opened Xdr

  const MAXMSGSIZE := 100000
  const MAX_GROUPS := 1000
  const MAX_CLIENT_IN_GROUP := 255
  const MAX_GNAME_LEN := 25
  const MAX_NAME_LEN := 150

  type Name = seq<byte>

  datatype Saddr = Saddr(family: int, port: int, addr: int, group: Name, cause: int, groupPort: int)

  datatype Message =
    | JoinReq(groups: seq<Name>, capability: int)
    | JoinRsp(groupIps: seq<Saddr>)
    | EchoReq(group: Name, clientIds: seq<int>)
    | EchoRsp(status: int, group: Name)
    | LeaveReq(groups: seq<Name>)
    | LeaveRsp(groups: seq<Name>, cause: int)
    | ModeratorNotifyReq(moderator: int, port: int, clients: int, group: Name)
    | ModeratorNotifyRsp(group: Name, moderator: int, clientIds: seq<int>)
    | PerformTaskReq(files: seq<Name>, taskId: int, group: Name, folder: Name, clientIds: seq<int>, taskType: int,
        reassigned: int)
    | TaskRsp(group: Name, finalResp: Name, taskId: int, kind: int, clientIds: seq<int>, result: seq<Name>)
    | ModeratorUpdateReq(moderator: int, port: int, group: Name, clientIds: seq<int>, expected: int)
    | CheckpointReq(kind: int, capability: int, groupIps: seq<Saddr>)
    | NewServerNotify(server: int)

  // the discriminants
  function Id(m: Message): int {
    match m
    case JoinReq(_, _) => 32
    case JoinRsp(_) => 33
    case EchoReq(_, _) => 36
    case EchoRsp(_, _) => 37
    case LeaveReq(_) => 38
    case LeaveRsp(_, _) => 39
    case ModeratorNotifyReq(_, _, _, _) => 40
    case ModeratorNotifyRsp(_, _, _) => 41
    case PerformTaskReq(_, _, _, _, _, _, _) => 42
    case TaskRsp(_, _, _, _, _, _) => 43
    case ModeratorUpdateReq(_, _, _, _, _) => 44
    case CheckpointReq(_, _, _) => 45
    case NewServerNotify(_) => 46
  }

  const GNAME := Text(MAX_GNAME_LEN)
  const FNAME := Text(MAX_NAME_LEN)
  const SADDR := Then(Short, Then(UShort, Then(ULong, Then(GNAME, Then(UInt, UInt)))))

  // the layout behind a discriminant; a repeated count stands where the program writes it
  function LayoutOf(id: int): Option<Layout> {
    match id
    case 32 => Some(Then(UInt, Then(Array(MAX_GROUPS, GNAME), UInt)))
    case 33 => Some(Then(UInt, Array(MAX_GROUPS, SADDR)))
    case 36 => Some(Then(GNAME, Then(UInt, Array(MAX_CLIENT_IN_GROUP, UInt))))
    case 37 => Some(Then(UInt, GNAME))
    case 38 => Some(Then(UInt, Array(MAX_GROUPS, GNAME)))
    case 39 => Some(Then(UInt, Then(Array(MAX_GROUPS, GNAME), UInt)))
    case 40 => Some(Then(UInt, Then(UInt, Then(SInt, GNAME))))
    case 41 => Some(Then(GNAME, Then(UInt, Then(UInt, Array(MAX_CLIENT_IN_GROUP, UInt)))))
    case 42 => Some(Then(Array(MAX_CLIENT_IN_GROUP, FNAME), Then(UInt, Then(UInt, Then(GNAME, Then(FNAME,
                 Then(Array(MAX_CLIENT_IN_GROUP, UInt), Then(SInt, SInt))))))))
    case 43 => Some(Then(GNAME, Then(GNAME, Then(UInt, Then(Enumeration, Then(UInt,
                 Then(Array(MAX_CLIENT_IN_GROUP, UInt), Array(MAX_CLIENT_IN_GROUP, FNAME))))))))
    case 44 => Some(Then(UInt, Then(UInt, Then(UInt, Then(GNAME, Then(Array(MAX_CLIENT_IN_GROUP, UInt), SInt))))))
    case 45 => Some(Then(UInt, Then(UInt, Array(MAX_GROUPS, SADDR))))
    case 46 => Some(UInt)
    case _ => None
  }

  // ---- lists ----

  function NamesOut(s: seq<Name>): Value { List(seq(|s|, i requires 0 <= i < |s| => Str(s[i]))) }
  function IdsOut(s: seq<int>): Value { List(seq(|s|, i requires 0 <= i < |s| => Number(s[i]))) }
  function SaddrsOut(s: seq<Saddr>): Value { List(seq(|s|, i requires 0 <= i < |s| => SaddrOut(s[i]))) }

  function SaddrOut(a: Saddr): Value {
    Both(Number(a.family), Both(Number(a.port), Both(Number(a.addr),
        Both(Str(a.group), Both(Number(a.cause), Number(a.groupPort))))))
  }

  // readers for values of any shape
  function Num(v: Value): int { if v.Number? then v.n else 0 }
  function Txt(v: Value): Name { if v.Str? then v.s else [] }
  function Items(v: Value): seq<Value> { if v.List? then v.items else [] }
  function Fst(v: Value): Value { if v.Both? then v.first else v }
  function Snd(v: Value): Value { if v.Both? then v.second else v }
  function NamesIn(v: Value): seq<Name> { var t := Items(v); seq(|t|, i requires 0 <= i < |t| => Txt(t[i])) }
  function IdsIn(v: Value): seq<int> { var t := Items(v); seq(|t|, i requires 0 <= i < |t| => Num(t[i])) }
  function SaddrsIn(v: Value): seq<Saddr> { var t := Items(v); seq(|t|, i requires 0 <= i < |t| => SaddrIn(t[i])) }

  function SaddrIn(v: Value): Saddr {
    var w := Snd(v); var x := Snd(w); var y := Snd(x); var z := Snd(y);
    Saddr(Num(Fst(v)), Num(Fst(w)), Num(Fst(x)), Txt(Fst(y)), Num(Fst(z)), Num(Snd(z)))
  }

  lemma ListsReadBack()
    ensures forall s {:trigger NamesOut(s)} :: NamesIn(NamesOut(s)) == s
    ensures forall s {:trigger IdsOut(s)} :: IdsIn(IdsOut(s)) == s
    ensures forall s {:trigger SaddrsOut(s)} :: SaddrsIn(SaddrsOut(s)) == s
  {
    forall s: seq<Saddr> ensures SaddrsIn(SaddrsOut(s)) == s {
      forall i | 0 <= i < |s| ensures SaddrsIn(SaddrsOut(s))[i] == s[i] { assert SaddrIn(SaddrOut(s[i])) == s[i]; }
    }
  }

  // ---- the body of a message ----

  function Count(n: int, v: Value): Value { Both(Number(n), v) }

  // nine messages repeat the length of a list in a word of its own: the body with this number there
  function BodyWith(m: Message, n: int): Value {
    match m
    case JoinReq(groups, capability) => Count(n, Both(NamesOut(groups), Number(capability)))
    case JoinRsp(ips) => Count(n, SaddrsOut(ips))
    case EchoReq(group, ids) => Both(Str(group), Count(n, IdsOut(ids)))
    case EchoRsp(status, group) => Both(Number(status), Str(group))
    case LeaveReq(groups) => Count(n, NamesOut(groups))
    case LeaveRsp(groups, cause) => Count(n, Both(NamesOut(groups), Number(cause)))
    case ModeratorNotifyReq(moderator, port, clients, group) =>
        Both(Number(moderator), Both(Number(port), Both(Number(clients), Str(group))))
    case ModeratorNotifyRsp(group, moderator, ids) => Both(Str(group), Both(Number(moderator), Count(n, IdsOut(ids))))
    case PerformTaskReq(files, taskId, group, folder, ids, taskType, reassigned) =>
      Both(NamesOut(files), Count(n, Both(Number(taskId), Both(Str(group),
          Both(Str(folder), Both(IdsOut(ids), Both(Number(taskType), Number(reassigned))))))))
    case TaskRsp(group, finalResp, taskId, kind, ids, result) =>
      Both(Str(group), Both(Str(finalResp), Both(Number(taskId),
          Both(Number(kind), Count(n, Both(IdsOut(ids), NamesOut(result)))))))
    case ModeratorUpdateReq(moderator, port, group, ids, expected) =>
      Both(Number(moderator), Both(Number(port), Count(n, Both(Str(group), Both(IdsOut(ids), Number(expected))))))
    case CheckpointReq(kind, capability, ips) => Both(Number(kind), Both(Number(capability), SaddrsOut(ips)))
    case NewServerNotify(server) => Number(server)
  }

  // the number the program writes
  function Repeated(m: Message): int {
    match m
    case JoinReq(groups, _) => |groups|
    case JoinRsp(ips) => |ips|
    case EchoReq(_, ids) => |ids|
    case LeaveReq(groups) => |groups|
    case LeaveRsp(groups, _) => |groups|
    case ModeratorNotifyRsp(_, _, ids) => |ids|
    case PerformTaskReq(_, _, _, _, ids, _, _) => |ids|
    case TaskRsp(_, _, _, _, ids, _) => |ids|
    case ModeratorUpdateReq(_, _, _, ids, _) => |ids|
    case _ => 0
  }

  function Body(m: Message): Value { BodyWith(m, Repeated(m)) }

  // reading a body: what an array brings along overwrites the count read before it
  function FromBody(id: int, v: Value): Option<Message> {
    var w := Snd(v); var x := Snd(w); var y := Snd(x); var z := Snd(y); var t := Snd(z);
    match id
    case 32 => Some(JoinReq(NamesIn(Fst(w)), Num(Snd(w))))
    case 33 => Some(JoinRsp(SaddrsIn(w)))
    case 36 => Some(EchoReq(Txt(Fst(v)), IdsIn(x)))
    case 37 => Some(EchoRsp(Num(Fst(v)), Txt(w)))
    case 38 => Some(LeaveReq(NamesIn(w)))
    case 39 => Some(LeaveRsp(NamesIn(Fst(w)), Num(Snd(w))))
    case 40 => Some(ModeratorNotifyReq(Num(Fst(v)), Num(Fst(w)), Num(Fst(x)), Txt(Snd(x))))
    case 41 => Some(ModeratorNotifyRsp(Txt(Fst(v)), Num(Fst(w)), IdsIn(Snd(x))))
    case 42 => Some(PerformTaskReq(NamesIn(Fst(v)), Num(Fst(x)), Txt(Fst(y)), Txt(Fst(z)), IdsIn(Fst(t)),
        Num(Fst(Snd(t))), Num(Snd(Snd(t)))))
    case 43 => Some(TaskRsp(Txt(Fst(v)), Txt(Fst(w)), Num(Fst(x)), Num(Fst(y)), IdsIn(Fst(t)), NamesIn(Snd(t))))
    case 44 => Some(ModeratorUpdateReq(Num(Fst(v)), Num(Fst(w)), Txt(Fst(y)), IdsIn(Fst(z)), Num(Snd(z))))
    case 45 => Some(CheckpointReq(Num(Fst(v)), Num(Fst(w)), SaddrsIn(x)))
    case 46 => Some(NewServerNotify(Num(v)))
    case _ => None
  }

  lemma BodyReads(m: Message, n: int)
    ensures FromBody(Id(m), BodyWith(m, n)) == Some(m)
  {
    ListsReadBack();
  }

  // ---- the limits ----

  ghost predicate IsUInt(n: int) { 0 <= n < WORD }
  ghost predicate IsInt(n: int) { -0x8000_0000 <= n < 0x8000_0000 }
  ghost predicate IsText(s: Name, max: int) { |s| <= max && 0 !in s }
  ghost predicate AreIds(s: seq<int>) { |s| <= MAX_CLIENT_IN_GROUP && forall i :: 0 <= i < |s| ==> IsUInt(s[i]) }
  ghost predicate AreNames(s: seq<Name>, count: int, max: int)
      { |s| <= count && forall i :: 0 <= i < |s| ==> IsText(s[i], max) }

  ghost predicate IsSaddr(a: Saddr) {
    && -0x8000 <= a.family < 0x8000 && 0 <= a.port < 0x1_0000 && IsUInt(a.addr)
    && IsText(a.group, MAX_GNAME_LEN) && IsUInt(a.cause) && IsUInt(a.groupPort)
  }

  ghost predicate AreSaddrs(s: seq<Saddr>) { |s| <= MAX_GROUPS && forall i :: 0 <= i < |s| ==> IsSaddr(s[i]) }

  ghost predicate WellFormed(m: Message) {
    match m
    case JoinReq(groups, capability) => AreNames(groups, MAX_GROUPS, MAX_GNAME_LEN) && IsUInt(capability)
    case JoinRsp(ips) => AreSaddrs(ips)
    case EchoReq(group, ids) => IsText(group, MAX_GNAME_LEN) && AreIds(ids)
    case EchoRsp(status, group) => IsUInt(status) && IsText(group, MAX_GNAME_LEN)
    case LeaveReq(groups) => AreNames(groups, MAX_GROUPS, MAX_GNAME_LEN)
    case LeaveRsp(groups, cause) => AreNames(groups, MAX_GROUPS, MAX_GNAME_LEN) && IsUInt(cause)
    case ModeratorNotifyReq(moderator, port, clients, group) => IsUInt(moderator) && IsUInt(port) && IsInt(clients)
        && IsText(group, MAX_GNAME_LEN)
    case ModeratorNotifyRsp(group, moderator, ids) => IsText(group, MAX_GNAME_LEN) && IsUInt(moderator) && AreIds(ids)
    case PerformTaskReq(files, taskId, group, folder, ids, taskType, reassigned) =>
      && |files| == |ids| && AreNames(files, MAX_CLIENT_IN_GROUP, MAX_NAME_LEN) && IsUInt(taskId)
          && IsText(group, MAX_GNAME_LEN)
      && IsText(folder, MAX_NAME_LEN) && AreIds(ids) && IsInt(taskType) && IsInt(reassigned)
    case TaskRsp(group, finalResp, taskId, kind, ids, result) =>
      && |result| == |ids| && IsText(group, MAX_GNAME_LEN) && IsText(finalResp, MAX_GNAME_LEN) && IsUInt(taskId)
          && IsInt(kind)
      && AreIds(ids) && AreNames(result, MAX_CLIENT_IN_GROUP, MAX_NAME_LEN)
    case ModeratorUpdateReq(moderator, port, group, ids, expected) =>
      IsUInt(moderator) && IsUInt(port) && IsText(group, MAX_GNAME_LEN) && AreIds(ids) && IsInt(expected)
    case CheckpointReq(kind, capability, ips) => IsUInt(kind) && IsUInt(capability) && AreSaddrs(ips)
    case NewServerNotify(server) => IsUInt(server)
  }

  lemma NamesFit(s: seq<Name>, count: nat, max: nat)
    requires AreNames(s, count, max) && count < WORD && max < WORD
    ensures Fits(Array(count, Text(max)), NamesOut(s))
  {
  }

  lemma IdsFit(s: seq<int>)
    requires AreIds(s)
    ensures Fits(Array(MAX_CLIENT_IN_GROUP, UInt), IdsOut(s))
  {
  }

  lemma SaddrsFit(s: seq<Saddr>)
    requires AreSaddrs(s)
    ensures Fits(Array(MAX_GROUPS, SADDR), SaddrsOut(s))
  {
    var v := SaddrsOut(s);
    forall i | 0 <= i < |s| ensures Fits(SADDR, v.items[i]) { SaddrFits(s[i]); }
  }

  lemma SaddrFits(a: Saddr)
    requires IsSaddr(a)
    ensures Fits(SADDR, SaddrOut(a))
  {
    assert Fits(GNAME, Str(a.group));
  }

  lemma PerformTaskFits(m: Message, n: int)
    requires m.PerformTaskReq? && WellFormed(m) && IsUInt(n)
    ensures LayoutOf(Id(m)).Some? && Fits(LayoutOf(Id(m)).value, BodyWith(m, n))
  {
    NamesFit(m.files, MAX_CLIENT_IN_GROUP, MAX_NAME_LEN);
    TaskDetailsFit(m.group, m.folder, m.clientIds, m.taskType, m.reassigned);
  }

  lemma TaskDetailsFit(group: Name, folder: Name, ids: seq<int>, taskType: int, reassigned: int)
    requires IsText(group, MAX_GNAME_LEN) && IsText(folder, MAX_NAME_LEN) && AreIds(ids) && IsInt(taskType)
             && IsInt(reassigned)
    ensures Fits(Then(GNAME, Then(FNAME, Then(Array(MAX_CLIENT_IN_GROUP, UInt), Then(SInt, SInt)))),
                 Both(Str(group), Both(Str(folder), Both(IdsOut(ids), Both(Number(taskType), Number(reassigned))))))
  {
    IdsFit(ids);
  }

  lemma TaskRspFits(m: Message, n: int)
    requires m.TaskRsp? && WellFormed(m) && IsUInt(n)
    ensures LayoutOf(Id(m)).Some? && Fits(LayoutOf(Id(m)).value, BodyWith(m, n))
  {
    ResultsFit(n, m.clientIds, m.result);
    assert Fits(GNAME, Str(m.finalResp)) && Fits(GNAME, Str(m.group));
  }

  lemma ResultsFit(n: int, ids: seq<int>, result: seq<Name>)
    requires IsUInt(n) && AreIds(ids) && AreNames(result, MAX_CLIENT_IN_GROUP, MAX_NAME_LEN)
    ensures Fits(Then(UInt, Then(Array(MAX_CLIENT_IN_GROUP, UInt), Array(MAX_CLIENT_IN_GROUP, FNAME))),
                 Count(n, Both(IdsOut(ids), NamesOut(result))))
  {
    NamesFit(result, MAX_CLIENT_IN_GROUP, MAX_NAME_LEN);
    IdsFit(ids);
  }

  lemma ModeratorUpdateFits(m: Message, n: int)
    requires m.ModeratorUpdateReq? && WellFormed(m) && IsUInt(n)
    ensures LayoutOf(Id(m)).Some? && Fits(LayoutOf(Id(m)).value, BodyWith(m, n))
  {
    IdsFit(m.clientIds);
    assert Fits(GNAME, Str(m.group));
  }

  lemma ModeratorNotifyFits(m: Message, n: int)
    requires (m.ModeratorNotifyReq? || m.ModeratorNotifyRsp?) && WellFormed(m) && IsUInt(n)
    ensures LayoutOf(Id(m)).Some? && Fits(LayoutOf(Id(m)).value, BodyWith(m, n))
  {
    if m.ModeratorNotifyRsp? { IdsFit(m.clientIds); }
    assert Fits(GNAME, Str(m.group));
  }

  lemma GroupListFits(m: Message, n: int)
    requires (m.JoinReq? || m.LeaveReq? || m.LeaveRsp?) && WellFormed(m) && IsUInt(n)
    ensures LayoutOf(Id(m)).Some? && Fits(LayoutOf(Id(m)).value, BodyWith(m, n))
  {
    NamesFit(m.groups, MAX_GROUPS, MAX_GNAME_LEN);
  }

  lemma AddressListFits(m: Message, n: int)
    requires (m.JoinRsp? || m.CheckpointReq?) && WellFormed(m) && IsUInt(n)
    ensures LayoutOf(Id(m)).Some? && Fits(LayoutOf(Id(m)).value, BodyWith(m, n))
  {
    SaddrsFit(m.groupIps);
  }

  lemma EchoFits(m: Message, n: int)
    requires (m.EchoReq? || m.EchoRsp? || m.NewServerNotify?) && WellFormed(m) && IsUInt(n)
    ensures LayoutOf(Id(m)).Some? && Fits(LayoutOf(Id(m)).value, BodyWith(m, n))
  {
    if m.EchoReq? { IdsFit(m.clientIds); }
    if !m.NewServerNotify? { assert Fits(GNAME, Str(m.group)); }
  }

  // a message within the limits fits its layout
  lemma BodyFits(m: Message, n: int)
    requires WellFormed(m) && IsUInt(n)
    ensures LayoutOf(Id(m)).Some? && Fits(LayoutOf(Id(m)).value, BodyWith(m, n))
  {
    if m.PerformTaskReq? { PerformTaskFits(m, n); }
    else if m.TaskRsp? { TaskRspFits(m, n); }
    else if m.ModeratorUpdateReq? { ModeratorUpdateFits(m, n); }
    else if m.ModeratorNotifyReq? || m.ModeratorNotifyRsp? { ModeratorNotifyFits(m, n); }
    else if m.JoinReq? || m.LeaveReq? || m.LeaveRsp? { GroupListFits(m, n); }
    else if m.JoinRsp? || m.CheckpointReq? { AddressListFits(m, n); }
    else { EchoFits(m, n); }
  }

  lemma RepeatedIsUInt(m: Message)
    requires WellFormed(m)
    ensures IsUInt(Repeated(m))
  {
  }

  // ---- process_comm_struct ----

  // the discriminant goes out twice: once by itself and once in front of the union
  function EncodeMessage(m: Message): seq<byte>
    requires WellFormed(m)
  {
    RepeatedIsUInt(m);
    BodyFits(m, Repeated(m));
    Word(Id(m)) + (Word(Id(m)) + Encode(LayoutOf(Id(m)).value, Body(m)))
  }

  function DecodeMessage(b: seq<byte>): Option<(Message, seq<byte>)> {
    var first := Decode(Enumeration, b);
    if first.None? then None
    else
      var id := Decode(Enumeration, first.value.1);
      if id.None? || LayoutOf(Num(id.value.0)).None? then None
      else
        var body := Decode(LayoutOf(Num(id.value.0)).value, id.value.1);
        if body.None? then None
        else
          var m := FromBody(Num(id.value.0), body.value.0);
          if m.None? then None else Some((m.value, body.value.1))
  }

  lemma EnumReads(id: int, rest: seq<byte>)
    requires IsInt(id)
    ensures Decode(Enumeration, Word(id) + rest) == Some((Number(id), rest))
  {
    RoundTrip(Enumeration, Number(id), rest);
  }

  lemma DecodesBody(id: int, f: Layout, v: Value, m: Message, rest: seq<byte>)
    requires IsInt(id) && LayoutOf(id) == Some(f) && Fits(f, v) && FromBody(id, v) == Some(m)
    ensures DecodeMessage(Word(id) + (Word(id) + (Encode(f, v) + rest))) == Some((m, rest))
  {
    EnumReads(id, Word(id) + (Encode(f, v) + rest));
    EnumReads(id, Encode(f, v) + rest);
    RoundTrip(f, v, rest);
  }

  lemma Regrouped(a: seq<byte>, b: seq<byte>, c: seq<byte>, d: seq<byte>)
    ensures a + (b + c) + d == a + (b + (c + d))
  {
  }

  // every message within the limits is read back, with whatever follows it
  lemma MessageRoundTrip(m: Message, rest: seq<byte>)
    requires WellFormed(m)
    ensures DecodeMessage(EncodeMessage(m) + rest) == Some((m, rest))
  {
    RepeatedIsUInt(m);
    BodyFits(m, Repeated(m));
    BodyReads(m, Repeated(m));
    IdIsInt(m);
    var id, f, v := Id(m), LayoutOf(Id(m)).value, Body(m);
    DecodesBody(id, f, v, m, rest);
    Regrouped(Word(id), Word(id), Encode(f, v), rest);
  }

  lemma IdIsInt(m: Message)
    ensures 32 <= Id(m) <= 46
  {
  }

  // no message is the beginning of another one
  lemma EncodingIsPrefixFree(m: Message, n: Message, rest: seq<byte>)
    requires WellFormed(m) && WellFormed(n) && EncodeMessage(n) == EncodeMessage(m) + rest
    ensures m == n && rest == []
  {
    MessageRoundTrip(m, rest);
    MessageRoundTrip(n, []);
    assert EncodeMessage(n) + [] == EncodeMessage(n);
  }

  // of the two discriminants the second one counts
  lemma SecondDiscriminantCounts(x: int, y: int, id: int, body: seq<byte>)
    requires IsInt(x) && IsInt(y)
    ensures DecodeMessage(Word(x) + (Word(id) + body)) == DecodeMessage(Word(y) + (Word(id) + body))
  {
    EnumReads(x, Word(id) + body);
    EnumReads(y, Word(id) + body);
  }

  // whatever number stands for a repeated length, the message is the same
  lemma RepeatedCountIsIgnored(m: Message, n: int, rest: seq<byte>)
    requires WellFormed(m) && IsUInt(n)
    ensures LayoutOf(Id(m)).Some? && Fits(LayoutOf(Id(m)).value, BodyWith(m, n))
    ensures DecodeMessage(Word(Id(m)) + (Word(Id(m)) + (Encode(LayoutOf(Id(m)).value, BodyWith(m, n)) + rest)))
            == Some((m, rest))
  {
    BodyFits(m, n);
    BodyReads(m, n);
    IdIsInt(m);
    DecodesBody(Id(m), LayoutOf(Id(m)).value, BodyWith(m, n), m, rest);
  }

  // a count in front of its array is read and then overwritten
  lemma LeadingCountIsIgnored(id: int, x: int, y: int, body: seq<byte>)
    requires id in {32, 33, 38, 39}
    ensures DecodeMessage(Word(id) + (Word(id) + (Word(x) + body)))
            == DecodeMessage(Word(id) + (Word(id) + (Word(y) + body)))
  {
    var inner := LayoutOf(id).value.second;
    forall n ensures DecodeMessage(Word(id) + (Word(id) + (Word(n) + body))) ==
                     (var r := Decode(inner, body);
                         if r.None? then None else Some((FromBody(id, Both(Number(n % WORD), r.value.0)).value,
                         r.value.1)))
    {
      EnumReads(id, Word(id) + (Word(n) + body));
      EnumReads(id, Word(n) + body);
      WordReads(n, body);
      assert (Word(n) + body)[4..] == body;
    }
  }

  // ---- sizes ----

  function MaxSize(f: Layout): nat {
    match f
    case Text(max) => max + 7
    case Array(max, elem) => 4 + max * MaxSize(elem)
    case Then(a, b) => MaxSize(a) + MaxSize(b)
    case _ => 4
  }

  lemma {:induction false} SizeWithinMax(f: Layout, v: Value)
    requires Fits(f, v)
    ensures Size(f, v) <= MaxSize(f)
    decreases f, 0
  {
    match f {
      case Text(_) =>
      case Array(max, elem) =>
        SizeAllWithinMax(elem, v.items);
        Grows(|v.items|, max, MaxSize(elem));
      case Then(a, b) => SizeWithinMax(a, v.first); SizeWithinMax(b, v.second);
      case _ =>
    }
  }

  lemma Grows(m: nat, n: nat, k: nat)
    requires m <= n
    ensures m * k <= n * k
  {
  }

  lemma NextMultiple(n: nat, k: nat)
    requires n > 0
    ensures n * k == k + (n - 1) * k
  {
  }

  lemma {:induction false} SizeAllWithinMax(f: Layout, vs: seq<Value>)
    requires forall i :: 0 <= i < |vs| ==> Fits(f, vs[i])
    ensures SizeAll(f, vs) <= |vs| * MaxSize(f)
    decreases f, 1 + |vs|
  {
    if vs != [] {
      SizeWithinMax(f, vs[0]);
      SizeAllWithinMax(f, vs[1..]);
      NextMultiple(|vs|, MaxSize(f));
    }
  }

  // an encoded message is as long as its parts, a multiple of four, and never overruns the message buffer
  lemma MessageSize(m: Message)
    requires WellFormed(m)
    ensures LayoutOf(Id(m)).Some? && Fits(LayoutOf(Id(m)).value, Body(m))
    ensures |EncodeMessage(m)| == 8 + Size(LayoutOf(Id(m)).value, Body(m)) && |EncodeMessage(m)| % 4 == 0
    ensures |EncodeMessage(m)| <= MAXMSGSIZE
  {
    RepeatedIsUInt(m);
    BodyFits(m, Repeated(m));
    var f, v := LayoutOf(Id(m)).value, Body(m);
    EncodedSize(f, v);
    SizeWithinMax(f, v);
    LayoutsFitBuffer(Id(m));
    Fours(8, Size(f, v));
    EncodedLength(Id(m), f, v);
    assert EncodeMessage(m) == Word(Id(m)) + (Word(Id(m)) + Encode(f, v));
  }

  lemma EncodedLength(id: int, f: Layout, v: Value)
    requires Fits(f, v)
    ensures |Word(id) + (Word(id) + Encode(f, v))| == 8 + |Encode(f, v)|
  {
  }

  // the largest layouts are those of the two messages that list addresses
  lemma LayoutsFitBuffer(id: int)
    requires LayoutOf(id).Some?
    ensures MaxSize(LayoutOf(id).value) <= MAXMSGSIZE - 8
  {
    if id == 42 { SizeOfPerformTask(); }
    else if id == 43 { SizeOfTaskRsp(); }
    else if id == 44 { SizeOfModeratorUpdate(); }
    else if id in {32, 38, 39} { SizeOfGroupList(id); }
    else if id in {33, 45} { SizeOfAddressList(id); }
    else if id in {36, 41} { SizeOfClientList(id); }
    else { assert id in {37, 40, 46} && MaxSize(GNAME) == 32; }
  }

  lemma SizeOfGroupList(id: int)
    requires id in {32, 38, 39}
    ensures MaxSize(LayoutOf(id).value) <= 50000
  {
    ArraySizes();
    var names := Array(MAX_GROUPS, GNAME);
    assert MaxSize(Then(names, UInt)) == 32008;
  }

  lemma SizeOfAddressList(id: int)
    requires id in {33, 45}
    ensures MaxSize(LayoutOf(id).value) <= 60000
  {
    ArraySizes();
    var saddrs := Array(MAX_GROUPS, SADDR);
    assert MaxSize(Then(UInt, saddrs)) == 52008;
  }

  lemma SizeOfClientList(id: int)
    requires id in {36, 41}
    ensures MaxSize(LayoutOf(id).value) <= 50000
  {
    ArraySizes();
    var ids := Array(MAX_CLIENT_IN_GROUP, UInt);
    assert MaxSize(Then(UInt, ids)) == 1028;
  }

  lemma TextSizes()
    ensures MaxSize(GNAME) == 32 && MaxSize(FNAME) == 157 && MaxSize(SADDR) == 52
  {
  }

  lemma ArraySize(max: nat, elem: Layout)
    ensures MaxSize(Array(max, elem)) == 4 + max * MaxSize(elem)
  {
  }

  lemma ArraySizes()
    ensures MaxSize(GNAME) == 32 && MaxSize(FNAME) == 157
    ensures MaxSize(Array(MAX_GROUPS, GNAME)) == 32004 && MaxSize(Array(MAX_GROUPS, SADDR)) == 52004
    ensures MaxSize(Array(MAX_CLIENT_IN_GROUP, UInt)) == 1024 && MaxSize(Array(MAX_CLIENT_IN_GROUP, FNAME)) == 40039
  {
    TextSizes();
    ArraySize(MAX_GROUPS, GNAME);
    ArraySize(MAX_GROUPS, SADDR);
    ArraySize(MAX_CLIENT_IN_GROUP, UInt);
    ArraySize(MAX_CLIENT_IN_GROUP, FNAME);
  }

  lemma ThenSize(a: Layout, b: Layout)
    ensures MaxSize(Then(a, b)) == MaxSize(a) + MaxSize(b)
  {
  }

  lemma TaskDetailsSize()
    ensures MaxSize(Then(GNAME, Then(FNAME, Then(Array(MAX_CLIENT_IN_GROUP, UInt), Then(SInt, SInt))))) <= 2000
  {
    ArraySizes();
    var ids := Array(MAX_CLIENT_IN_GROUP, UInt);
    ThenSize(ids, Then(SInt, SInt));
    ThenSize(FNAME, Then(ids, Then(SInt, SInt)));
  }

  lemma SizeOfPerformTask()
    ensures MaxSize(LayoutOf(42).value) <= 50000
  {
    ArraySizes();
    TaskDetailsSize();
    var f := Then(GNAME, Then(FNAME, Then(Array(MAX_CLIENT_IN_GROUP, UInt), Then(SInt, SInt))));
    ThenSize(UInt, Then(UInt, f));
  }

  lemma SizeOfTaskRsp()
    ensures MaxSize(LayoutOf(43).value) <= 50000
  {
    ArraySizes();
    var ids, files := Array(MAX_CLIENT_IN_GROUP, UInt), Array(MAX_CLIENT_IN_GROUP, FNAME);
    var t := Then(UInt, Then(ids, files));
    ThenSize(ids, files);
    ThenSize(UInt, Then(ids, files));
    ThenSize(Enumeration, t);
    ThenSize(UInt, Then(Enumeration, t));
    ThenSize(GNAME, Then(UInt, Then(Enumeration, t)));
  }

  lemma SizeOfModeratorUpdate()
    ensures MaxSize(LayoutOf(44).value) <= 50000
  {
    ArraySizes();
    var ids := Array(MAX_CLIENT_IN_GROUP, UInt);
    var t := Then(GNAME, Then(ids, SInt));
    ThenSize(ids, SInt);
    ThenSize(GNAME, Then(ids, SInt));
    ThenSize(UInt, t);
  }
}
