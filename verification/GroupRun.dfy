// What a group goes through while it works on a task, as a relation between its states before and after
// an input, and what any run of it does to the files it was given.
module GroupRun {
  import opened Basics
  import opened Permutations
  import opened TaskMap

  datatype GroupState =
    | StateNone | ModeratorSelectionPending | ModeratorSelected | GroupTaskInProgress | TaskInProgressModSelPend

  datatype Event =
    | EchoRsp(client: int)
    | ModNotifyRsp(clientIds: seq<int>, files: seq<string>, taskCount: nat)
    | ModTaskRsp(sender: int)
    | EchoReq(sender: int, reported: seq<int>)

  datatype Input = Message(e: Event) | ResponseTimeout | SelectionTimeout

  // which events a state reacts to
  predicate Handled(s: GroupState, e: Event) {
    match s
    case ModeratorSelectionPending => e.EchoRsp?
    case ModeratorSelected => e.ModNotifyRsp?
    case GroupTaskInProgress => e.EchoReq? || e.ModTaskRsp?
    case TaskInProgressModSelPend => e.EchoRsp?
    case StateNone => false
  }

  // a group: the entries of the map that are in use, the files that wait to be resent, and whether the
  // timer that watches the moderator runs
  datatype Snap = Snap(state: GroupState, members: seq<int>, moderator: Option<int>, watching: bool, live: seq<Entry>,
      buffer: seq<string>)

  predicate TaskRunning(a: Snap) { a.state == GroupTaskInProgress || a.state == TaskInProgressModSelPend }

  // the map a task starts with: one file for each client
  function Initial(clientIds: seq<int>, files: seq<string>): (r: seq<Entry>)
    requires |clientIds| == |files|
    ensures |r| == |files| && forall i :: 0 <= i < |r| ==> r[i] == Entry(clientIds[i], [files[i]])
  {
    seq(|files|, i requires 0 <= i < |files| => Entry(clientIds[i], [files[i]]))
  }

  // a task that can be started: more lines than clients
  ghost predicate Startable(clientIds: seq<int>, files: seq<string>, taskCount: nat) {
    |clientIds| == |files| && |clientIds| < taskCount && Distinct(clientIds) && 0 !in clientIds
  }

  // the reported clients work on the task
  ghost predicate Reportable(s: seq<Entry>, reported: seq<int>) {
    && Distinct(reported) && (forall d :: d in reported ==> d in Clients(s))
    && (reported != [] ==> reported[|reported| - 1] in Clients(s))
  }

  // the moderator holds one file at most
  ghost predicate MayGo(a: Snap) {
    a.moderator.Some? && a.moderator.value in Clients(a.live) && |FilesOf(a.live, a.moderator.value)| <= 1
  }

  // ---- one step ----

  ghost predicate Started(a: Snap, clientIds: seq<int>, files: seq<string>, b: Snap)
    requires |clientIds| == |files|
  {
    b == a.(state := GroupTaskInProgress, watching := true, live := Initial(clientIds, files), buffer := [])
  }

  ghost predicate Reported(a: Snap, sender: int, reported: seq<int>, b: Snap)
    requires reported != [] && reported[|reported| - 1] in Clients(a.live)
  {
    b == a.(live := b.live, buffer := []) && exists req :: Resent(a.live, b.live, reported, sender, req)
  }

  // set_group_available
  function Released(a: Snap): Snap { a.(state := StateNone, moderator := None, watching := false, live := []) }

  // one attempt to find a moderator: the cursor has moved on, or it was the last attempt
  predicate Searched(a: Snap, b: Snap) { b == Released(a) || b == a.(moderator := b.moderator) }

  // the moderator has been silent for too long: its files wait in the buffer, and another moderator is sought
  ghost predicate ModeratorLost(a: Snap, b: Snap)
    requires a.moderator.Some? && a.moderator.value in Clients(a.live)
  {
    var files := FilesOf(a.live, a.moderator.value);
    || b == Released(a).(buffer := files)
    || (&& Compacted(a.live, [a.moderator.value], b.live)
        && b == a.(state := TaskInProgressModSelPend, watching := false, moderator := b.moderator, live := b.live,
                   buffer := files))
  }

  // a client answers while a moderator is sought: a member takes over and the waiting files go out; an answer
  // from outside the group leaves it without a watched moderator
  ghost predicate TaskAnswered(a: Snap, client: int, b: Snap) {
    b == if client > 0 && client in a.members
         then a.(state := GroupTaskInProgress, watching := true, moderator := Some(client),
                 live := Handed(a.live, a.buffer), buffer := [])
         else a.(state := GroupTaskInProgress)
  }

  // what the state machine makes of an event
  ghost predicate FsmStep(a: Snap, e: Event, b: Snap) {
    if !Handled(a.state, e) then b == a
    else
      match e
      case EchoRsp(c) =>
        if TaskRunning(a) then TaskAnswered(a, c, b)
        else b == if c > 0 && c in a.members then a.(state := ModeratorSelected, moderator := Some(c)) else a
      case ModNotifyRsp(ids, files, n) =>
        if n == 0 then b == a else Startable(ids, files, n) && Started(a, ids, files, b)
      case EchoReq(sender, reported) =>
        if a.moderator != Some(sender) || reported == [] then b == a
        else Reportable(a.live, reported) && Reported(a, sender, reported, b)
      case ModTaskRsp(_) => b == Released(a)
  }

  // a task response from a member of the group unseats the moderator before it reaches the state machine
  ghost predicate MessageStep(a: Snap, e: Event, b: Snap) {
    if !e.ModTaskRsp? then FsmStep(a, e, b)
    else if e.sender > 0 && e.sender in a.members then FsmStep(a.(moderator := None), e, b)
    else b == a
  }

  ghost predicate Step(a: Snap, i: Input, b: Snap) {
    match i
    case Message(e) => MessageStep(a, e, b)
    case ResponseTimeout =>
      || b == a
      || (a.state == GroupTaskInProgress && a.watching && MayGo(a) && ModeratorLost(a, b))
      || (a.state == ModeratorSelected && Searched(a, b))
    case SelectionTimeout => Searched(a, b)
  }

  // ---- what a step does to the files ----

  // the files of the task that the server still keeps track of
  ghost function FilesHeld(a: Snap): multiset<string> { Files(a.live) + multiset(a.buffer) }

  ghost predicate Steady(a: Snap) {
    Tracked(a.live) && (a.watching ==> a.state == GroupTaskInProgress && a.buffer == [])
  }

  // a report loses no file when the clients before the last held none, and those of the last fit the survivors
  ghost predicate ReportFits(s: seq<Entry>, reported: seq<int>) {
    reported == [] ||
    var n := |reported| - 1;
    DeadFiles(s, reported[..n]) == multiset{} && (reported[n] in Clients(s) ==>
        |FilesOf(s, reported[n])| <= |s| - |reported|)
  }

  // whether the files that this input makes the server resend all find an entry
  ghost predicate Fitting(a: Snap, i: Input) {
    match i
    case Message(EchoReq(sender, reported)) =>
      a.state == GroupTaskInProgress && a.moderator == Some(sender) && reported != [] ==>
          a.buffer == [] && ReportFits(a.live, reported)
    case Message(EchoRsp(c)) =>
      a.state == TaskInProgressModSelPend && c > 0 && c in a.members ==> |a.buffer| <= |a.live|
    case _ => true
  }

  lemma NoFiles(s: seq<Entry>)
    ensures var none: seq<string> := []; Files(s) + multiset(none) == Files(s)
  {
  }

  lemma Lost(a: Snap, b: Snap)
    requires Steady(a) && a.buffer == [] && MayGo(a) && ModeratorLost(a, b) && b.state != StateNone
    ensures Tracked(b.live) && FilesHeld(b) == FilesHeld(a)
  {
    var m := a.moderator.value;
    FilesOfPermutation(b.live, Survivors(a.live, [m]));
    FilesDivide(a.live, [m]);
    DeadFilesOfOne(a.live, m);
    NoFiles(a.live);
  }

  lemma Resending(a: Snap, b: Snap)
    requires Tracked(a.live) && b.live == Handed(a.live, a.buffer) && b.buffer == []
    ensures Tracked(b.live) && FilesHeld(b) <= FilesHeld(a)
            && (FilesHeld(b) == FilesHeld(a) <==> |a.buffer| <= |a.live|)
  {
    var n := |a.live|;
    HandedFiles(a.live, a.buffer);
    HandedTracked(a.live, a.buffer);
    NoFiles(b.live);
    if |a.buffer| > n {
      PrefixFiles(a.buffer, n);
      FewerFiles(a.buffer, n);
      CancelSum(Files(a.live), multiset(a.buffer), multiset(a.buffer[..n]));
    }
  }

  lemma Reporting(a: Snap, sender: int, reported: seq<int>, b: Snap)
    requires Tracked(a.live) && reported != [] && Reportable(a.live, reported) && Reported(a, sender, reported, b)
    ensures Tracked(b.live) && FilesHeld(b) <= FilesHeld(a) && (FilesHeld(b) == FilesHeld(a) <==>
            a.buffer == [] && ReportFits(a.live, reported))
  {
    var req :| Resent(a.live, b.live, reported, sender, req);
    FilesAfterDeaths(a.live, b.live, reported, sender, req);
    NoFiles(b.live);
    ShrunkSum(Files(b.live), Files(a.live), multiset(a.buffer));
    assert |multiset(a.buffer)| == |a.buffer|;
  }

  lemma ShrunkSum(t: multiset<string>, s: multiset<string>, buffer: multiset<string>)
    requires t <= s
    ensures t <= s + buffer && (t == s + buffer <==> t == s && buffer == multiset{})
  {
    if t == s + buffer {
      assert forall f :: t[f] == s[f] + buffer[f] <= s[f];
    }
  }

  // between two states of a task no file is made up, and none is lost exactly when the resent ones fit
  lemma StepConserves(a: Snap, i: Input, b: Snap)
    requires Steady(a) && TaskRunning(a) && TaskRunning(b) && Step(a, i, b)
    ensures Steady(b) && FilesHeld(b) <= FilesHeld(a) && (FilesHeld(b) == FilesHeld(a) <==> Fitting(a, i))
  {
    match i {
      case Message(e) => MessageConserves(a, e, b);
      case ResponseTimeout => if b != a { Lost(a, b); }
      case SelectionTimeout =>
    }
  }

  lemma MessageConserves(a: Snap, e: Event, b: Snap)
    requires Steady(a) && TaskRunning(a) && TaskRunning(b) && MessageStep(a, e, b)
    ensures Steady(b) && FilesHeld(b) <= FilesHeld(a) && (FilesHeld(b) == FilesHeld(a) <==> Fitting(a, Message(e)))
  {
    if Handled(a.state, e) {
      match e {
        case EchoReq(sender, reported) =>
          if a.moderator == Some(sender) && reported != [] { Reporting(a, sender, reported, b); }
        case EchoRsp(c) => if c > 0 && c in a.members { Resending(a, b); }
        case _ =>
      }
    }
  }

  // ---- runs ----

  ghost predicate IsRun(run: seq<Snap>, inputs: seq<Input>) {
    |run| == |inputs| + 1 && forall k :: 0 <= k < |inputs| ==> Step(run[k], inputs[k], run[k + 1])
  }

  ghost predicate AllFit(run: seq<Snap>, inputs: seq<Input>)
    requires |run| == |inputs| + 1
  {
    forall k :: 0 <= k < |inputs| ==> Fitting(run[k], inputs[k])
  }

  lemma {:induction false} RunKeepsFiles(run: seq<Snap>, inputs: seq<Input>)
    requires IsRun(run, inputs) && Steady(run[0]) && forall k :: 0 <= k < |run| ==> TaskRunning(run[k])
    ensures var n := |inputs|;
            && FilesHeld(run[n]) <= FilesHeld(run[0])
            && (FilesHeld(run[n]) == FilesHeld(run[0]) <==> AllFit(run, inputs))
  {
    if inputs != [] {
      var later, rest := run[1..], inputs[1..];
      assert Step(run[0], inputs[0], run[1]);
      StepConserves(run[0], inputs[0], run[1]);
      RunTail(run, inputs);
      RunKeepsFiles(later, rest);
      Shrinking(FilesHeld(run[|inputs|]), FilesHeld(run[1]), FilesHeld(run[0]));
    }
  }

  lemma Shrinking(a: multiset<string>, b: multiset<string>, c: multiset<string>)
    requires a <= b <= c
    ensures a <= c && (a == c <==> a == b && b == c)
  {
    if a == c { assert b == c; }
  }

  lemma RunTail(run: seq<Snap>, inputs: seq<Input>)
    requires IsRun(run, inputs) && inputs != []
    ensures IsRun(run[1..], inputs[1..])
    ensures AllFit(run[1..], inputs[1..]) <==> forall k :: 0 < k < |inputs| ==> Fitting(run[k], inputs[k])
  {
    var later, rest := run[1..], inputs[1..];
    forall k | 0 <= k < |rest| ensures Step(later[k], rest[k], later[k + 1])
        && Fitting(later[k], rest[k]) == Fitting(run[k + 1], inputs[k + 1]) {
      assert Step(run[k + 1], inputs[k + 1], run[k + 2]);
    }
    assert forall k :: 0 < k < |inputs| ==> Fitting(run[k], inputs[k]) == Fitting(later[k - 1], rest[k - 1]);
  }

  lemma InitialIsTracked(clientIds: seq<int>, files: seq<string>)
    requires |clientIds| == |files| && Distinct(clientIds) && 0 !in clientIds
    ensures var s := Initial(clientIds, files); Clients(s) == clientIds && Tracked(s) && Files(s) == multiset(files)
  {
    OneFileEach(Initial(clientIds, files), files);
  }

  lemma {:induction false} OneFileEach(s: seq<Entry>, files: seq<string>)
    requires |s| == |files| && forall i :: 0 <= i < |s| ==> s[i].files == [files[i]]
    ensures Files(s) == multiset(files)
  {
    if s != [] {
      OneFileEach(s[1..], files[1..]);
      assert files == [files[0]] + files[1..];
    }
  }

  // however a task goes on, map and buffer together hold exactly the files it started with as long as every
  // resending so far fitted, and fewer from the first one that did not
  lemma RunConserves(run: seq<Snap>, inputs: seq<Input>)
    requires IsRun(run, inputs) && |inputs| > 0 && run[0].state == ModeratorSelected
    requires inputs[0].Message? && inputs[0].e.ModNotifyRsp? && inputs[0].e.taskCount > 0
    requires forall k :: 0 < k < |run| ==> TaskRunning(run[k])
    ensures var given, held := multiset(inputs[0].e.files), FilesHeld(run[|inputs|]);
            held <= given && (held == given <==> forall k :: 0 < k < |inputs| ==> Fitting(run[k], inputs[k]))
  {
    var e := inputs[0].e;
    assert Step(run[0], inputs[0], run[1]);
    InitialIsTracked(e.clientIds, e.files);
    NoFiles(Initial(e.clientIds, e.files));
    RunTail(run, inputs);
    RunKeepsFiles(run[1..], inputs[1..]);
  }

  lemma FilesAfterDeaths(s: seq<Entry>, t: seq<Entry>, reported: seq<int>, moderator: int, req: Option<TaskRequest>)
    requires Tracked(s) && reported != [] && Reportable(s, reported) && Resent(s, t, reported, moderator, req)
    ensures Files(t) <= Files(s) && (Files(t) == Files(s) <==> ReportFits(s, reported)) && Tracked(t)
  {
    var n := |reported| - 1;
    var others, last := reported[..n], reported[n];
    assert reported == others + [last];
    ManyDeathsConserve(s, t, others, last, moderator, req);
    ResentKeepsFiles(s, t, others, last, moderator, req);
  }

  // ---- runs that lose files ----

  // three clients; the third dies, then the first, which by then holds the file of the third as well
  function OneAfterTheOther(ids: seq<int>, files: seq<string>): seq<Input>
    requires |ids| == 3
  {
    [Message(ModNotifyRsp(ids, files, 4)), Message(EchoReq(ids[1], [ids[2]])), Message(EchoReq(ids[1], [ids[0]]))]
  }

  function AfterFirst(ids: seq<int>, files: seq<string>): seq<Entry>
    requires |ids| == 3 == |files|
  {
    [Entry(ids[0], [files[0], files[2]]), Entry(ids[1], [files[1]])]
  }

  ghost predicate Trio(ids: seq<int>, files: seq<string>) { |ids| == 3 == |files| && Distinct(ids) && 0 !in ids }

  lemma InitialTrio(ids: seq<int>, files: seq<string>) returns (s: seq<Entry>)
    requires Trio(ids, files)
    ensures s == Initial(ids, files) == [Entry(ids[0], [files[0]]), Entry(ids[1], [files[1]]),
            Entry(ids[2], [files[2]])]
    ensures Clients(s) == ids && Tracked(s) && FilesOf(s, ids[2]) == [files[2]]
    ensures AtEnd(s, [ids[2]]) && s[..2] == [Entry(ids[0], [files[0]]), Entry(ids[1], [files[1]])]
  {
    s := Initial(ids, files);
    InitialIsTracked(ids, files);
  }

  lemma AfterFirstClients(ids: seq<int>, files: seq<string>) returns (t: seq<Entry>)
    requires Trio(ids, files)
    ensures t == AfterFirst(ids, files) && Clients(t) == [ids[0], ids[1]] && Tracked(t)
            && FilesOf(t, ids[0]) == [files[0], files[2]]
  {
    t := AfterFirst(ids, files);
  }

  lemma AfterFirstDeath(ids: seq<int>, files: seq<string>, t: seq<Entry>, req: Option<TaskRequest>)
    requires Trio(ids, files) && Clients(Initial(ids, files)) == ids
             && Resent(Initial(ids, files), t, [ids[2]], ids[1], req)
    ensures t == AfterFirst(ids, files)
  {
    var s := InitialTrio(ids, files);
    var kept :| Compacted(s, [ids[2]], kept) && t == Handed(kept, [files[2]]);
    assert kept == s[..2];
    HandedPair(s[0], s[1], files[2]);
  }

  // every such run loses a file, because one survivor cannot take two
  lemma SecondDeathLosesFile(ids: seq<int>, files: seq<string>, run: seq<Snap>)
    requires Trio(ids, files) && IsRun(run, OneAfterTheOther(ids, files))
    requires run[0].state == ModeratorSelected && run[0].moderator == Some(ids[1])
    ensures TaskRunning(run[3]) && FilesHeld(run[3]) < multiset(files)
  {
    var inputs := OneAfterTheOther(ids, files);
    assert Step(run[0], inputs[0], run[1]) && Step(run[1], inputs[1], run[2]) && Step(run[2], inputs[2], run[3]);
    var s := InitialTrio(ids, files);
    var req :| Resent(s, run[2].live, [ids[2]], ids[1], req);
    AfterFirstDeath(ids, files, run[2].live, req);
    var t := AfterFirstClients(ids, files);
    assert !Fitting(run[2], inputs[2]);
    RunConserves(run, inputs);
  }

  // and from every group with such a moderator there is one
  lemma SecondDeathRun(ids: seq<int>, files: seq<string>, a: Snap) returns (run: seq<Snap>)
    requires Trio(ids, files) && a.state == ModeratorSelected && a.moderator == Some(ids[1])
    ensures IsRun(run, OneAfterTheOther(ids, files)) && run[0] == a
  {
    var inputs := OneAfterTheOther(ids, files);
    var s := InitialTrio(ids, files);
    var t := AfterFirstClients(ids, files);
    var u, r := [Entry(ids[1], [files[1], files[0]])], [ids[0]];
    var b := a.(state := GroupTaskInProgress, watching := true, live := s, buffer := []);
    var c, d := b.(live := t), b.(live := u);
    run := [a, b, c, d];
    FirstDeathResent(ids, files, s);
    SecondDeathResent(ids, files, t, u);
    assert Step(a, inputs[0], b);
    assert Step(b, inputs[1], c);
    assert Step(c, inputs[2], d);
  }

  lemma HandedPair(x: Entry, y: Entry, f: string)
    requires |x.files| == 1
    ensures Handed([x, y], [f]) == [Entry(x.client, [x.files[0], f]), y]
  {
    assert x.files + [f] == [x.files[0], f];
  }

  lemma SurvivorsOfTwo(x: Entry, y: Entry, dead: seq<int>)
    ensures Survivors([x, y], dead) == (if x.client in dead then [] else [x]) + (if y.client in dead then [] else [y])
  {
    assert [x, y][1..] == [y] && [y][1..] == [];
    assert Survivors([y], dead) == if y.client in dead then [] else [y];
  }

  lemma FirstDeathResent(ids: seq<int>, files: seq<string>, s: seq<Entry>)
    requires Trio(ids, files) && s == Initial(ids, files) && Clients(s) == ids
    ensures Resent(s, AfterFirst(ids, files), [ids[2]], ids[1], Some(TaskRequest([ids[0]], [files[2]], true)))
  {
    var s1 := InitialTrio(ids, files);
    var kept := s[..2];
    assert s == [s[0]] + [s[1], s[2]] && s[1..] == [s[1], s[2]];
    SurvivorsOfTwo(s[1], s[2], [ids[2]]);
    assert Survivors(s, [ids[2]]) == [s[0]] + Survivors(s[1..], [ids[2]]) == kept;
    assert Clients(kept) == ids[..2];
    assert Compacted(s, [ids[2]], kept);
    HandedPair(s[0], s[1], files[2]);
  }

  lemma SecondDeathResent(ids: seq<int>, files: seq<string>, t: seq<Entry>, u: seq<Entry>)
    requires Trio(ids, files) && t == AfterFirst(ids, files) && u == [Entry(ids[1], [files[1], files[0]])]
             && ids[0] in Clients(t)
    ensures Resent(t, u, [ids[0]], ids[1], Some(TaskRequest([ids[1], ids[1]], [files[0], files[2]], true)))
  {
    var t1 := AfterFirstClients(ids, files);
    var kept := [t[1]];
    SurvivorsOfTwo(t[0], t[1], [ids[0]]);
    assert Clients(kept) == [ids[1]];
    assert !AtEnd(t, [ids[0]]);
    assert Compacted(t, [ids[0]], kept);
    assert t[1].files + [files[0]] == [files[1], files[0]];
    assert u == Handed(kept, [files[0], files[2]]);
  }

  // a report of two clients at once: the file of the first is overwritten in the buffer
  lemma DoubleReportLosesFile(ids: seq<int>, files: seq<string>, a: Snap, b: Snap, c: Snap)
    requires Trio(ids, files) && a.state == ModeratorSelected && a.moderator == Some(ids[0])
    requires MessageStep(a, ModNotifyRsp(ids, files, 4), b) && MessageStep(b, EchoReq(ids[0], [ids[1], ids[2]]), c)
    ensures TaskRunning(c) && FilesHeld(c) < multiset(files)
  {
    var s := InitialTrio(ids, files);
    var reported := [ids[1], ids[2]];
    assert reported[..1] == [ids[1]];
    DeadFilesOfOne(s, ids[1]);
    assert Clients(s)[1] == ids[1];
    assert !ReportFits(s, reported);
    InitialIsTracked(ids, files);
    NoFiles(s);
    StepConserves(b, Message(EchoReq(ids[0], reported)), c);
  }
}
