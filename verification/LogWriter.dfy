/** server/src/log/whisp_log.cpp, write2file and write_thread_proc: the thread that moves queued
    lines into files and starts a new file once the current one has reached the roll size.

    Producers add lines under the mutex; the writer alternates between looking whether to roll
    and writing one line. Any interleaving is a run. A file is named by the second of local time
    in which it is created and opened for truncation. Local time may repeat: when summer time
    ends, when the clock is set back, or simply within one second. */
module LogWriters {
  import opened Common
  import opened Bytes

  datatype File = File(second: int, lines: seq<Text>)

  datatype Pc = Checking | Waiting | Exited

  datatype Log = Log(
    rollSize: nat,
    queue: seq<Text>,       // write_wating_lists_
    exitFlag: bool,
    files: seq<File>,       // in the order in which they were last created; the last one is open
    written: nat,           // writen_size_
    pc: Pc,
    accepted: seq<Text>,    // history: every line queued
    lost: seq<Text>         // and every line of a file truncated by a later one of its name
  )

  function NewLog(rollSize: nat): Log {
    Log(rollSize, [], false, [], 0, Checking, [], [])
  }

  function Size(lines: seq<Text>): nat {
    if |lines| == 0 then 0 else Size(lines[..|lines| - 1]) + |lines[|lines| - 1]|
  }

  /** All lines of all files, in order. */
  function Lines(files: seq<File>): seq<Text> {
    if |files| == 0 then [] else Lines(files[..|files| - 1]) + files[|files| - 1].lines
  }

  /** The files of another name. */
  function Others(files: seq<File>, second: int): seq<File> {
    if |files| == 0 then []
    else
      var n := |files| - 1;
      Others(files[..n], second) + (if files[n].second == second then [] else [files[n]])
  }

  /** fopen(.., "w+"): a file of this name, however old, is truncated. */
  function Create(files: seq<File>, second: int): seq<File> {
    Others(files, second) + [File(second, [])]
  }

  /** The lines that creating a file in this second truncates. */
  function Truncated(files: seq<File>, second: int): seq<Text> {
    if |files| == 0 then []
    else
      var n := |files| - 1;
      Truncated(files[..n], second) + (if files[n].second == second then files[n].lines else [])
  }

  function WriteLast(files: seq<File>, line: Text): seq<File>
    requires |files| > 0
  {
    var last := files[|files| - 1];
    files[..|files| - 1] + [last.(lines := last.lines + [line])]
  }

  datatype Step = Accept(line: Text) | SetExit | Check(second: int) | WriteNext | Quit

  predicate MustRoll(s: Log) {
    |s.files| == 0 || s.written >= s.rollSize
  }

  predicate Possible(s: Log, e: Step) {
    match e
    case Check(_) => s.pc == Checking
    case WriteNext => s.pc == Waiting && |s.queue| > 0 && |s.files| > 0
    case Quit => s.pc == Waiting && |s.queue| == 0 && s.exitFlag
    case _ => true
  }

  function Do(s: Log, e: Step): Log
    requires Possible(s, e)
  {
    match e
    case Accept(line) => s.(queue := s.queue + [line], accepted := s.accepted + [line])
    case SetExit => s.(exitFlag := true)
    case Check(second) =>
      if MustRoll(s) then
        s.(files := Create(s.files, second), written := 0, pc := Waiting, lost := s.lost + Truncated(s.files, second))
      else s.(pc := Waiting)
    case WriteNext =>
      s.(files := WriteLast(s.files, s.queue[0]), queue := s.queue[1..], written := s.written + |s.queue[0]|, pc := Checking)
    case Quit => s.(pc := Exited)
  }

  // ----- what every step keeps ---------------------------------------------

  /** Nothing accepted is lost or reordered. */
  predicate Conserved(s: Log) {
    s.accepted == Lines(s.files) + s.queue
  }

  /** Every line accepted is in a file, in the queue, or was truncated: exactly one of the three,
      exactly once. */
  predicate Balanced(s: Log) {
    multiset(s.accepted) == multiset(Lines(s.files)) + multiset(s.queue) + multiset(s.lost)
  }

  /** Without its last line the file is below the roll size; the first line goes in anyway. */
  predicate WithinRoll(f: File, rollSize: nat) {
    |f.lines| > 1 ==> Size(f.lines[..|f.lines| - 1]) < rollSize
  }

  /** It has a line and has reached the roll size. */
  predicate Full(f: File, rollSize: nat) {
    |f.lines| > 0 && Size(f.lines) >= rollSize
  }

  /** Every file was below the roll size before its last line, every file but the open one has a
      line and has reached it, and the counter is the size of the open file. */
  ghost predicate Rolled(s: Log) {
    && (forall i :: 0 <= i < |s.files| ==> WithinRoll(s.files[i], s.rollSize))
    && (forall i :: 0 <= i < |s.files| - 1 ==> Full(s.files[i], s.rollSize))
    && (|s.files| > 0 ==> OpenFileOk(s, s.files[|s.files| - 1].lines))
    && (s.pc != Checking ==> |s.files| > 0)
  }

  /** The writer looks whether to roll only after it has written a line. */
  predicate OpenFileOk(s: Log, lines: seq<Text>) {
    && s.written == Size(lines)
    && (s.pc == Checking ==> |lines| > 0)
    && (s.pc == Waiting && |lines| > 0 ==> s.written < s.rollSize)
  }

  ghost predicate Inv(s: Log) {
    Balanced(s) && (|s.lost| == 0 ==> Conserved(s)) && Rolled(s)
  }

  /** The roll, if there is one, happens in a second that names no file. */
  ghost predicate NewSecond(s: Log, e: Step) {
    e.Check? && MustRoll(s) ==> Unnamed(s.files, e.second)
  }

  ghost predicate Unnamed(files: seq<File>, second: int) {
    forall i :: 0 <= i < |files| ==> files[i].second != second
  }

  lemma {:induction false} OthersKept(files: seq<File>, second: int)
    ensures forall i :: 0 <= i < |Others(files, second)| ==> Others(files, second)[i] in files
    ensures Unnamed(files, second) ==> Others(files, second) == files && Truncated(files, second) == []
  {
    if |files| > 0 {
      var n := |files| - 1;
      OthersKept(files[..n], second);
      assert files == files[..n] + [files[n]];
    }
  }

  /** Truncation takes lines away unless the name is new or its file is empty. */
  lemma {:induction false} TruncatedIff(files: seq<File>, second: int)
    requires forall i :: 0 <= i < |files| ==> |files[i].lines| > 0
    ensures |Truncated(files, second)| == 0 <==> Unnamed(files, second)
  {
    if |files| > 0 {
      var n := |files| - 1;
      TruncatedIff(files[..n], second);
      assert forall i :: 0 <= i < n ==> files[i] == files[..n][i];
    }
  }

  lemma LinesSnoc(files: seq<File>, f: File)
    ensures Lines(files + [f]) == Lines(files) + f.lines
  {
    assert (files + [f])[..|files|] == files;
  }

  lemma CutOne(a: multiset<Text>, b: multiset<Text>, c: multiset<Text>)
    ensures a + b + c == a + (b + c) == a + c + b
  {
  }

  /** The lines of all files are those of the others and those truncated. */
  lemma {:induction false} LinesOthers(files: seq<File>, second: int)
    ensures multiset(Lines(files)) == multiset(Lines(Others(files, second))) + multiset(Truncated(files, second))
  {
    if |files| > 0 {
      var n := |files| - 1;
      var others, cut, lines := Others(files[..n], second), Truncated(files[..n], second), files[n].lines;
      LinesOthers(files[..n], second);
      CountConcat(Lines(files[..n]), lines);
      CutOne(multiset(Lines(others)), multiset(cut), multiset(lines));
      if files[n].second == second {
        assert others + [] == others;
        CountConcat(cut, lines);
      } else {
        assert cut + [] == cut;
        LinesSnoc(others, files[n]);
        CountConcat(Lines(others), lines);
      }
    }
  }

  lemma LinesCreate(files: seq<File>, second: int)
    ensures multiset(Lines(files)) == multiset(Lines(Create(files, second))) + multiset(Truncated(files, second))
    ensures Unnamed(files, second) ==> Lines(Create(files, second)) == Lines(files)
  {
    LinesOthers(files, second);
    OthersKept(files, second);
    LinesSnoc(Others(files, second), File(second, []));
    assert Lines(Others(files, second)) + [] == Lines(Others(files, second));
  }

  lemma LinesWrite(files: seq<File>, line: Text)
    requires |files| > 0
    ensures Lines(WriteLast(files, line)) == Lines(files) + [line]
  {
    var n := |files| - 1;
    var more := WriteLast(files, line);
    assert more[..n] == files[..n] && more[n].lines == files[n].lines + [line];
    Associate(Lines(files[..n]), files[n].lines, [line]);
  }

  lemma StepConserves(s: Log, e: Step)
    requires Conserved(s) && Possible(s, e) && NewSecond(s, e)
    ensures Conserved(Do(s, e))
  {
    match e {
      case Accept(line) => Associate(Lines(s.files), s.queue, [line]);
      case Check(second) => if MustRoll(s) { LinesCreate(s.files, second); }
      case WriteNext =>
        LinesWrite(s.files, s.queue[0]);
        assert s.queue == [s.queue[0]] + s.queue[1..];
        Associate(Lines(s.files), [s.queue[0]], s.queue[1..]);
      case _ =>
    }
  }

  lemma CountConcat(a: seq<Text>, b: seq<Text>)
    ensures multiset(a + b) == multiset(a) + multiset(b)
  {
  }

  lemma Cut(files: multiset<Text>, cut: multiset<Text>, queue: multiset<Text>, lost: multiset<Text>)
    ensures files + cut + queue + lost == files + queue + (lost + cut)
  {
  }

  lemma Written(files: multiset<Text>, line: multiset<Text>, rest: multiset<Text>, lost: multiset<Text>)
    ensures files + (line + rest) + lost == files + line + rest + lost
  {
  }

  lemma Queued(files: multiset<Text>, queue: multiset<Text>, line: multiset<Text>, lost: multiset<Text>)
    ensures files + (queue + line) + lost == files + queue + lost + line
  {
  }

  lemma StepBalances(s: Log, e: Step)
    requires Balanced(s) && Possible(s, e)
    ensures Balanced(Do(s, e))
  {
    var files, queue, lost := multiset(Lines(s.files)), multiset(s.queue), multiset(s.lost);
    match e {
      case Accept(line) =>
        CountConcat(s.accepted, [line]);
        CountConcat(s.queue, [line]);
        Queued(files, queue, multiset([line]), lost);
      case Check(second) =>
        if MustRoll(s) {
          LinesCreate(s.files, second);
          CountConcat(s.lost, Truncated(s.files, second));
          Cut(multiset(Lines(Create(s.files, second))), multiset(Truncated(s.files, second)), queue, lost);
        }
      case WriteNext =>
        LinesWrite(s.files, s.queue[0]);
        assert s.queue == [s.queue[0]] + s.queue[1..];
        CountConcat([s.queue[0]], s.queue[1..]);
        CountConcat(Lines(s.files), [s.queue[0]]);
        Written(files, multiset([s.queue[0]]), multiset(s.queue[1..]), lost);
      case _ =>
    }
  }

  lemma SizeSnoc(lines: seq<Text>, line: Text)
    ensures Size(lines + [line]) == Size(lines) + |line|
    ensures (lines + [line])[..|lines|] == lines
  {
  }

  lemma WriteKeepsRolled(s: Log)
    requires Rolled(s) && Possible(s, WriteNext)
    ensures Rolled(Do(s, WriteNext))
  {
    var n := |s.files| - 1;
    SizeSnoc(s.files[n].lines, s.queue[0]);
  }

  lemma RollKeepsRolled(s: Log, second: int)
    requires Rolled(s) && Possible(s, Check(second)) && MustRoll(s)
    ensures Rolled(Do(s, Check(second)))
  {
    OthersKept(s.files, second);
    AllFull(s);
    OthersFull(Others(s.files, second), s.files, s.rollSize);
  }

  lemma OthersFull(others: seq<File>, files: seq<File>, rollSize: nat)
    requires forall i :: 0 <= i < |others| ==> others[i] in files
    requires forall i :: 0 <= i < |files| ==> Full(files[i], rollSize) && WithinRoll(files[i], rollSize)
    ensures forall i :: 0 <= i < |others| ==> Full(others[i], rollSize) && WithinRoll(others[i], rollSize)
  {
  }

  /** When it is time to roll, every file is full, the open one too. */
  lemma AllFull(s: Log)
    requires Rolled(s) && s.pc == Checking && MustRoll(s)
    ensures forall i :: 0 <= i < |s.files| ==> Full(s.files[i], s.rollSize)
  {
  }

  lemma StepKeepsRolled(s: Log, e: Step)
    requires Rolled(s) && Possible(s, e)
    ensures Rolled(Do(s, e))
  {
    if e.WriteNext? {
      WriteKeepsRolled(s);
    } else if e.Check? && MustRoll(s) {
      RollKeepsRolled(s, e.second);
    }
  }

  /** A step loses lines if and only if it rolls in a second that names a file. */
  lemma StepLosesIff(s: Log, e: Step)
    requires Rolled(s) && Possible(s, e)
    ensures |Do(s, e).lost| >= |s.lost|
    ensures |Do(s, e).lost| == |s.lost| <==> NewSecond(s, e)
  {
    if e.Check? && MustRoll(s) {
      AllFull(s);
      TruncatedIff(s.files, e.second);
    }
  }

  lemma StepKeepsInv(s: Log, e: Step)
    requires Inv(s) && Possible(s, e)
    ensures Inv(Do(s, e))
  {
    StepBalances(s, e);
    StepKeepsRolled(s, e);
    StepLosesIff(s, e);
    if |Do(s, e).lost| == 0 {
      StepConserves(s, e);
    }
  }

  ghost predicate PossibleRun(s: Log, es: seq<Step>)
    decreases |es|
  {
    es != [] ==> Possible(s, es[0]) && PossibleRun(Do(s, es[0]), es[1..])
  }

  ghost function Run(s: Log, es: seq<Step>): Log
    requires PossibleRun(s, es)
    decreases |es|
  {
    if es == [] then s else Run(Do(s, es[0]), es[1..])
  }

  /** Every roll of the run falls in a second that names no file yet. */
  ghost predicate RollsApart(s: Log, es: seq<Step>)
    requires PossibleRun(s, es)
    decreases |es|
  {
    es != [] ==> NewSecond(s, es[0]) && RollsApart(Do(s, es[0]), es[1..])
  }

  lemma {:induction false} RunKeepsInv(s: Log, es: seq<Step>)
    requires Inv(s) && PossibleRun(s, es)
    ensures Inv(Run(s, es)) && Run(s, es).rollSize == s.rollSize
    ensures |Run(s, es).lost| >= |s.lost|
    ensures |Run(s, es).lost| == |s.lost| <==> RollsApart(s, es)
    decreases |es|
  {
    if es != [] {
      StepKeepsInv(s, es[0]);
      StepLosesIff(s, es[0]);
      RunKeepsInv(Do(s, es[0]), es[1..]);
    }
  }

  lemma NewLogOk(rollSize: nat)
    ensures Inv(NewLog(rollSize))
  {
  }

  lemma ConservedIff(s: Log)
    requires Inv(s)
    ensures Conserved(s) <==> |s.lost| == 0
  {
    if Conserved(s) {
      CountConcat(Lines(s.files), s.queue);
      assert |multiset(s.accepted)| == |multiset(Lines(s.files)) + multiset(s.queue)| + |multiset(s.lost)|;
    }
  }

  // ----- the theorems ------------------------------------------------------

  /** In every run, whatever the roll size and whenever the rolls happen: the files together hold
      a prefix of the accepted lines, in order, and the queue the rest, if and only if every roll
      falls in a second that names no earlier file; what is missing otherwise is exactly what was
      truncated. */
  lemma FilesHoldPrefixIff(rollSize: nat, es: seq<Step>)
    requires PossibleRun(NewLog(rollSize), es)
    ensures Conserved(Run(NewLog(rollSize), es)) <==> RollsApart(NewLog(rollSize), es)
    ensures RollsApart(NewLog(rollSize), es) ==> Lines(Run(NewLog(rollSize), es).files) <= Run(NewLog(rollSize), es).accepted
    ensures Balanced(Run(NewLog(rollSize), es))
  {
    NewLogOk(rollSize);
    RunKeepsInv(NewLog(rollSize), es);
    ConservedIff(Run(NewLog(rollSize), es));
  }

  /** In every run, each file was below the roll size before its last line (unless that is its
      only one), and every file but the open one has reached it. */
  lemma FilesRollAtSize(rollSize: nat, es: seq<Step>, i: nat)
    requires PossibleRun(NewLog(rollSize), es) && i < |Run(NewLog(rollSize), es).files|
    ensures var files := Run(NewLog(rollSize), es).files;
            && (|files[i].lines| > 1 ==> Size(files[i].lines[..|files[i].lines| - 1]) < rollSize)
            && (i + 1 < |files| ==> Size(files[i].lines) >= rollSize)
  {
    NewLogOk(rollSize);
    RunKeepsInv(NewLog(rollSize), es);
    assert WithinRoll(Run(NewLog(rollSize), es).files[i], rollSize);
  }

  function AcceptedBy(es: seq<Step>): seq<Text> {
    if es == [] then [] else (if es[0].Accept? then [es[0].line] else []) + AcceptedBy(es[1..])
  }

  function CountWrites(es: seq<Step>): nat {
    if es == [] then 0 else (if es[0].WriteNext? then 1 else 0) + CountWrites(es[1..])
  }

  lemma {:induction false} RunRecords(s: Log, es: seq<Step>)
    requires PossibleRun(s, es)
    ensures Run(s, es).accepted == s.accepted + AcceptedBy(es)
    ensures |Run(s, es).queue| + CountWrites(es) == |s.queue| + |AcceptedBy(es)|
    ensures Run(s, es).exitFlag <==> s.exitFlag || SetExit in es
    ensures (s.pc == Exited ==> s.exitFlag) ==> (Run(s, es).pc == Exited ==> s.exitFlag || SetExit in es)
    decreases |es|
  {
    if es == [] {
      assert s.accepted + [] == s.accepted;
    } else {
      RunRecords(Do(s, es[0]), es[1..]);
      assert es == [es[0]] + es[1..];
      assert s.accepted + [] == s.accepted;
      Associate(s.accepted, if es[0].Accept? then [es[0].line] else [], AcceptedBy(es[1..]));
    }
  }

  /** Every line handed to the log is accepted, in order; each write takes one line off the queue;
      and the writer may leave only after it was told to. */
  lemma AcceptsEveryLine(rollSize: nat, es: seq<Step>)
    requires PossibleRun(NewLog(rollSize), es)
    ensures var s := Run(NewLog(rollSize), es);
            && s.accepted == AcceptedBy(es) && |s.queue| + CountWrites(es) == |AcceptedBy(es)|
            && (s.exitFlag <==> SetExit in es) && (s.pc == Exited ==> SetExit in es)
  {
    RunRecords(NewLog(rollSize), es);
    assert [] + AcceptedBy(es) == AcceptedBy(es);
  }

  /** When the writer leaves because of the exit flag, everything accepted by then is on file, if
      and only if every roll fell in a second that named no earlier file. */
  lemma ExitWritesEverythingIff(rollSize: nat, es: seq<Step>)
    requires PossibleRun(NewLog(rollSize), es) && Possible(Run(NewLog(rollSize), es), Quit)
    ensures Lines(Run(NewLog(rollSize), es).files) == Run(NewLog(rollSize), es).accepted <==>
              RollsApart(NewLog(rollSize), es)
  {
    FilesHoldPrefixIff(rollSize, es);
    var s := Run(NewLog(rollSize), es);
    assert Lines(s.files) + s.queue == Lines(s.files);
  }

  lemma RunCons(s: Log, e: Step, t: Log, es: seq<Step>, all: seq<Step>)
    requires all == [e] + es && Possible(s, e) && Do(s, e) == t && PossibleRun(t, es)
    ensures PossibleRun(s, all) && Run(s, all) == Run(t, es)
  {
    assert all[1..] == es;
  }

  lemma {:induction false} RunConcat(s: Log, a: seq<Step>, t: Log, b: seq<Step>, all: seq<Step>)
    requires all == a + b && PossibleRun(s, a) && Run(s, a) == t && PossibleRun(t, b)
    ensures PossibleRun(s, all) && Run(s, all) == Run(t, b)
    decreases |a|
  {
    if a == [] {
      assert all == b;
    } else {
      assert all[1..] == a[1..] + b;
      RunConcat(Do(s, a[0]), a[1..], t, b, all[1..]);
    }
  }

  /** A line is accepted, the log rolls, and the line goes into the new file. */
  function Round(line: Text, second: int): seq<Step> {
    [Accept(line), Check(second), WriteNext]
  }

  function AfterRound(s: Log, line: Text, second: int): Log {
    s.(files := Others(s.files, second) + [File(second, [line])], written := |line|,
       accepted := s.accepted + [line], lost := s.lost + Truncated(s.files, second))
  }

  lemma RoundRuns(s: Log, line: Text, second: int)
    requires s.pc == Checking && MustRoll(s) && s.queue == []
    ensures PossibleRun(s, Round(line, second)) && Run(s, Round(line, second)) == AfterRound(s, line, second)
  {
    var e0, e1, e2 := Accept(line), Check(second), WriteNext;
    var s1, s3 := s.(queue := [line], accepted := s.accepted + [line]), AfterRound(s, line, second);
    var s2 := s1.(files := Create(s.files, second), written := 0, pc := Waiting, lost := s3.lost);
    CreateThenWrite(s.files, second, line);
    assert s.queue + [line] == [line];
    RunCons(s2, e2, s3, [], [e2]);
    RunCons(s1, e1, s2, [e2], [e1, e2]);
    RunCons(s, e0, s1, [e1, e2], [e0, e1, e2]);
  }

  lemma CreateThenWrite(files: seq<File>, second: int, line: Text)
    ensures |Create(files, second)| > 0
    ensures WriteLast(Create(files, second), line) == Others(files, second) + [File(second, [line])]
  {
    var others := Others(files, second);
    assert (others + [File(second, [])])[..|others|] == others && [] + [line] == [line];
  }

  lemma OneFile(f: File, second: int)
    ensures Others([f], second) == if f.second == second then [] else [f]
    ensures Truncated([f], second) == if f.second == second then f.lines else []
    ensures Lines([f]) == f.lines
  {
    assert [f][..0] == [] && [] + f.lines == f.lines;
  }

  lemma TwoFiles(f: File, g: File)
    requires f.second != g.second
    ensures Others([f, g], f.second) == [g] && Truncated([f, g], f.second) == f.lines
    ensures Lines([f, g]) == f.lines + g.lines
  {
    OneFile(f, f.second);
    assert [f, g][..1] == [f];
    assert f.lines + [] == f.lines;
  }

  /** A roll in the second of the last one does lose lines: here the only one accepted. */
  lemma SameSecondRollLosesLine(line: Text, second: int)
    requires |line| > 0
    ensures var es := Round(line, second) + [Check(second)];
            && PossibleRun(NewLog(1), es)
            && var s := Run(NewLog(1), es); Lines(s.files) == s.queue == [] && s.accepted == s.lost == [line]
  {
    var f, g := File(second, [line]), File(second, []);
    var t := NewLog(1).(files := [f], written := |line|, accepted := [line]);
    var u := t.(files := [g], written := 0, pc := Waiting, lost := [line]);
    RoundRuns(NewLog(1), line, second);
    assert AfterRound(NewLog(1), line, second) == t;
    OneFile(f, second);
    OneFile(g, second);
    RunCons(t, Check(second), u, [], [Check(second)]);
    RunConcat(NewLog(1), Round(line, second), t, [Check(second)], Round(line, second) + [Check(second)]);
  }

  lemma TwoRounds(a: Text, b: Text, first: int, second: int, u: Log)
    requires |a| > 0 && first != second
    requires u == NewLog(1).(files := [File(first, [a]), File(second, [b])], written := |b|, accepted := [a, b])
    ensures PossibleRun(NewLog(1), Round(a, first) + Round(b, second))
    ensures Run(NewLog(1), Round(a, first) + Round(b, second)) == u
  {
    var s, t := NewLog(1), AfterRound(NewLog(1), a, first);
    RoundRuns(s, a, first);
    assert t.files == [File(first, [a])];
    OneFile(File(first, [a]), second);
    RoundRuns(t, b, second);
    assert AfterRound(t, b, second) == u;
    RunConcat(s, Round(a, first), t, Round(b, second), Round(a, first) + Round(b, second));
  }

  /** So does a roll in the second of any earlier one, as when the clock has been set back: here
      the first of two lines. */
  lemma RepeatedSecondLosesOlderFile(a: Text, b: Text, first: int, second: int)
    requires |a| > 0 && |b| > 0 && first != second
    ensures var es := Round(a, first) + Round(b, second) + [Check(first)];
            && PossibleRun(NewLog(1), es)
            && var s := Run(NewLog(1), es);
               s.queue == [] && Lines(s.files) == [b] && s.lost == [a] && s.accepted == [a, b]
  {
    var f, g, h := File(first, [a]), File(second, [b]), File(first, []);
    var u := NewLog(1).(files := [f, g], written := |b|, accepted := [a, b]);
    var v := u.(files := [g, h], written := 0, pc := Waiting, lost := [a]);
    TwoRounds(a, b, first, second, u);
    TwoFiles(f, g);
    TwoFiles(g, h);
    RunCons(u, Check(first), v, [], [Check(first)]);
    RunConcat(NewLog(1), Round(a, first) + Round(b, second), u, [Check(first)],
              Round(a, first) + Round(b, second) + [Check(first)]);
  }

  // ----- the class ---------------------------------------------------------

  /** What a series of fwrite calls takes in all. */
  function Total(answers: seq<nat>): nat {
    if |answers| == 0 then 0 else Total(answers[..|answers| - 1]) + answers[|answers| - 1]
  }

  lemma {:induction false} TotalGrows(answers: seq<nat>, i: nat)
    requires i <= |answers|
    ensures Total(answers[..i]) <= Total(answers)
    decreases |answers|
  {
    if i < |answers| {
      var front := answers[..|answers| - 1];
      assert answers[..i] == front[..i];
      TotalGrows(front, i);
    } else {
      assert answers[..i] == answers;
    }
  }

  function Min(a: nat, b: nat): nat {
    if a <= b then a else b
  }

  /** write2file, for as many fwrite calls as there are answers: each takes any part of what it is
      given, perhaps nothing. At every moment the file has grown by exactly the first bytes of the
      data, as many as were taken in all; the loop has ended if and only if that is all of them. */
  method Write2File(file: Text, data: Text, answers: seq<nat>) returns (file': Text, done: bool)
    ensures file' == file + data[..Min(Total(answers), |data|)]
    ensures done <==> |answers| > 0 && Total(answers) >= |data|
  {
    file' := file;
    done := false;
    var tmp := data;
    var i := 0;
    ghost var taken, k := 0, 0;
    while !done && i < |answers|
      invariant 0 <= i <= |answers| && taken == Total(answers[..i])
      invariant k == Min(taken, |data|) && tmp == data[k..] && file' == file + data[..k]
      invariant done <==> i > 0 && k == |data|
    {
      var ret := Min(answers[i], |tmp|);
      TotalStep(answers, i);
      WriteSome(file, data, k, ret);
      file' := file' + tmp[..ret];
      tmp := tmp[ret..];
      done := |tmp| == 0;
      taken, k := taken + answers[i], k + ret;
      i := i + 1;
    }
    TotalGrows(answers, i);
    assert i == |answers| ==> answers[..i] == answers;
    assert k == Min(Total(answers), |data|);
  }

  lemma TotalStep(answers: seq<nat>, i: nat)
    requires i < |answers|
    ensures Total(answers[..i + 1]) == Total(answers[..i]) + answers[i]
  {
    assert answers[..i + 1][..i] == answers[..i];
  }

  lemma WriteSome(file: Text, data: Text, k: nat, n: nat)
    requires k + n <= |data|
    ensures file + data[..k] + data[k..][..n] == file + data[..k + n]
    ensures data[k..][n..] == data[k + n..]
  {
  }

  class WhispLog {
    const rollSize: nat
    var queue: seq<Text>
    var exitFlag: bool
    var files: seq<File>
    var data: Text            // bytes of the open file
    var written: nat
    var pc: Pc
    ghost var accepted: seq<Text>
    ghost var lost: seq<Text>

    ghost function Abs(): Log
      reads this
    {
      Log(rollSize, queue, exitFlag, files, written, pc, accepted, lost)
    }

    /** The open file's bytes are its lines, one after the other; every line accepted is accounted
        for, and files roll at the roll size. */
    ghost predicate Valid()
      reads this
    {
      data == OpenBytes(files) && Inv(Abs())
    }

    constructor (rollSize: nat)
      ensures Valid() && Abs() == NewLog(rollSize)
    {
      this.rollSize := rollSize;
      queue, exitFlag, files, data, written, pc, accepted, lost := [], false, [], [], 0, Checking, [], [];
    }

    /** log_output for anything but FATAL. */
    method LogOutput(line: Text)
      requires Valid()
      modifies this
      ensures Valid() && Abs() == Do(old(Abs()), Accept(line))
    {
      StepKeepsInv(Abs(), Accept(line));
      Enqueue(line);
    }

    method Enqueue(line: Text)
      modifies this`queue, this`accepted
      ensures Abs() == Do(old(Abs()), Accept(line))
    {
      queue := queue + [line];
      accepted := accepted + [line];
    }

    /** The top of the writer's loop, at the given second. */
    method RollIfNeeded(second: int)
      requires Valid() && Possible(Abs(), Check(second))
      modifies this
      ensures Valid() && Abs() == Do(old(Abs()), Check(second))
    {
      StepKeepsInv(Abs(), Check(second));
      Roll(second);
    }

    method Roll(second: int)
      requires data == OpenBytes(files) && pc == Checking
      modifies this
      ensures data == OpenBytes(files) && Abs() == Do(old(Abs()), Check(second))
    {
      if |files| == 0 || written >= rollSize {
        lost := lost + Truncated(files, second);
        written := 0;
        CreateFile(second);
      }
      pc := Waiting;
    }

    method CreateFile(second: int)
      modifies this`files, this`data
      ensures files == Create(old(files), second) && data == OpenBytes(files)
    {
      CreateOpensEmpty(files, second);
      files := Create(files, second);
      data := [];
    }

    method AppendToOpenFile(line: Text, answers: seq<nat>)
      requires |files| > 0 && data == OpenBytes(files) && |answers| > 0 && Total(answers) >= |line|
      modifies this`files, this`data
      ensures files == WriteLast(old(files), line) && data == OpenBytes(files)
    {
      WriteExtendsOpen(files, line);
      var bytes, done := Write2File(data, line, answers);
      data := bytes;
      assert line[..|line|] == line;
      files := WriteLast(files, line);
    }

    /** The rest of the loop, once there is a line to write and given that writing it ends. */
    method WriteNextLine(answers: seq<nat>)
      requires Valid() && Possible(Abs(), WriteNext) && |answers| > 0 && Total(answers) >= |queue[0]|
      modifies this
      ensures Valid() && Abs() == Do(old(Abs()), WriteNext)
    {
      StepKeepsInv(Abs(), WriteNext);
      WriteLine(answers);
    }

    method WriteLine(answers: seq<nat>)
      requires data == OpenBytes(files) && Possible(Abs(), WriteNext) && |answers| > 0 && Total(answers) >= |queue[0]|
      modifies this
      ensures data == OpenBytes(files) && Abs() == Do(old(Abs()), WriteNext)
    {
      var line := queue[0];
      queue := queue[1..];
      AppendToOpenFile(line, answers);
      written := written + |line|;
      pc := Checking;
    }
  }

  /** The bytes of the open file. */
  function OpenBytes(files: seq<File>): Text {
    if |files| == 0 then [] else Concat(files[|files| - 1].lines)
  }

  lemma CreateOpensEmpty(files: seq<File>, second: int)
    ensures OpenBytes(Create(files, second)) == []
  {
  }

  lemma WriteExtendsOpen(files: seq<File>, line: Text)
    requires |files| > 0
    ensures OpenBytes(WriteLast(files, line)) == OpenBytes(files) + line
  {
    ConcatSnoc(files[|files| - 1].lines, line);
  }

  function Concat(lines: seq<Text>): Text {
    if |lines| == 0 then [] else Concat(lines[..|lines| - 1]) + lines[|lines| - 1]
  }

  lemma ConcatSnoc(lines: seq<Text>, line: Text)
    ensures Concat(lines + [line]) == Concat(lines) + line
  {
    assert (lines + [line])[..|lines|] == lines;
  }
}
