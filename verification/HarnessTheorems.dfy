/** What the handshake of module Harness guarantees on every run. */
module HarnessTheorems {
  import opened Counting
  import opened Harness

  /** The actions of a run, in order, can all be taken from the initial state. */
  ghost predicate CanRun(cfg: Config, acts: seq<Action>)
    decreases |acts|, 0
  {
    acts == [] ||
    (CanRun(cfg, acts[..|acts| - 1]) && Enabled(cfg, Exec(cfg, acts[..|acts| - 1]), acts[|acts| - 1]))
  }

  ghost function Exec(cfg: Config, acts: seq<Action>): State
    requires CanRun(cfg, acts)
    decreases |acts|, 1
  {
    if acts == [] then Init(cfg)
    else Apply(cfg, Exec(cfg, acts[..|acts| - 1]), acts[|acts| - 1])
  }

  ghost predicate Reachable(cfg: Config, s: State) {
    cfg.Valid() && exists acts :: CanRun(cfg, acts) && Exec(cfg, acts) == s
  }

  lemma {:induction false} RunInv(cfg: Config, acts: seq<Action>)
    requires cfg.Valid() && CanRun(cfg, acts)
    ensures Inv(cfg, Exec(cfg, acts))
  {
    if acts == [] {
      InitInv(cfg);
    } else {
      var before := acts[..|acts| - 1];
      RunInv(cfg, before);
      StepInv(cfg, Exec(cfg, before), acts[|acts| - 1]);
    }
  }

  lemma ReachableInv(cfg: Config, s: State)
    requires Reachable(cfg, s)
    ensures Inv(cfg, s)
  {
    var acts :| CanRun(cfg, acts) && Exec(cfg, acts) == s;
    RunInv(cfg, acts);
  }

  // ---------- safety ----------

  /** The state field of the child says timing_interval. */
  predicate InTimingInterval(c: Child) {
    c.pc.StartSeen? || c.pc == SendReady(true) || c.pc.Timing?
  }

  /** The child has sent ready and has not consumed a result byte: it runs the benchmark. */
  predicate Engaged(c: Child) {
    c.ready && !HasResult(c)
  }

  lemma TimingMeansAllEngaged(cfg: Config, s: State, c: nat, d: nat)
    requires Reachable(cfg, s) && c < |s.children| && d < |s.children|
    requires InTimingInterval(s.children[c])
    ensures Engaged(s.children[d])
  {
    ReachableInv(cfg, s);
    assert !AtStart(s.children[c]) && !IsDone(s.children[c]);
  }

  /** Whatever the parent reads from the shared pipe is the kind of byte it is waiting for. */
  lemma ReadsOnlyWhatItWaitsFor(cfg: Config, s: State)
    requires Reachable(cfg, s)
    ensures s.parent.CollectReady? ==> forall m :: m in s.response ==> m.Ready?
    ensures s.parent.SendStart? || s.parent.CollectDone? ==> forall m :: m in s.response ==> m.Done?
    ensures s.parent.Signal? || s.parent.Disarm? || s.parent.SendExit? || s.parent.Finished? ==> s.response == []
  {
    ReachableInv(cfg, s);
  }

  /** While gathering, the pipe holds the next bytes of one child's block and nothing else. */
  lemma GathersOneBlock(cfg: Config, s: State)
    requires Reachable(cfg, s) && s.parent.Gather? && s.response != []
    ensures |s.merged| < |s.order|
    ensures s.response == Block(s.order[|s.merged|], |s.parent.buf|, |s.parent.buf| + |s.response|)
  {
    ReachableInv(cfg, s);
    RestOfBlock(s.parent.buf, s.response, s.order[|s.merged|]);
  }

  lemma RestOfBlock(buf: seq<Msg>, response: seq<Msg>, c: nat)
    requires buf + response == Block(c, 0, |buf| + |response|)
    ensures response == Block(c, |buf|, |buf| + |response|)
  {
    assert response == (buf + response)[|buf|..];
  }

  /** A child that is writing its block is the only one; the parent is gathering, with no signal in flight. */
  lemma ReporterOwnsPipe(cfg: Config, s: State, c: nat)
    requires Reachable(cfg, s) && c < |s.children| && s.children[c].pc.Reporting?
    ensures s.parent.Gather? && s.result == 0
    ensures s.parent.buf + s.response == Block(c, 0, s.children[c].pc.sent)
    ensures forall d :: 0 <= d < |s.children| && s.children[d].pc.Reporting? ==> d == c
  {
    hide Reachable;
    ReachableInv(cfg, s);
    ReporterPhase(cfg, s, c);
    hide Inv, Owned, OrderOk, InvResults;
    OneReporter(cfg, s, s.parent.buf, c);
    forall d: nat | d < |s.children| && s.children[d].pc.Reporting? ensures d == c {
      OneReporter(cfg, s, s.parent.buf, d);
    }
  }

  /** A block is written only while the parent gathers and no other result byte is out. */
  lemma ReporterPhase(cfg: Config, s: State, c: nat)
    requires Inv(cfg, s) && c < |s.children| && s.children[c].pc.Reporting?
    ensures s.parent.Gather? && s.result == 0 && InvResults(cfg, s) && Owned(cfg, s, s.parent.buf)
  {
    var x := s.children[c];
    assert IsDone(x) && !AtStart(x) && !InMiddle(x);
    if !s.parent.CollectReady? && !s.parent.SendStart? && !s.parent.CollectDone? && Unowned(s) {
      AllMerged(cfg, s, c);
    }
  }

  /** When every child of the order list is merged, nobody is writing. */
  lemma AllMerged(cfg: Config, s: State, c: nat)
    requires InvResults(cfg, s) && Unowned(s) && c < |s.children|
    ensures !s.children[c].pc.Reporting?
  {
    assert HasResult(s.children[c]) <==> c in s.order;
  }

  lemma OneReporter(cfg: Config, s: State, buf: seq<Msg>, c: nat)
    requires InvResults(cfg, s) && Owned(cfg, s, buf) && c < |s.children| && s.children[c].pc.Reporting?
    ensures |s.merged| < |s.order| && c == s.order[|s.merged|] && buf + s.response == Block(c, 0, s.children[c].pc.sent)
  {
    assert c in s.order;
  }

  /** Every block handed to the merge is one whole child block, and no child is merged twice. */
  lemma BlocksAreWhole(cfg: Config, s: State, j: nat)
    requires Reachable(cfg, s) && j < |s.merged|
    ensures j < |s.order| && s.order[j] < cfg.n && s.merged[j] == Block(s.order[j], 0, cfg.size)
    ensures forall i :: 0 <= i < j ==> s.order[i] != s.order[j]
  {
    ReachableInv(cfg, s);
  }

  /** Once all blocks are in, they are the blocks of all children, each exactly once. */
  lemma MergedIsEveryChildOnce(cfg: Config, s: State)
    requires Reachable(cfg, s) && (s.parent.Disarm? || s.parent.SendExit? || s.parent.Finished?)
    ensures |s.merged| == |s.order| == cfg.n
    ensures forall c: nat :: c < cfg.n ==> c in s.order
    ensures forall j :: 0 <= j < cfg.n ==> s.order[j] < cfg.n && s.merged[j] == Block(s.order[j], 0, cfg.size)
    ensures forall i, j :: 0 <= i < j < cfg.n ==> s.order[i] != s.order[j]
  {
    ReachableInv(cfg, s);
    CountFull(s.children, HasResult);
  }

  /** A child that has exited did so after SIGCHLD was disarmed and exit bytes were sent. */
  lemma NobodyExitsEarly(cfg: Config, s: State, c: nat)
    requires Reachable(cfg, s) && c < |s.children| && s.children[c].pc.Exited?
    ensures s.parent.Finished? || (s.parent.SendExit? && s.parent.written > 0)
  {
    ReachableInv(cfg, s);
    CountZero(s.children, IsExited);
    assert IsDone(s.children[c]) && !AtStart(s.children[c]) && !InMiddle(s.children[c]);
  }

  predicate WaitsForStart(c: Child) { c.pc.StartSeen? }

  predicate WaitsForResult(c: Child) { c.pc.ResultSeen? }

  /** Result bytes the parent has yet to write. */
  function SignalsLeft(cfg: Config, s: State): int {
    match s.parent
    case Signal => cfg.n - |s.merged|
    case Gather(_) => cfg.n - |s.merged| - 1
    case _ => 0
  }

  /**
   A child that saw a start or result byte and lost the race for it is not forgotten: the bytes in
   the pipe and still to be written are enough for all children waiting in read.
   */
  lemma LosersGetAnotherByte(cfg: Config, s: State)
    requires Reachable(cfg, s)
    ensures s.parent.CollectReady? ==> Count(s.children, WaitsForStart) == 0
    ensures s.parent.SendStart? ==> Count(s.children, WaitsForStart) <= s.start + cfg.n - s.parent.written
    ensures s.parent.CollectDone? ==> Count(s.children, WaitsForStart) <= s.start
    ensures !s.parent.CollectReady? && !s.parent.SendStart? && !s.parent.CollectDone? ==>
              Count(s.children, WaitsForResult) <= s.result + SignalsLeft(cfg, s)
  {
    ReachableInv(cfg, s);
    CountDisjoint(s.children, WaitsForStart, IsStarted);
    CountDisjoint(s.children, WaitsForResult, HasResult);
    if s.parent.CollectReady? {
      CountZero(s.children, WaitsForStart);
      assert forall c :: 0 <= c < cfg.n ==> AtStart(s.children[c]);
    }
  }

  /** Occurrences of one action in a run. */
  function Times(acts: seq<Action>, a: Action): nat {
    Count(acts, x => x == a)
  }

  lemma {:induction false} TimesSnoc(acts: seq<Action>, a: Action)
    requires acts != []
    ensures Times(acts, a) == Times(acts[..|acts| - 1], a) + Bit(acts[|acts| - 1] == a)
  {
    var n := |acts| - 1;
    if n == 0 {
      assert acts[1..] == [] && acts[..n] == [];
    } else {
      assert acts[..n][1..] == acts[1..][..n - 1];
      TimesSnoc(acts[1..], a);
    }
  }

  /** Each child writes at most one ready byte, then at most one done byte: the state says how many so far. */
  lemma {:induction false} OneReadyThenOneDone(cfg: Config, acts: seq<Action>, c: nat)
    requires cfg.Valid() && CanRun(cfg, acts) && c < cfg.n
    ensures |Exec(cfg, acts).children| == cfg.n
    ensures Times(acts, WriteReady(c)) == Bit(Exec(cfg, acts).children[c].ready)
    ensures Times(acts, WriteDone(c)) == Bit(IsDone(Exec(cfg, acts).children[c]))
    ensures Times(acts, WriteDone(c)) <= Times(acts, WriteReady(c))
  {
    RunInv(cfg, acts);
    if acts != [] {
      var before, a := acts[..|acts| - 1], acts[|acts| - 1];
      OneReadyThenOneDone(cfg, before, c);
      RunInv(cfg, before);
      TimesSnoc(acts, WriteReady(c));
      TimesSnoc(acts, WriteDone(c));
      WritesReadyOnce(cfg, Exec(cfg, before), a, c);
      WritesDoneOnce(cfg, Exec(cfg, before), a, c);
      DoneNeedsReady(cfg, Exec(cfg, acts), c);
    }
  }

  lemma WritesReadyOnce(cfg: Config, s: State, a: Action, c: nat)
    requires Inv(cfg, s) && Enabled(cfg, s, a) && c < cfg.n
    ensures |Apply(cfg, s, a).children| == cfg.n
    ensures Bit(Apply(cfg, s, a).children[c].ready) == Bit(s.children[c].ready) + Bit(a == WriteReady(c))
  {
    hide Inv;
    InvSize(cfg, s);
    if a.WriteReady? {
      WriterNotReady(cfg, s, a.c);
    }
  }

  lemma InvSize(cfg: Config, s: State)
    requires Inv(cfg, s)
    ensures |s.children| == cfg.n
  {
  }

  lemma WriterNotReady(cfg: Config, s: State, c: nat)
    requires Inv(cfg, s) && c < |s.children| && s.children[c].pc.SendReady?
    ensures !s.children[c].ready
  {
    var x := s.children[c];
    assert !IsDone(x) && !InMiddle(x);
    assert s.parent.CollectReady?;
    assert AtStart(x);
  }

  lemma WritesDoneOnce(cfg: Config, s: State, a: Action, c: nat)
    requires Enabled(cfg, s, a) && c < |s.children|
    ensures |Apply(cfg, s, a).children| == |s.children|
    ensures Bit(IsDone(Apply(cfg, s, a).children[c])) == Bit(IsDone(s.children[c])) + Bit(a == WriteDone(c))
  {
  }

  lemma DoneNeedsReady(cfg: Config, s: State, c: nat)
    requires Inv(cfg, s) && c < cfg.n
    ensures IsDone(s.children[c]) ==> s.children[c].ready
  {
    if IsDone(s.children[c]) {
      assert !AtStart(s.children[c]);
    }
  }

  // ---------- progress ----------

  function Max(a: int, b: int): int {
    if a >= b then a else b
  }

  /** Upper bound on the non-polling steps a child has left. */
  function Rank(cfg: Config, c: Child): nat {
    match c.pc
    case Exited => 0
    case AwaitExit => 1
    case Reporting(sent) => 1 + Max(0, cfg.size - sent)
    case ResultSeen => cfg.size + 2
    case Cooldown => cfg.size + 3
    case SendDone => cfg.size + 4
    case Timing(i) => cfg.size + 4 + Max(1, cfg.reps - i)
    case SendReady(started) => cfg.size + cfg.reps + (if started then 6 else 9)
    case StartSeen => cfg.size + cfg.reps + 7
    case Warmup => cfg.size + cfg.reps + (if c.ready then 8 else 10)
  }

  function Ranks(cfg: Config, cs: seq<Child>): nat {
    if cs == [] then 0 else Rank(cfg, cs[0]) + Ranks(cfg, cs[1..])
  }

  /** Bytes of r result blocks, plus one result signal for each. */
  function BlocksLeft(cfg: Config, r: nat): nat {
    if r == 0 then 0 else cfg.size + 1 + BlocksLeft(cfg, r - 1)
  }

  /** Upper bound on the reads and writes the parent has left. */
  function Work(cfg: Config, s: State): nat {
    var blocks := BlocksLeft(cfg, Max(0, cfg.n - |s.merged|)) + cfg.n + 2;
    match s.parent
    case CollectReady(got) => blocks + 2 * cfg.n + Max(0, cfg.n - got)
    case SendStart(written) => blocks + cfg.n + Max(0, cfg.n - written)
    case CollectDone(got) => blocks + Max(0, cfg.n - got)
    case Signal => blocks
    case Gather(buf) => Max(0, blocks - 1 - |buf|)
    case Disarm => cfg.n + 2
    case SendExit(written) => 1 + Max(0, cfg.n - written)
    case Finished => 0
  }

  function Measure(cfg: Config, s: State): nat {
    Ranks(cfg, s.children) + Work(cfg, s)
  }

  lemma {:induction false} RanksUpdate(cfg: Config, cs: seq<Child>, c: nat, x: Child)
    requires c < |cs|
    ensures Ranks(cfg, cs[c := x]) + Rank(cfg, cs[c]) == Ranks(cfg, cs) + Rank(cfg, x)
  {
    if c == 0 {
      assert cs[c := x][1..] == cs[1..];
    } else {
      assert cs[c := x][1..] == cs[1..][c - 1 := x];
      RanksUpdate(cfg, cs[1..], c - 1, x);
    }
  }

  predicate ParentActs(a: Action) {
    a.ReadReadies? || a.WriteStart? || a.ReadDones? || a.WriteResult? || a.ReadData? || a.DisarmSigchld? || a.WriteExit?
  }

  lemma ParentWorks(cfg: Config, s: State, a: Action)
    requires cfg.Valid() && Enabled(cfg, s, a) && ParentActs(a)
    requires |s.merged| <= cfg.n && (a.ReadData? || a.WriteResult? ==> |s.merged| < cfg.n)
    ensures Apply(cfg, s, a).children == s.children && Work(cfg, Apply(cfg, s, a)) < Work(cfg, s)
  {
    if a.ReadData? {
      assert BlocksLeft(cfg, cfg.n - |s.merged|) == cfg.size + 1 + BlocksLeft(cfg, cfg.n - |s.merged| - 1);
      var s' := Apply(cfg, s, a);
    }
  }

  lemma ChildRankDrops(cfg: Config, s: State, a: Action)
    requires cfg.Valid() && Enabled(cfg, s, a) && !ParentActs(a)
    ensures a.c < |s.children| && a.c < |Apply(cfg, s, a).children|
    ensures Apply(cfg, s, a) == s || Rank(cfg, Apply(cfg, s, a).children[a.c]) < Rank(cfg, s.children[a.c])
  {
    if a.Interval? && !a.recorded && !a.capped {
      assert Apply(cfg, s, a).children == s.children;
    }
  }

  lemma ChildWorks(cfg: Config, s: State, a: Action)
    requires cfg.Valid() && Enabled(cfg, s, a) && !ParentActs(a)
    ensures Apply(cfg, s, a) == s || Measure(cfg, Apply(cfg, s, a)) < Measure(cfg, s)
  {
    ChildRankDrops(cfg, s, a);
    var s' := Apply(cfg, s, a);
    assert s'.children == s.children[a.c := s'.children[a.c]];
    RanksUpdate(cfg, s.children, a.c, s'.children[a.c]);
  }

  /** Apart from polling (steps that change nothing), every step uses up the measure. */
  lemma StepsUseMeasure(cfg: Config, s: State, a: Action)
    requires Inv(cfg, s) && Enabled(cfg, s, a)
    ensures Apply(cfg, s, a) == s || Measure(cfg, Apply(cfg, s, a)) < Measure(cfg, s)
  {
    if ParentActs(a) {
      ParentWorks(cfg, s, a);
    } else {
      ChildWorks(cfg, s, a);
    }
  }

  ghost predicate Complete(s: State) {
    s.parent.Finished? && forall c :: 0 <= c < |s.children| ==> s.children[c].pc.Exited?
  }

  lemma ReadyProgress(cfg: Config, s: State) returns (a: Action)
    requires Inv(cfg, s) && s.parent.CollectReady?
    ensures Enabled(cfg, s, a) && Apply(cfg, s, a) != s
  {
    if s.response != [] {
      a := ReadReadies(1);
    } else {
      var c := CountGap(s.children, IsReady);
      assert AtStart(s.children[c]);
      a := if s.children[c].pc.Warmup? then PollStart(c) else WriteReady(c);
      assert Apply(cfg, s, a).children[c] != s.children[c];
    }
  }

  lemma DoneProgress(cfg: Config, s: State) returns (a: Action)
    requires Inv(cfg, s) && s.parent.CollectDone?
    ensures Enabled(cfg, s, a) && Apply(cfg, s, a) != s
  {
    if s.response != [] {
      a := ReadDones(1);
    } else {
      var c := CountGap(s.children, IsDone);
      var pc := s.children[c].pc;
      assert InMiddle(s.children[c]);
      if pc.Warmup? || pc.StartSeen? {
        CountFull(s.children, IsStarted);
        a := if pc.Warmup? then PollStart(c) else ReadStart(c);
      } else {
        a := if pc.Timing? then Interval(c, true, false) else WriteDone(c);
      }
      assert Apply(cfg, s, a).children[c] != s.children[c];
    }
  }

  lemma GatherProgress(cfg: Config, s: State) returns (a: Action)
    requires Inv(cfg, s) && s.parent.Gather?
    ensures Enabled(cfg, s, a) && Apply(cfg, s, a) != s
  {
    if s.result == 1 {
      var c := CountGap(s.children, HasResult);
      assert IsDone(s.children[c]);
      a := if s.children[c].pc.Cooldown? then PollResult(c) else ReadResult(c);
      assert Apply(cfg, s, a).children[c] != s.children[c];
    } else if s.response != [] {
      a := ReadData(1);
      assert |Apply(cfg, s, a).response| < |s.response|;
    } else {
      var owner := s.order[|s.merged|];
      assert s.parent.buf + s.response == s.parent.buf;
      a := WriteBlock(owner, 1);
      assert |Apply(cfg, s, a).response| == 1;
    }
  }

  lemma ExitProgress(cfg: Config, s: State) returns (a: Action)
    requires Inv(cfg, s) && s.parent.Finished? && !Complete(s)
    ensures Enabled(cfg, s, a) && Apply(cfg, s, a) != s
  {
    CountFull(s.children, IsExited);
    CountFull(s.children, HasResult);
    var c := CountGap(s.children, IsExited);
    assert c in s.order;
    a := ReadExit(c);
    assert Apply(cfg, s, a).children[c] != s.children[c];
  }

  /** No reachable state is stuck: until everyone has exited, some step makes progress. */
  lemma Progress(cfg: Config, acts: seq<Action>) returns (a: Action)
    requires cfg.Valid() && CanRun(cfg, acts) && !Complete(Exec(cfg, acts))
    ensures CanRun(cfg, acts + [a])
    ensures Measure(cfg, Exec(cfg, acts + [a])) < Measure(cfg, Exec(cfg, acts))
  {
    RunInv(cfg, acts);
    var s := Exec(cfg, acts);
    match s.parent {
      case CollectReady(_) => a := ReadyProgress(cfg, s);
      case SendStart(_) => a := WriteStart(1);
      case CollectDone(_) => a := DoneProgress(cfg, s);
      case Signal => a := WriteResult;
      case Gather(_) => a := GatherProgress(cfg, s);
      case Disarm => a := DisarmSigchld;
      case SendExit(_) => a := WriteExit(1);
      case Finished => a := ExitProgress(cfg, s);
    }
    StepsUseMeasure(cfg, s, a);
    assert (acts + [a])[..|acts|] == acts;
  }

  /** Steps of a run that were not polling. */
  ghost function Effective(cfg: Config, acts: seq<Action>): nat
    requires CanRun(cfg, acts)
  {
    if acts == [] then 0
    else
      var before := acts[..|acts| - 1];
      Effective(cfg, before) + Bit(Exec(cfg, acts) != Exec(cfg, before))
  }

  /** However the steps interleave, a run makes at most Measure(Init) of them besides polling. */
  lemma {:induction false} RunsAreBounded(cfg: Config, acts: seq<Action>)
    requires cfg.Valid() && CanRun(cfg, acts)
    ensures Effective(cfg, acts) + Measure(cfg, Exec(cfg, acts)) <= Measure(cfg, Init(cfg))
  {
    RunInv(cfg, acts);
    if acts != [] {
      var before := acts[..|acts| - 1];
      RunsAreBounded(cfg, before);
      RunInv(cfg, before);
      StepsUseMeasure(cfg, Exec(cfg, before), acts[|acts| - 1]);
    }
  }

  /** Any run can be continued to the end, where every child has been merged once and has exited. */
  lemma {:induction false} RunsComplete(cfg: Config, acts: seq<Action>) returns (all: seq<Action>)
    requires cfg.Valid() && CanRun(cfg, acts)
    ensures acts <= all && CanRun(cfg, all) && Complete(Exec(cfg, all))
    decreases Measure(cfg, Exec(cfg, acts))
  {
    if Complete(Exec(cfg, acts)) {
      all := acts;
    } else {
      var a := Progress(cfg, acts);
      all := RunsComplete(cfg, acts + [a]);
    }
  }
}
