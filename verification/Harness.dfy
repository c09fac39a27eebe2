/**
 The handshake between benchmp_parent and its N children (lib_timing.c) as a state machine.

 Five signals travel over four pipes: children answer on one shared response pipe (ready, done
 and result data), and the parent sends start, result and exit bytes on pipes of their own.  Every
 select, read and write is a step of its own, so a child may see a byte and lose it to another
 child before it reads.  Bytes are tagged with their writer; the parent's steps never look at
 the tags.
 */
module Harness {
  import opened Counting

  /** parallel children, each taking reps samples and reporting a block of size bytes. */
  datatype Config = Config(n: nat, reps: nat, size: nat) {
    predicate Valid() {
      1 <= n && 1 <= reps && 1 <= size
    }
  }

  datatype Msg = Ready(child: nat) | Done(child: nat) | Data(child: nat, k: nat)

  /**
   Where a child is inside benchmp_interval.  StartSeen, Timing and SendReady(true) have
   state == timing_interval; SendDone and later have state == cooldown.
   */
  datatype Pc =
    | Warmup
    | StartSeen
    | SendReady(started: bool)
    | Timing(i: nat)
    | SendDone
    | Cooldown
    | ResultSeen
    | Reporting(sent: nat)
    | AwaitExit
    | Exited

  datatype Child = Child(pc: Pc, ready: bool)

  datatype Parent =
    | CollectReady(got: nat)
    | SendStart(written: nat)
    | CollectDone(got: nat)
    | Signal
    | Gather(buf: seq<Msg>)
    | Disarm
    | SendExit(written: nat)
    | Finished

  /**
   order is a history variable: the children in the order in which they consumed their result
   byte.  merged holds the blocks the parent has reassembled.
   */
  datatype State = State(
    parent: Parent,
    children: seq<Child>,
    response: seq<Msg>,
    start: nat,
    result: nat,
    exit: nat,
    order: seq<nat>,
    merged: seq<seq<Msg>>)

  datatype Action =
    | PollStart(c: nat)
    | ReadStart(c: nat)
    | WriteReady(c: nat)
    | Interval(c: nat, recorded: bool, capped: bool)
    | WriteDone(c: nat)
    | PollResult(c: nat)
    | ReadResult(c: nat)
    | WriteBlock(c: nat, bytes: nat)
    | ReadExit(c: nat)
    | ReadReadies(bytes: nat)
    | WriteStart(bytes: nat)
    | ReadDones(bytes: nat)
    | WriteResult
    | ReadData(bytes: nat)
    | DisarmSigchld
    | WriteExit(bytes: nat)

  function Init(cfg: Config): State {
    State(CollectReady(0), seq(cfg.n, _ => Child(Warmup, false)), [], 0, 0, 0, [], [])
  }

  /** Bytes lo..hi of child c's result block. */
  function Block(c: nat, lo: nat, hi: nat): (b: seq<Msg>)
    requires lo <= hi
    ensures |b| == hi - lo
  {
    seq(hi - lo, k requires 0 <= k => Data(c, lo + k))
  }

  predicate At(s: State, c: nat, pc: Pc) {
    c < |s.children| && s.children[c].pc == pc
  }

  /** How many bytes a read of at most limit may return: at least one, at most what is there. */
  predicate Readable(s: State, bytes: nat, limit: int) {
    1 <= bytes <= |s.response| && bytes <= limit
  }

  predicate Enabled(cfg: Config, s: State, a: Action) {
    match a
    case PollStart(c) => At(s, c, Warmup)
    case ReadStart(c) => At(s, c, StartSeen) && s.start > 0
    case WriteReady(c) => c < |s.children| && s.children[c].pc.SendReady?
    case Interval(c, recorded, capped) =>
      c < |s.children| && s.children[c].pc.Timing? && (cfg.n > 1 ==> recorded && !capped)
    case WriteDone(c) => At(s, c, SendDone)
    case PollResult(c) => At(s, c, Cooldown)
    case ReadResult(c) => At(s, c, ResultSeen) && s.result > 0
    case WriteBlock(c, bytes) =>
      c < |s.children| && s.children[c].pc.Reporting? && 1 <= bytes && s.children[c].pc.sent + bytes <= cfg.size
    case ReadExit(c) => At(s, c, AwaitExit) && s.exit > 0
    case ReadReadies(bytes) => s.parent.CollectReady? && Readable(s, bytes, cfg.n - s.parent.got)
    case WriteStart(bytes) => s.parent.SendStart? && 1 <= bytes && s.parent.written + bytes <= cfg.n
    case ReadDones(bytes) => s.parent.CollectDone? && Readable(s, bytes, cfg.n - s.parent.got)
    case WriteResult => s.parent.Signal?
    case ReadData(bytes) => s.parent.Gather? && Readable(s, bytes, cfg.size - |s.parent.buf|)
    case DisarmSigchld => s.parent.Disarm?
    case WriteExit(bytes) => s.parent.SendExit? && 1 <= bytes && s.parent.written + bytes <= cfg.n
  }

  function Move(s: State, c: nat, pc: Pc): State
    requires c < |s.children|
  {
    s.(children := s.children[c := s.children[c].(pc := pc)])
  }

  function Apply(cfg: Config, s: State, a: Action): State
    requires Enabled(cfg, s, a)
  {
    match a
    // case warmup: select on start_signal, send 'ready' once
    case PollStart(c) =>
      if s.start > 0 then Move(s, c, StartSeen)
      else if !s.children[c].ready then Move(s, c, SendReady(false))
      else s
    case ReadStart(c) =>
      Move(s, c, if s.children[c].ready then Timing(0) else SendReady(true)).(start := s.start - 1)
    case WriteReady(c) =>
      var pc := if s.children[c].pc.started then Timing(0) else Warmup;
      s.(children := s.children[c := Child(pc, true)], response := s.response + [Ready(c)])
    // case timing_interval: one sample, cooldown after the last one
    case Interval(c, recorded, capped) =>
      var i := s.children[c].pc.i + Bit(recorded);
      Move(s, c, if capped || (recorded && i >= cfg.reps) then SendDone else Timing(i))
    case WriteDone(c) =>
      Move(s, c, Cooldown).(response := s.response + [Done(c)])
    // case cooldown: select on result_signal, then report and wait for exit
    case PollResult(c) =>
      if s.result > 0 then Move(s, c, ResultSeen) else s
    case ReadResult(c) =>
      Move(s, c, Reporting(0)).(result := s.result - 1, order := s.order + [c])
    case WriteBlock(c, bytes) =>
      var sent := s.children[c].pc.sent;
      Move(s, c, if sent + bytes == cfg.size then AwaitExit else Reporting(sent + bytes))
      .(response := s.response + Block(c, sent, sent + bytes))
    case ReadExit(c) =>
      Move(s, c, Exited).(exit := s.exit - 1)
    // benchmp_parent
    case ReadReadies(bytes) =>
      var got := s.parent.got + bytes;
      s.(response := s.response[bytes..], parent := if got == cfg.n then SendStart(0) else CollectReady(got))
    case WriteStart(bytes) =>
      var written := s.parent.written + bytes;
      s.(start := s.start + bytes, parent := if written == cfg.n then CollectDone(0) else SendStart(written))
    case ReadDones(bytes) =>
      var got := s.parent.got + bytes;
      s.(response := s.response[bytes..], parent := if got == cfg.n then Signal else CollectDone(got))
    case WriteResult =>
      s.(result := s.result + 1, parent := Gather([]))
    case ReadData(bytes) =>
      var buf := s.parent.buf + s.response[..bytes];
      var rest := s.(response := s.response[bytes..]);
      if |buf| < cfg.size then rest.(parent := Gather(buf))
      else rest.(merged := s.merged + [buf], parent := if |s.merged| + 1 == cfg.n then Disarm else Signal)
    case DisarmSigchld =>
      s.(parent := SendExit(0))
    case WriteExit(bytes) =>
      var written := s.parent.written + bytes;
      s.(exit := s.exit + bytes, parent := if written == cfg.n then Finished else SendExit(written))
  }

  // ---------- the invariant ----------

  predicate IsReady(c: Child) { c.ready }
  predicate IsStarted(c: Child) { !c.pc.Warmup? && !c.pc.StartSeen? && c.pc != SendReady(false) }
  predicate IsDone(c: Child) { c.pc.Cooldown? || c.pc.ResultSeen? || HasResult(c) }
  predicate HasResult(c: Child) { c.pc.Reporting? || c.pc.AwaitExit? || c.pc.Exited? }
  predicate IsExited(c: Child) { c.pc.Exited? }

  predicate AtStart(c: Child) {
    c.pc.Warmup? || (c.pc == SendReady(false) && !c.ready)
  }

  predicate InMiddle(c: Child) {
    c.ready && (c.pc.Warmup? || c.pc.StartSeen? || c.pc.Timing? || c.pc.SendDone? || c.pc.Cooldown?)
  }

  ghost predicate Quiet(s: State) {
    s.result == 0 && s.exit == 0 && s.order == [] && s.merged == []
  }

  ghost predicate InvReady(cfg: Config, s: State, got: nat) {
    && |s.children| == cfg.n && got < cfg.n && s.start == 0 && Quiet(s)
    && (forall c :: 0 <= c < cfg.n ==> AtStart(s.children[c]))
    && (forall k :: 0 <= k < |s.response| ==> s.response[k].Ready?)
    && got + |s.response| == Count(s.children, IsReady)
  }

  ghost predicate InvMiddle(cfg: Config, s: State, written: nat, got: nat) {
    && |s.children| == cfg.n && Quiet(s)
    && (forall c :: 0 <= c < cfg.n ==> InMiddle(s.children[c]))
    && (forall k :: 0 <= k < |s.response| ==> s.response[k].Done?)
    && written == s.start + Count(s.children, IsStarted)
    && got + |s.response| == Count(s.children, IsDone)
  }

  /** order lists, without repetition, exactly the children that have consumed a result byte. */
  ghost predicate OrderOk(cfg: Config, s: State) {
    && |s.children| == cfg.n
    && (forall j :: 0 <= j < |s.order| ==> s.order[j] < cfg.n)
    && (forall i, j :: 0 <= i < j < |s.order| ==> s.order[i] != s.order[j])
    && (forall c: nat :: c < cfg.n ==> (c in s.order <==> HasResult(s.children[c])))
    && |s.order| == Count(s.children, HasResult)
  }

  ghost predicate InvResults(cfg: Config, s: State) {
    && s.start == 0
    && OrderOk(cfg, s)
    && |s.merged| <= |s.order|
    && (forall c :: 0 <= c < cfg.n ==> s.children[c].ready && IsDone(s.children[c]))
    && (forall j :: 0 <= j < |s.merged| ==>
                      s.merged[j] == Block(s.order[j], 0, cfg.size) &&
                      (s.children[s.order[j]].pc.AwaitExit? || s.children[s.order[j]].pc.Exited?))
  }

  /** Nobody owns the response pipe. */
  ghost predicate Unowned(s: State) {
    s.response == [] && |s.order| == |s.merged|
  }

  /** The last child to consume a result byte owns the response pipe, and only its bytes are on it. */
  ghost predicate Owned(cfg: Config, s: State, buf: seq<Msg>) {
    && |s.children| == cfg.n
    && |s.order| == |s.merged| + 1
    && var owner := s.order[|s.merged|];
    && owner < cfg.n
    && var pc := s.children[owner].pc;
    && (pc.Reporting? || pc.AwaitExit?)
    && (pc.Reporting? ==> pc.sent < cfg.size)
    && buf + s.response == Block(owner, 0, if pc.Reporting? then pc.sent else cfg.size)
  }

  ghost predicate Inv(cfg: Config, s: State) {
    && cfg.Valid()
    && |s.children| == cfg.n
    && match s.parent
       case CollectReady(got) => InvReady(cfg, s, got)
       case SendStart(written) => InvMiddle(cfg, s, written, 0) && written < cfg.n
       case CollectDone(got) => InvMiddle(cfg, s, cfg.n, got) && got < cfg.n
       case Signal =>
         InvResults(cfg, s) && |s.merged| < cfg.n && s.result == 0 && s.exit == 0 && Unowned(s)
         && Count(s.children, IsExited) == 0
       case Gather(buf) =>
         && InvResults(cfg, s) && |s.merged| < cfg.n && s.exit == 0 && |buf| < cfg.size
         && Count(s.children, IsExited) == 0
         && (if s.result == 0 then Owned(cfg, s, buf) else s.result == 1 && Unowned(s) && buf == [])
       case Disarm =>
         InvResults(cfg, s) && |s.merged| == cfg.n && s.result == 0 && s.exit == 0 && Unowned(s)
         && Count(s.children, IsExited) == 0
       case SendExit(written) =>
         InvResults(cfg, s) && |s.merged| == cfg.n && s.result == 0 && Unowned(s) && written < cfg.n
         && written == s.exit + Count(s.children, IsExited)
       case Finished =>
         InvResults(cfg, s) && |s.merged| == cfg.n && s.result == 0 && Unowned(s)
         && cfg.n == s.exit + Count(s.children, IsExited)
  }

  // ---------- every step keeps the invariant ----------

  lemma InitInv(cfg: Config)
    requires cfg.Valid()
    ensures Inv(cfg, Init(cfg))
  {
    CountZero(Init(cfg).children, IsReady);
  }

  /** What moving child c does to the counts the invariant speaks of. */
  lemma CountsAfter(s: State, c: nat, x: Child)
    requires c < |s.children|
    ensures var t := s.children[c := x];
            && Count(t, IsReady) + Bit(s.children[c].ready) == Count(s.children, IsReady) + Bit(x.ready)
            && Count(t, IsStarted) + Bit(IsStarted(s.children[c])) == Count(s.children, IsStarted) + Bit(IsStarted(x))
            && Count(t, IsDone) + Bit(IsDone(s.children[c])) == Count(s.children, IsDone) + Bit(IsDone(x))
            && Count(t, HasResult) + Bit(HasResult(s.children[c])) == Count(s.children, HasResult) + Bit(HasResult(x))
            && Count(t, IsExited) + Bit(IsExited(s.children[c])) == Count(s.children, IsExited) + Bit(IsExited(x))
  {
    CountUpdate(s.children, c, x, IsReady);
    CountUpdate(s.children, c, x, IsStarted);
    CountUpdate(s.children, c, x, IsDone);
    CountUpdate(s.children, c, x, HasResult);
    CountUpdate(s.children, c, x, IsExited);
  }

  /** Frame for the collect-ready phase: one child moves, possibly writing its ready byte. */
  lemma ReadyMove(cfg: Config, s: State, s': State, c: nat, got: nat)
    requires InvReady(cfg, s, got) && c < cfg.n
    requires |s'.children| == cfg.n && s'.children == s.children[c := s'.children[c]] && AtStart(s'.children[c])
    requires s' == s.(children := s'.children, response := s'.response)
    requires s'.response == s.response || s'.response == s.response + [Ready(c)]
    requires got + |s'.response| == Count(s'.children, IsReady)
    ensures InvReady(cfg, s', got)
  {
  }

  /** Frame for the phases between the first start byte and the last done byte. */
  lemma MiddleMove(cfg: Config, s: State, s': State, c: nat, written: nat, got: nat)
    requires InvMiddle(cfg, s, written, got) && c < cfg.n
    requires |s'.children| == cfg.n && s'.children == s.children[c := s'.children[c]] && InMiddle(s'.children[c])
    requires Quiet(s')
    requires s'.response == s.response || s'.response == s.response + [Done(c)]
    requires written == s'.start + Count(s'.children, IsStarted)
    requires got + |s'.response| == Count(s'.children, IsDone)
    ensures InvMiddle(cfg, s', written, got)
  {
  }

  lemma StepReadyChild(cfg: Config, s: State, a: Action)
    requires Inv(cfg, s) && Enabled(cfg, s, a) && s.parent.CollectReady?
    requires a.PollStart? || a.WriteReady?
    ensures Inv(cfg, Apply(cfg, s, a))
  {
    var s' := Apply(cfg, s, a);
    CountsAfter(s, a.c, s'.children[a.c]);
    ReadyMove(cfg, s, s', a.c, s.parent.got);
  }

  lemma StepMiddleChild(cfg: Config, s: State, a: Action, written: nat, got: nat)
    requires InvMiddle(cfg, s, written, got) && Enabled(cfg, s, a)
    requires a.PollStart? || a.ReadStart? || a.Interval? || a.WriteDone?
    ensures InvMiddle(cfg, Apply(cfg, s, a), written, got)
  {
    var s' := Apply(cfg, s, a);
    MiddleStep(cfg, s, a, written, got);
    hide Apply, Enabled, IsStarted, IsDone, InMiddle;
    CountUpdate(s.children, a.c, s'.children[a.c], IsStarted);
    CountUpdate(s.children, a.c, s'.children[a.c], IsDone);
    MiddleMove(cfg, s, s', a.c, written, got);
  }

  /** What such a step does to its child and to the pipes. */
  lemma MiddleStep(cfg: Config, s: State, a: Action, written: nat, got: nat)
    requires InvMiddle(cfg, s, written, got) && Enabled(cfg, s, a)
    requires a.PollStart? || a.ReadStart? || a.Interval? || a.WriteDone?
    ensures var s' := Apply(cfg, s, a);
            && a.c < cfg.n == |s'.children| && s'.children == s.children[a.c := s'.children[a.c]] && InMiddle(s'.children[a.c])
            && s' == s.(children := s'.children, response := s'.response, start := s'.start)
            && (s'.response == s.response || s'.response == s.response + [Done(a.c)])
            && s'.start + Bit(IsStarted(s'.children[a.c])) == s.start + Bit(IsStarted(s.children[a.c]))
            && |s'.response| + Bit(IsDone(s.children[a.c])) == |s.response| + Bit(IsDone(s'.children[a.c]))
  {
  }

  lemma StepEarlyChild(cfg: Config, s: State, a: Action)
    requires Inv(cfg, s) && Enabled(cfg, s, a)
    requires a.PollStart? || a.ReadStart? || a.WriteReady? || a.Interval? || a.WriteDone?
    ensures Inv(cfg, Apply(cfg, s, a))
  {
    var c := s.children[a.c];
    assert !IsDone(c);
    match s.parent {
      case CollectReady(got) =>
        assert AtStart(c);
        StepReadyChild(cfg, s, a);
      case SendStart(written) =>
        assert InMiddle(c);
        StepMiddleChild(cfg, s, a, written, 0);
      case CollectDone(got) =>
        assert InMiddle(c);
        StepMiddleChild(cfg, s, a, cfg.n, got);
      case _ => assert false;
    }
  }

  lemma StepReadReadies(cfg: Config, s: State, bytes: nat)
    requires Inv(cfg, s) && Enabled(cfg, s, ReadReadies(bytes))
    ensures Inv(cfg, Apply(cfg, s, ReadReadies(bytes)))
  {
    var s' := Apply(cfg, s, ReadReadies(bytes));
    var got := s.parent.got + bytes;
    if got == cfg.n {
      CountFull(s.children, IsReady);
      CountZero(s.children, IsStarted);
      CountZero(s.children, IsDone);
      assert InvMiddle(cfg, s', 0, 0);
    } else {
      assert InvReady(cfg, s', got);
    }
  }

  lemma StepWriteStart(cfg: Config, s: State, bytes: nat)
    requires Inv(cfg, s) && Enabled(cfg, s, WriteStart(bytes))
    ensures Inv(cfg, Apply(cfg, s, WriteStart(bytes)))
  {
    assert InvMiddle(cfg, Apply(cfg, s, WriteStart(bytes)), s.parent.written + bytes, 0);
  }

  /** When the last done byte is read, every child is in cooldown and every start byte was used. */
  lemma AllDone(cfg: Config, s: State, got: nat)
    requires InvMiddle(cfg, s, cfg.n, got) && Count(s.children, IsDone) == cfg.n
    ensures forall c :: 0 <= c < cfg.n ==> s.children[c].ready && s.children[c].pc.Cooldown?
    ensures s.start == 0 && Count(s.children, HasResult) == 0 && Count(s.children, IsExited) == 0
  {
    CountFull(s.children, IsDone);
    CountFull(s.children, IsStarted);
    CountZero(s.children, HasResult);
    CountZero(s.children, IsExited);
  }

  lemma StepReadDones(cfg: Config, s: State, bytes: nat)
    requires Inv(cfg, s) && Enabled(cfg, s, ReadDones(bytes))
    ensures Inv(cfg, Apply(cfg, s, ReadDones(bytes)))
  {
    var s' := Apply(cfg, s, ReadDones(bytes));
    var got := s.parent.got + bytes;
    if got == cfg.n {
      AllDone(cfg, s, s.parent.got);
      assert InvResults(cfg, s');
    } else {
      assert InvMiddle(cfg, s', cfg.n, got);
    }
  }

  // ---------- the results phase ----------

  /** Frame for the results phase: a child that is not merged yet moves without consuming a result byte. */
  lemma ResultsMove(cfg: Config, s: State, s': State, c: nat)
    requires InvResults(cfg, s) && c < cfg.n
    requires |s'.children| == cfg.n && s'.children == s.children[c := s'.children[c]]
    requires s'.start == s.start && s'.order == s.order && s'.merged == s.merged
    requires s'.children[c].ready && IsDone(s'.children[c])
    requires HasResult(s'.children[c]) == HasResult(s.children[c])
    requires s.children[c].pc.AwaitExit? || s.children[c].pc.Exited? ==>
               s'.children[c].pc.AwaitExit? || s'.children[c].pc.Exited?
    ensures InvResults(cfg, s')
  {
    CountsAfter(s, c, s'.children[c]);
  }

  lemma StepPollResult(cfg: Config, s: State, c: nat)
    requires Inv(cfg, s) && Enabled(cfg, s, PollResult(c))
    ensures Inv(cfg, Apply(cfg, s, PollResult(c)))
  {
    if s.result > 0 {
      var s' := Apply(cfg, s, PollResult(c));
      assert s.parent.Gather?;
      CountsAfter(s, c, s'.children[c]);
      ResultsMove(cfg, s, s', c);
    }
  }

  lemma OrderGrows(cfg: Config, s: State, s': State, c: nat)
    requires OrderOk(cfg, s) && c < cfg.n && !HasResult(s.children[c])
    requires |s'.children| == cfg.n && s'.children == s.children[c := s'.children[c]] && HasResult(s'.children[c])
    requires s'.order == s.order + [c]
    ensures OrderOk(cfg, s')
  {
    CountUpdate(s.children, c, s'.children[c], HasResult);
    assert c !in s.order;
  }

  lemma StepReadResult(cfg: Config, s: State, c: nat)
    requires Inv(cfg, s) && Enabled(cfg, s, ReadResult(c))
    ensures Inv(cfg, Apply(cfg, s, ReadResult(c)))
  {
    var s' := Apply(cfg, s, ReadResult(c));
    assert s.parent.Gather?;
    CountUpdate(s.children, c, s'.children[c], IsExited);
    OrderGrows(cfg, s, s', c);
    hide OrderOk;
    assert forall j :: 0 <= j < |s.merged| ==> s'.order[j] == s.order[j];
    assert InvResults(cfg, s');
    assert Owned(cfg, s', []);
  }

  lemma BlockExtend(c: nat, lo: nat, mid: nat, hi: nat)
    requires lo <= mid <= hi
    ensures Block(c, lo, mid) + Block(c, mid, hi) == Block(c, lo, hi)
  {
  }

  lemma OwnerWrites(cfg: Config, s: State, s': State, buf: seq<Msg>, bytes: nat)
    requires Owned(cfg, s, buf)
    requires var c := s.order[|s.merged|];
             && s.children[c].pc.Reporting? && 1 <= bytes && s.children[c].pc.sent + bytes <= cfg.size
             && Enabled(cfg, s, WriteBlock(c, bytes)) && s' == Apply(cfg, s, WriteBlock(c, bytes))
    ensures Owned(cfg, s', buf)
  {
    var c := s.order[|s.merged|];
    var sent := s.children[c].pc.sent;
    BlockExtend(c, 0, sent, sent + bytes);
    assert buf + s'.response == (buf + s.response) + Block(c, sent, sent + bytes);
  }

  lemma StepWriteBlock(cfg: Config, s: State, c: nat, bytes: nat)
    requires Inv(cfg, s) && Enabled(cfg, s, WriteBlock(c, bytes))
    ensures Inv(cfg, Apply(cfg, s, WriteBlock(c, bytes)))
  {
    var s' := Apply(cfg, s, WriteBlock(c, bytes));
    assert c in s.order;
    assert s.parent.Gather? && s.result == 0;
    assert c == s.order[|s.merged|];
    CountUpdate(s.children, c, s'.children[c], IsExited);
    ResultsMove(cfg, s, s', c);
    OwnerWrites(cfg, s, s', s.parent.buf, bytes);
  }

  lemma StepWriteResult(cfg: Config, s: State)
    requires Inv(cfg, s) && Enabled(cfg, s, WriteResult)
    ensures Inv(cfg, Apply(cfg, s, WriteResult))
  {
    assert InvResults(cfg, Apply(cfg, s, WriteResult));
  }

  /** Reading some bytes off the pipe moves them to the buffer. */
  lemma ReadMoves(buf: seq<Msg>, response: seq<Msg>, bytes: nat)
    requires bytes <= |response|
    ensures (buf + response[..bytes]) + response[bytes..] == buf + response
  {
  }

  lemma StepReadSome(cfg: Config, s: State, bytes: nat)
    requires Inv(cfg, s) && Enabled(cfg, s, ReadData(bytes)) && |s.parent.buf| + bytes < cfg.size
    ensures Inv(cfg, Apply(cfg, s, ReadData(bytes)))
  {
    var s' := Apply(cfg, s, ReadData(bytes));
    ReadMoves(s.parent.buf, s.response, bytes);
    assert InvResults(cfg, s');
    assert Owned(cfg, s', s.parent.buf + s.response[..bytes]);
  }

  lemma StepReadLast(cfg: Config, s: State, bytes: nat)
    requires Inv(cfg, s) && Enabled(cfg, s, ReadData(bytes)) && |s.parent.buf| + bytes == cfg.size
    ensures Inv(cfg, Apply(cfg, s, ReadData(bytes)))
  {
    var s' := Apply(cfg, s, ReadData(bytes));
    var buf' := s.parent.buf + s.response[..bytes];
    ReadMoves(s.parent.buf, s.response, bytes);
    assert |buf' + s.response[bytes..]| <= cfg.size;
    assert s.response[bytes..] == [];
    assert buf' == Block(s.order[|s.merged|], 0, cfg.size);
    assert s'.merged[|s.merged|] == buf';
    assert InvResults(cfg, s');
  }

  lemma StepReadData(cfg: Config, s: State, bytes: nat)
    requires Inv(cfg, s) && Enabled(cfg, s, ReadData(bytes))
    ensures Inv(cfg, Apply(cfg, s, ReadData(bytes)))
  {
    hide Inv, Apply;
    if |s.parent.buf| + bytes < cfg.size {
      StepReadSome(cfg, s, bytes);
    } else {
      StepReadLast(cfg, s, bytes);
    }
  }

  lemma StepExit(cfg: Config, s: State, a: Action)
    requires Inv(cfg, s) && Enabled(cfg, s, a)
    requires a.DisarmSigchld? || a.WriteExit?
    ensures Inv(cfg, Apply(cfg, s, a))
  {
    assert InvResults(cfg, Apply(cfg, s, a));
  }

  lemma StepReadExit(cfg: Config, s: State, c: nat)
    requires Inv(cfg, s) && Enabled(cfg, s, ReadExit(c))
    ensures Inv(cfg, Apply(cfg, s, ReadExit(c)))
  {
    var s' := Apply(cfg, s, ReadExit(c));
    assert s.parent.SendExit? || s.parent.Finished?;
    CountsAfter(s, c, s'.children[c]);
    ResultsMove(cfg, s, s', c);
  }

  lemma StepChildInv(cfg: Config, s: State, a: Action)
    requires Inv(cfg, s) && Enabled(cfg, s, a)
    requires a.PollResult? || a.ReadResult? || a.WriteBlock? || a.ReadExit?
    ensures Inv(cfg, Apply(cfg, s, a))
  {
    hide Inv, Apply;
    match a
    case PollResult(c) => StepPollResult(cfg, s, c);
    case ReadResult(c) => StepReadResult(cfg, s, c);
    case WriteBlock(c, bytes) => StepWriteBlock(cfg, s, c, bytes);
    case ReadExit(c) => StepReadExit(cfg, s, c);
  }

  lemma StepParentInv(cfg: Config, s: State, a: Action)
    requires Inv(cfg, s) && Enabled(cfg, s, a)
    requires a.ReadReadies? || a.WriteStart? || a.ReadDones? || a.WriteResult? || a.ReadData?
    ensures Inv(cfg, Apply(cfg, s, a))
  {
    hide Inv, Apply;
    match a
    case ReadReadies(bytes) => StepReadReadies(cfg, s, bytes);
    case WriteStart(bytes) => StepWriteStart(cfg, s, bytes);
    case ReadDones(bytes) => StepReadDones(cfg, s, bytes);
    case WriteResult => StepWriteResult(cfg, s);
    case ReadData(bytes) => StepReadData(cfg, s, bytes);
  }

  lemma StepInv(cfg: Config, s: State, a: Action)
    requires Inv(cfg, s) && Enabled(cfg, s, a)
    ensures Inv(cfg, Apply(cfg, s, a))
  {
    hide Inv, Apply;
    if a.PollStart? || a.ReadStart? || a.WriteReady? || a.Interval? || a.WriteDone? {
      StepEarlyChild(cfg, s, a);
    } else if a.PollResult? || a.ReadResult? || a.WriteBlock? || a.ReadExit? {
      StepChildInv(cfg, s, a);
    } else if a.DisarmSigchld? || a.WriteExit? {
      StepExit(cfg, s, a);
    } else {
      StepParentInv(cfg, s, a);
    }
  }
}
