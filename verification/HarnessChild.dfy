/** An uninterrupted call of benchmp_interval takes the steps that the handshake allows a child. */
module HarnessChild {
  import H = Harness
  import opened BenchmpChild
  import opened Results

  /** Where the handshake sees a child that is about to call benchmp_interval. */
  function ChildOf(v: View): H.Child {
    H.Child(match v.phase
            case Warmup => H.Warmup
            case TimingInterval => H.Timing(v.i)
            case Cooldown => H.Cooldown,
            !v.needWarmup)
  }

  /** The reads and writes that one call makes, in program order. */
  function ActionsOf(cfg: H.Config, v: View, x: Input, c: nat): seq<H.Action> {
    match v.phase
    case Warmup =>
      [H.PollStart(c)] + (if x.startByte then [H.ReadStart(c)] else [])
      + (if v.needWarmup then [H.WriteReady(c)] else [])
    case TimingInterval =>
      [H.Interval(c, Records(v, x.elapsed), GivesUp(v, x.elapsed))]
      + (if Timed(v, x.elapsed).phase.Cooldown? then [H.WriteDone(c)] else [])
    case Cooldown =>
      [H.PollResult(c)] + (if x.resultByte then [H.ReadResult(c), H.WriteBlock(c, cfg.size)] else [])
  }

  /** s' is reached from s by exactly these actions. */
  ghost predicate Takes(cfg: H.Config, s: H.State, acts: seq<H.Action>, s': H.State)
    decreases |acts|
  {
    if acts == [] then s == s'
    else H.Enabled(cfg, s, acts[0]) && Takes(cfg, H.Apply(cfg, s, acts[0]), acts[1..], s')
  }

  lemma Takes1(cfg: H.Config, s: H.State, a: H.Action)
    requires H.Enabled(cfg, s, a)
    ensures Takes(cfg, s, [a], H.Apply(cfg, s, a))
  {
    assert [a][1..] == [];
  }

  lemma TakesMore(cfg: H.Config, s: H.State, a: H.Action, acts: seq<H.Action>, s': H.State)
    requires H.Enabled(cfg, s, a) && Takes(cfg, H.Apply(cfg, s, a), acts, s')
    ensures Takes(cfg, s, [a] + acts, s')
  {
    assert ([a] + acts)[1..] == acts;
  }

  /** The protocol's view of the samples a child is to take. */
  predicate Fits(cfg: H.Config, v: View) {
    cfg.Valid() && cfg.n == v.parallel && cfg.reps == Wanted(v)
  }

  lemma WarmupCallRefines(cfg: H.Config, s: H.State, c: nat, v: View, x: Input) returns (s': H.State)
    requires Fits(cfg, v) && c < |s.children| && s.children[c] == ChildOf(v) && v.phase.Warmup?
    requires v.i == 0 && x.startByte == (s.start > 0)
    ensures Takes(cfg, s, ActionsOf(cfg, v, x, c), s')
    ensures c < |s'.children| && s'.children[c] == ChildOf(Step(v, x).0)
  {
    var s1 := H.Apply(cfg, s, H.PollStart(c));
    if x.startByte {
      var s2 := H.Apply(cfg, s1, H.ReadStart(c));
      if v.needWarmup {
        s' := H.Apply(cfg, s2, H.WriteReady(c));
        Takes1(cfg, s2, H.WriteReady(c));
        TakesMore(cfg, s1, H.ReadStart(c), [H.WriteReady(c)], s');
        TakesMore(cfg, s, H.PollStart(c), [H.ReadStart(c)] + [H.WriteReady(c)], s');
        assert [H.PollStart(c)] + [H.ReadStart(c)] + [H.WriteReady(c)] == [H.PollStart(c)] + ([H.ReadStart(c)] + [H.WriteReady(c)]);
      } else {
        s' := s2;
        Takes1(cfg, s1, H.ReadStart(c));
        TakesMore(cfg, s, H.PollStart(c), [H.ReadStart(c)], s');
        assert [H.PollStart(c)] + [H.ReadStart(c)] + [] == [H.PollStart(c)] + [H.ReadStart(c)];
      }
    } else if v.needWarmup {
      s' := H.Apply(cfg, s1, H.WriteReady(c));
      Takes1(cfg, s1, H.WriteReady(c));
      TakesMore(cfg, s, H.PollStart(c), [H.WriteReady(c)], s');
      assert [H.PollStart(c)] + [] + [H.WriteReady(c)] == [H.PollStart(c)] + [H.WriteReady(c)];
    } else {
      s' := s1;
      Takes1(cfg, s, H.PollStart(c));
      assert [H.PollStart(c)] + [] + [] == [H.PollStart(c)];
    }
  }

  lemma TimingCallRefines(cfg: H.Config, s: H.State, c: nat, v: View, x: Input) returns (s': H.State)
    requires Fits(cfg, v) && c < |s.children| && s.children[c] == ChildOf(v) && v.phase.TimingInterval?
    ensures Takes(cfg, s, ActionsOf(cfg, v, x, c), s')
    ensures c < |s'.children| && s'.children[c] == ChildOf(Step(v, x).0)
  {
    hide Resized, Insert;
    var a := H.Interval(c, Records(v, x.elapsed), GivesUp(v, x.elapsed));
    var s1 := H.Apply(cfg, s, a);
    if Timed(v, x.elapsed).phase.Cooldown? {
      s' := H.Apply(cfg, s1, H.WriteDone(c));
      Takes1(cfg, s1, H.WriteDone(c));
      TakesMore(cfg, s, a, [H.WriteDone(c)], s');
    } else {
      s' := s1;
      Takes1(cfg, s, a);
      assert [a] + [] == [a];
    }
  }

  /** A result byte makes the child write its block and wait for the exit signal. */
  lemma CooldownCallRefines(cfg: H.Config, s: H.State, c: nat, v: View, x: Input) returns (s': H.State)
    requires Fits(cfg, v) && c < |s.children| && s.children[c] == ChildOf(v) && v.phase.Cooldown?
    requires x.resultByte == (s.result > 0)
    ensures Takes(cfg, s, ActionsOf(cfg, v, x, c), s')
    ensures c < |s'.children|
    ensures s'.children[c] == if x.resultByte then ChildOf(v).(pc := H.AwaitExit) else ChildOf(v)
  {
    var s1 := H.Apply(cfg, s, H.PollResult(c));
    if x.resultByte {
      var s2 := H.Apply(cfg, s1, H.ReadResult(c));
      s' := H.Apply(cfg, s2, H.WriteBlock(c, cfg.size));
      Takes1(cfg, s2, H.WriteBlock(c, cfg.size));
      TakesMore(cfg, s1, H.ReadResult(c), [H.WriteBlock(c, cfg.size)], s');
      TakesMore(cfg, s, H.PollResult(c), [H.ReadResult(c)] + [H.WriteBlock(c, cfg.size)], s');
      assert [H.ReadResult(c)] + [H.WriteBlock(c, cfg.size)] == [H.ReadResult(c), H.WriteBlock(c, cfg.size)];
    } else {
      s' := s1;
      Takes1(cfg, s, H.PollResult(c));
      assert [H.PollResult(c)] + [] == [H.PollResult(c)];
    }
  }
}
