/**
 Whole runs of benchmp: the handshake together with what every child has measured.  Calls of
 benchmp_interval may be interrupted anywhere by the other children and the parent.
 */
module BenchmpRuns {
  import opened Arith
  import H = Harness
  import T = HarnessTheorems
  import opened BenchmpChild
  import opened HarnessChild
  import opened Results
  import opened Medians

  /**
   The handshake, what the completed calls of each child have found, and merged_results.  A child's
   benchmp_child_state follows from its calls.
   */
  datatype World = World(h: H.State, inputs: seq<seq<Input>>, merged: seq<Value>)

  /** A step of the handshake, or the end of a timed batch. */
  datatype Event = Act(a: H.Action) | Batch(c: nat, elapsed: real)

  /** benchmp_child_state of child c as its last completed call left it. */
  function ViewOf(v: View, w: World, c: nat): View
    requires c < |w.inputs|
  {
    Calls(v, w.inputs[c])
  }

  function Samples(v: View, w: World): (samples: seq<seq<Value>>)
    ensures |samples| == |w.inputs|
  {
    seq(|w.inputs|, c requires 0 <= c < |w.inputs| => ViewOf(v, w, c).samples)
  }

  /** What the event is to the handshake. */
  function ActionOf(v: View, w: World, e: Event): H.Action
    requires e.Batch? ==> e.c < |w.inputs|
  {
    match e
    case Act(a) => a
    case Batch(c, elapsed) => H.Interval(c, Records(ViewOf(v, w, c), elapsed), GivesUp(ViewOf(v, w, c), elapsed))
  }

  predicate Can(cfg: H.Config, v: View, w: World, e: Event) {
    && (e.Act? ==> !e.a.Interval?)
    && (e.Batch? ==> e.c < |w.inputs|)
    && H.Enabled(cfg, w.h, ActionOf(v, w, e))
  }

  /** The child whose call the event completes, with what the call found; cfg.n when none does. */
  function Completed(cfg: H.Config, s: H.State, a: H.Action, elapsed: real): (nat, Input)
    requires H.Enabled(cfg, s, a)
  {
    match a
    case PollStart(c) => (if s.start == 0 && s.children[c].ready then c else cfg.n, Input(elapsed, false, false))
    case ReadStart(c) => (if s.children[c].ready then c else cfg.n, Input(elapsed, true, false))
    case WriteReady(c) => (c, Input(elapsed, s.children[c].pc.started, false))
    case Interval(c, _, _) => (c, Input(elapsed, false, false))
    case PollResult(c) => (if s.result == 0 then c else cfg.n, Input(elapsed, false, false))
    case _ => (cfg.n, Input(elapsed, false, false))
  }

  function ElapsedOf(e: Event): real {
    if e.Batch? then e.elapsed else 0.0
  }

  /** The read that completes a block merges the samples of the child that wrote it. */
  predicate CompletesBlock(cfg: H.Config, s: H.State, a: H.Action) {
    a.ReadData? && s.parent.Gather? && |s.parent.buf| + a.bytes == cfg.size && |s.merged| < |s.order|
  }

  function After(cfg: H.Config, v: View, w: World, e: Event): World
    requires Can(cfg, v, w, e)
  {
    var a := ActionOf(v, w, e);
    var (c, x) := Completed(cfg, w.h, a, ElapsedOf(e));
    World(
      H.Apply(cfg, w.h, a),
      if c < |w.inputs| then w.inputs[c := w.inputs[c] + [x]] else w.inputs,
      if CompletesBlock(cfg, w.h, a) && w.h.order[|w.h.merged|] < |w.inputs|
      then InsertAll(w.merged, ViewOf(v, w, w.h.order[|w.h.merged|]).samples) else w.merged)
  }

  function Begin(cfg: H.Config): World {
    World(H.Init(cfg), seq(cfg.n, _ => []), [])
  }

  // ---------- a child between and inside its calls ----------

  /** The child is where its completed calls have brought it, or inside the next call. */
  ghost predicate Linked(cfg: H.Config, x: H.Child, v: View) {
    && ValidView(v) && v.parallel == cfg.n && Wanted(v) == cfg.reps
    && x.ready == !v.needWarmup
    && match x.pc
       case Warmup => v.phase.Warmup?
       case StartSeen => v.phase.Warmup?
       case SendReady(_) => v.phase.Warmup? && v.needWarmup
       case Timing(i) => v.phase.TimingInterval? && v.i == i
       case _ => v.phase.Cooldown?
  }

  lemma CallsAppend(v: View, xs: seq<Input>, x: Input)
    ensures Calls(v, xs + [x]) == Step(Calls(v, xs), x).0
  {
    CallsMore(v, xs, x);
  }

  /** Steps that complete a call. */
  lemma CallKeepsLink(cfg: H.Config, s: H.State, a: H.Action, elapsed: real, c: nat, v: View)
    requires cfg.Valid() && H.Enabled(cfg, s, a) && c < |s.children| == cfg.n && Linked(cfg, s.children[c], v)
    requires Completed(cfg, s, a, elapsed).0 == c
    requires a.Interval? ==> a == H.Interval(c, Records(v, elapsed), GivesUp(v, elapsed))
    ensures c < |H.Apply(cfg, s, a).children|
    ensures Linked(cfg, H.Apply(cfg, s, a).children[c], Step(v, Completed(cfg, s, a, elapsed).1).0)
  {
    hide Insert, Resized, Usecs;
    StepKeepsValid(v, Completed(cfg, s, a, elapsed).1);
  }

  /** All other steps leave the child's completed calls as they are. */
  lemma OtherKeepsLink(cfg: H.Config, s: H.State, a: H.Action, elapsed: real, d: nat, v: View)
    requires cfg.Valid() && H.Enabled(cfg, s, a) && d < |s.children| == cfg.n && Linked(cfg, s.children[d], v)
    requires Completed(cfg, s, a, elapsed).0 != d && (a.Interval? ==> a.c != d)
    requires a.WriteReady? || a.ReadStart? ==> s.children[a.c].pc.SendReady? || s.children[a.c].pc.StartSeen?
    ensures d < |H.Apply(cfg, s, a).children| && Linked(cfg, H.Apply(cfg, s, a).children[d], v)
  {
    hide ValidView;
  }

  /** A child that has consumed its result byte completes no more calls. */
  lemma ReportersAreFrozen(cfg: H.Config, s: H.State, a: H.Action, elapsed: real, d: nat)
    requires cfg.Valid() && H.Enabled(cfg, s, a) && d < |s.children| == cfg.n && H.HasResult(s.children[d])
    ensures Completed(cfg, s, a, elapsed).0 != d
  {
  }

  // ---------- the invariant of whole runs ----------

  ghost predicate AllLinked(cfg: H.Config, v: View, w: World) {
    && |w.inputs| == |w.h.children| == cfg.n
    && forall c: nat :: c < cfg.n ==> Linked(cfg, w.h.children[c], ViewOf(v, w, c))
  }

  /** The merged samples are those of the children whose blocks have been read, in that order. */
  ghost predicate MergedSoFar(v: View, w: World) {
    && |w.h.merged| <= |w.h.order|
    && (forall j :: 0 <= j < |w.h.order| ==> w.h.order[j] < |w.inputs|)
    && w.merged == MergeAll(w.h.order[..|w.h.merged|], Samples(v, w))
  }

  ghost predicate WorldInv(cfg: H.Config, v: View, w: World) {
    Fits(cfg, v) && Fresh(v) && H.Inv(cfg, w.h) && AllLinked(cfg, v, w) && MergedSoFar(v, w)
  }

  lemma BeginInv(cfg: H.Config, v: View)
    requires Fits(cfg, v) && Fresh(v)
    ensures WorldInv(cfg, v, Begin(cfg))
  {
    H.InitInv(cfg);
  }

  lemma AfterLinked(cfg: H.Config, v: View, w: World, e: Event)
    requires WorldInv(cfg, v, w) && Can(cfg, v, w, e)
    ensures AllLinked(cfg, v, After(cfg, v, w, e))
  {
    hide H.Inv, Linked, H.Apply, MergedSoFar, Calls, H.Enabled;
    var a, w' := ActionOf(v, w, e), After(cfg, v, w, e);
    var (c, x) := Completed(cfg, w.h, a, ElapsedOf(e));
    H.StepInv(cfg, w.h, a);
    SameSize(cfg, H.Apply(cfg, w.h, a));
    EnabledFacts(cfg, w.h, a, ElapsedOf(e));
    forall d: nat | d < cfg.n ensures Linked(cfg, w'.h.children[d], ViewOf(v, w', d)) {
      if d == c {
        CallsAppend(v, w.inputs[d], x);
        CallKeepsLink(cfg, w.h, a, ElapsedOf(e), d, ViewOf(v, w, d));
      } else {
        OtherKeepsLink(cfg, w.h, a, ElapsedOf(e), d, ViewOf(v, w, d));
      }
    }
  }

  lemma SameSize(cfg: H.Config, s: H.State)
    requires H.Inv(cfg, s)
    ensures |s.children| == cfg.n
  {
  }

  lemma EnabledFacts(cfg: H.Config, s: H.State, a: H.Action, elapsed: real)
    requires H.Enabled(cfg, s, a)
    ensures a.Interval? ==> Completed(cfg, s, a, elapsed).0 == a.c
    ensures a.WriteReady? || a.ReadStart? ==>
              a.c < |s.children| && (s.children[a.c].pc.SendReady? || s.children[a.c].pc.StartSeen?)
  {
  }

  /** The children that have consumed a result byte keep their samples. */
  lemma OrderedSamplesKept(cfg: H.Config, v: View, w: World, e: Event, j: nat)
    requires WorldInv(cfg, v, w) && Can(cfg, v, w, e) && j < |w.h.order|
    ensures var w' := After(cfg, v, w, e);
            |w'.inputs| == |w.inputs| && Samples(v, w')[w.h.order[j]] == Samples(v, w)[w.h.order[j]]
  {
    hide Calls, AllLinked, H.Enabled;
    var d := w.h.order[j];
    OrderedHaveResult(cfg, w.h, j);
    ReportersAreFrozen(cfg, w.h, ActionOf(v, w, e), ElapsedOf(e), d);
  }

  lemma OrderedHaveResult(cfg: H.Config, s: H.State, j: nat)
    requires H.Inv(cfg, s) && j < |s.order|
    ensures |s.children| == cfg.n && cfg.Valid() && s.order[j] < cfg.n && H.HasResult(s.children[s.order[j]])
  {
    assert s.order[j] in s.order;
  }

  /** Merging looks only at the samples of the children in the list. */
  lemma {:induction false} MergeSame(order: seq<nat>, a: seq<seq<Value>>, b: seq<seq<Value>>)
    requires |a| == |b| && forall j :: 0 <= j < |order| ==> order[j] < |a| && a[order[j]] == b[order[j]]
    ensures MergeAll(order, a) == MergeAll(order, b)
  {
    if order != [] {
      MergeSame(order[..|order| - 1], a, b);
    }
  }

  /** order only grows, and merged by one block when one is complete. */
  lemma OrderGrows(cfg: H.Config, s: H.State, a: H.Action)
    requires H.Inv(cfg, s) && H.Enabled(cfg, s, a)
    ensures var t := H.Apply(cfg, s, a);
            && s.order <= t.order
            && |t.merged| == |s.merged| + (if CompletesBlock(cfg, s, a) then 1 else 0) <= |t.order|
            && |s.merged| <= |s.order|
            && forall j :: 0 <= j < |t.order| ==> t.order[j] < cfg.n
  {
    hide H.Inv;
    H.StepInv(cfg, s, a);
    InvOrder(cfg, s);
    InvOrder(cfg, H.Apply(cfg, s, a));
    if a.ReadData? {
      GatherOwned(cfg, s);
    }
  }

  lemma InvOrder(cfg: H.Config, s: H.State)
    requires H.Inv(cfg, s)
    ensures |s.merged| <= |s.order| && forall j :: 0 <= j < |s.order| ==> s.order[j] < cfg.n
  {
  }

  /** When a block is being read, a child has written it. */
  lemma GatherOwned(cfg: H.Config, s: H.State)
    requires H.Inv(cfg, s) && s.parent.Gather? && s.response != []
    ensures |s.merged| < |s.order| && |s.parent.buf| < cfg.size
  {
  }

  lemma AfterMerged(cfg: H.Config, v: View, w: World, e: Event)
    requires WorldInv(cfg, v, w) && Can(cfg, v, w, e)
    ensures MergedSoFar(v, After(cfg, v, w, e))
  {
    hide H.Inv, H.Apply, H.Enabled, AllLinked, Calls, MergeAll, InsertAll, Samples, Linked;
    var a, w' := ActionOf(v, w, e), After(cfg, v, w, e);
    OrderGrows(cfg, w.h, a);
    SameInputs(cfg, v, w, e);
    var k, order := |w.h.merged|, w.h.order;
    forall j | 0 <= j < |order| ensures Samples(v, w')[order[j]] == Samples(v, w)[order[j]] {
      OrderedSamplesKept(cfg, v, w, e, j);
    }
    assert w'.h.order[..k] == order[..k];
    MergeSame(order[..k], Samples(v, w'), Samples(v, w));
    if CompletesBlock(cfg, w.h, a) {
      assert w'.h.order[..k + 1] == order[..k] + [order[k]];
      MergeOne(order[..k], order[k], Samples(v, w'));
      SampleAt(v, w, order[k]);
    }
  }

  lemma SampleAt(v: View, w: World, c: nat)
    requires c < |w.inputs|
    ensures Samples(v, w)[c] == ViewOf(v, w, c).samples
  {
  }

  lemma SameInputs(cfg: H.Config, v: View, w: World, e: Event)
    requires WorldInv(cfg, v, w) && Can(cfg, v, w, e)
    ensures |After(cfg, v, w, e).inputs| == |w.inputs| == cfg.n
  {
    hide H.Inv, H.Apply, H.Enabled, Linked, Calls, MergeAll, InsertAll, MergedSoFar, Fresh;
  }

  lemma MergeOne(order: seq<nat>, c: nat, samples: seq<seq<Value>>)
    requires c < |samples| && forall j :: 0 <= j < |order| ==> order[j] < |samples|
    ensures MergeAll(order + [c], samples) == InsertAll(MergeAll(order, samples), samples[c])
  {
    assert (order + [c])[..|order|] == order;
  }

  lemma AfterInv(cfg: H.Config, v: View, w: World, e: Event)
    requires WorldInv(cfg, v, w) && Can(cfg, v, w, e)
    ensures WorldInv(cfg, v, After(cfg, v, w, e))
  {
    AfterLinked(cfg, v, w, e);
    AfterMerged(cfg, v, w, e);
    H.StepInv(cfg, w.h, ActionOf(v, w, e));
  }

  // ---------- runs ----------

  ghost predicate CanRunAll(cfg: H.Config, v: View, events: seq<Event>)
    decreases |events|, 0
  {
    events == [] ||
    (CanRunAll(cfg, v, events[..|events| - 1]) && Can(cfg, v, Run(cfg, v, events[..|events| - 1]), events[|events| - 1]))
  }

  ghost function Run(cfg: H.Config, v: View, events: seq<Event>): World
    requires CanRunAll(cfg, v, events)
    decreases |events|, 1
  {
    if events == [] then Begin(cfg)
    else After(cfg, v, Run(cfg, v, events[..|events| - 1]), events[|events| - 1])
  }

  ghost predicate Reached(cfg: H.Config, v: View, w: World) {
    Fits(cfg, v) && Fresh(v) && exists events :: CanRunAll(cfg, v, events) && Run(cfg, v, events) == w
  }

  lemma {:induction false} RunKeepsInv(cfg: H.Config, v: View, events: seq<Event>)
    requires Fits(cfg, v) && Fresh(v) && CanRunAll(cfg, v, events)
    ensures WorldInv(cfg, v, Run(cfg, v, events))
    decreases |events|
  {
    hide WorldInv;
    if events == [] {
      BeginInv(cfg, v);
    } else {
      RunKeepsInv(cfg, v, events[..|events| - 1]);
      AfterInv(cfg, v, Run(cfg, v, events[..|events| - 1]), events[|events| - 1]);
    }
  }

  lemma ReachedInv(cfg: H.Config, v: View, w: World)
    requires Reached(cfg, v, w)
    ensures WorldInv(cfg, v, w)
  {
    var events :| CanRunAll(cfg, v, events) && Run(cfg, v, events) == w;
    RunKeepsInv(cfg, v, events);
  }

  /** What the handshake sees of a run is a run of the handshake. */
  lemma {:induction false} RunProjects(cfg: H.Config, v: View, events: seq<Event>) returns (acts: seq<H.Action>)
    requires CanRunAll(cfg, v, events)
    ensures T.CanRun(cfg, acts) && T.Exec(cfg, acts) == Run(cfg, v, events).h
    decreases |events|
  {
    if events == [] {
      acts := [];
    } else {
      var before := RunProjects(cfg, v, events[..|events| - 1]);
      var a := ActionOf(v, Run(cfg, v, events[..|events| - 1]), events[|events| - 1]);
      acts := before + [a];
      assert acts[..|acts| - 1] == before;
    }
  }

  lemma ReachedProjects(cfg: H.Config, v: View, w: World)
    requires Reached(cfg, v, w)
    ensures T.Reachable(cfg, w.h)
  {
    var events :| CanRunAll(cfg, v, events) && Run(cfg, v, events) == w;
    var acts := RunProjects(cfg, v, events);
  }

  // ---------- what holds on every run ----------

  /** While the state of any child is timing_interval, all children run the benchmark. */
  lemma TimingChildMeansAllEngaged(cfg: H.Config, v: View, w: World, c: nat, d: nat)
    requires Reached(cfg, v, w) && c < cfg.n && d < cfg.n && |w.inputs| == cfg.n && ViewOf(v, w, c).phase.TimingInterval?
    ensures d < |w.h.children| && T.Engaged(w.h.children[d])
  {
    hide Calls, T.Reachable, Reached;
    ReachedInv(cfg, v, w);
    ReachedProjects(cfg, v, w);
    hide H.Inv, MergedSoFar;
    assert Linked(cfg, w.h.children[c], ViewOf(v, w, c));
    T.TimingMeansAllEngaged(cfg, w.h, c, d);
  }

  /** The results phase is over. */
  predicate Over(s: H.State) {
    s.parent.Disarm? || s.parent.SendExit? || s.parent.Finished?
  }

  /** When it is, every child has been merged once and is in cooldown. */
  lemma OverMeansAll(cfg: H.Config, v: View, w: World)
    requires Reached(cfg, v, w) && Over(w.h)
    ensures |w.inputs| == cfg.n && Permutes(w.h.order, cfg.n) && w.merged == MergeAll(w.h.order, Samples(v, w))
    ensures forall c: nat :: c < cfg.n ==> ViewOf(v, w, c).phase.Cooldown?
  {
    hide Calls, Reached, MergeAll, Samples, T.Reachable;
    ReachedInv(cfg, v, w);
    ReachedProjects(cfg, v, w);
    T.MergedIsEveryChildOnce(cfg, w.h);
    assert w.h.order[..|w.h.merged|] == w.h.order;
    forall c: nat | c < cfg.n ensures ViewOf(v, w, c).phase.Cooldown? {
      assert Linked(cfg, w.h.children[c], ViewOf(v, w, c));
      MergedHasResult(cfg, w.h, c);
    }
  }

  lemma MergedHasResult(cfg: H.Config, s: H.State, c: nat)
    requires H.Inv(cfg, s) && c in s.order && c < cfg.n
    ensures |s.children| == cfg.n && H.HasResult(s.children[c])
  {
    var j :| 0 <= j < |s.order| && s.order[j] == c;
    OrderedHaveResult(cfg, s, j);
  }

  lemma SamplesFacts(cfg: H.Config, v: View, w: World)
    requires Fresh(v) && Fits(cfg, v) && |w.inputs| == cfg.n
    ensures AllNonzero(Samples(v, w)) && forall c: nat :: c < cfg.n ==> |Samples(v, w)[c]| <= Wanted(v)
    ensures cfg.n > 1 ==> forall c: nat, k :: c < cfg.n && 0 <= k < |Samples(v, w)[c]| ==> Samples(v, w)[c][k].n == v.iterations
  {
    hide Calls;
    forall c: nat | c < cfg.n
      ensures Nonzero(Samples(v, w)[c]) && |Samples(v, w)[c]| <= Wanted(v)
      ensures cfg.n > 1 ==> forall k :: 0 <= k < |Samples(v, w)[c]| ==> Samples(v, w)[c][k].n == v.iterations
    {
      SamplesFit(v, w.inputs[c]);
      if cfg.n > 1 {
        ParallelSameCount(v, w.inputs[c]);
      }
    }
  }

  /**
   However a run interleaves, once the results phase is over merged_results is the descending union of
   what the children have recorded, and with several children its published value is a median of that: the
   common iteration count with the middle time, or the mean of the two middle ones.
   */
  lemma PublishedIsMedianOfAll(cfg: H.Config, v: View, w: World)
    requires Reached(cfg, v, w) && Over(w.h)
    ensures Descending(w.merged) && multiset(w.merged) == multiset(Flatten(Samples(v, w)))
    ensures |w.merged| <= Mul(cfg.n, Wanted(v))
    ensures cfg.n > 1 && w.merged != [] ==> IsMedian(Median(w.merged), Flatten(Samples(v, w))) && Median(w.merged).n == v.iterations
    ensures cfg.n > 1 && w.merged != [] ==>
              var i, u := |w.merged| / 2, Median(w.merged).u;
              if |w.merged| % 2 == 1 then u == w.merged[i].u else 2 * u <= w.merged[i - 1].u + w.merged[i].u <= 2 * u + 1
  {
    hide Reached, MergeAll, Flatten, Samples, Calls, IsMedian, Permutes, Ratio, Mul, Median;
    OverMeansAll(cfg, v, w);
    assert Fits(cfg, v) && Fresh(v) by { ReachedInv(cfg, v, w); }
    SamplesFacts(cfg, v, w);
    var samples := Samples(v, w);
    MergedResults(w.h.order, samples);
    FlattenBound(samples, Wanted(v));
    if cfg.n > 1 && w.merged != [] {
      FlattenSameCount(samples, v.iterations);
      SameCount(w.merged, Flatten(samples), v.iterations);
      SameCountsAgree(w.merged, v.iterations);
      EqualCountsMean(w.merged);
      MedianIsMedian(w.merged, Flatten(samples));
    }
  }

  lemma SameCountsAgree(s: seq<Value>, n: nat)
    requires s != [] && n > 0 && forall k :: 0 <= k < |s| ==> s[k].n == n
    ensures MiddlesAgree(s) && Counted(s) && Median(s).n == n
  {
    EqualCounts(n);
  }

  lemma {:induction false} FlattenSameCount(samples: seq<seq<Value>>, n: nat)
    requires forall c, k :: 0 <= c < |samples| && 0 <= k < |samples[c]| ==> samples[c][k].n == n
    ensures forall k :: 0 <= k < |Flatten(samples)| ==> Flatten(samples)[k].n == n
  {
    if samples != [] {
      FlattenSameCount(samples[..|samples| - 1], n);
    }
  }

  lemma SameCount(s: seq<Value>, t: seq<Value>, n: nat)
    requires multiset(s) == multiset(t) && forall k :: 0 <= k < |t| ==> t[k].n == n
    ensures forall k :: 0 <= k < |s| ==> s[k].n == n
  {
    forall k | 0 <= k < |s| ensures s[k].n == n {
      assert s[k] in multiset(s);
      assert s[k] in t;
    }
  }

  /** No timed batch of any child took less than a microsecond. */
  ghost predicate AllNoticed(v: View, w: World) {
    forall c :: 0 <= c < |w.inputs| ==> Noticed(v, w.inputs[c])
  }

  /**
   The merge fits merged_results, which is allocated for all repetitions of all children, on every run
   when repetitions are positive or the children at most TRIES; otherwise on no run whose batches took time.
   */
  lemma MergeFitsExactly(cfg: H.Config, v: View, w: World)
    requires Reached(cfg, v, w) && Over(w.h)
    ensures v.repetitions >= 1 || cfg.n <= TRIES ==> |w.merged| <= Capacity(cfg.n * v.repetitions)
    ensures cfg.n > 1 && AllNoticed(v, w) ==>
              |w.merged| == Mul(cfg.n, Wanted(v)) &&
              (|w.merged| <= Capacity(cfg.n * v.repetitions) <==> v.repetitions >= 1 || cfg.n <= TRIES)
  {
    hide Reached, MergeAll, Flatten, Samples, Calls, IsMedian, Permutes, Mul, Descending, Noticed;
    PublishedIsMedianOfAll(cfg, v, w);
    RoomExactly(cfg.n, v.repetitions);
    OverMeansAll(cfg, v, w);
    assert Fits(cfg, v) && Fresh(v) by { ReachedInv(cfg, v, w); }
    if cfg.n > 1 && AllNoticed(v, w) {
      forall c | 0 <= c < cfg.n ensures |Samples(v, w)[c]| == Wanted(v) {
        AllSamplesTaken(v, w.inputs[c]);
        SampleAt(v, w, c);
      }
      SamplesFacts(cfg, v, w);
      MergedResults(w.h.order, Samples(v, w));
      FlattenExact(Samples(v, w), Wanted(v));
    }
  }

  // ---------- every run can be finished ----------

  /** A batch that is recorded and does not make its child give up. */
  function Ample(v: View): real {
    v.enough as real + 200.0
  }

  lemma AmpleRecords(v: View)
    ensures Records(v, Ample(v)) && !GivesUp(v, Ample(v)) && Ample(v) >= 1.0
  {
  }

  /** The event that is this action to the handshake; a batch is an ample one. */
  function EventOf(v: View, a: H.Action): Event {
    if a.Interval? then Batch(a.c, Ample(v)) else Act(a)
  }

  lemma EventHappens(cfg: H.Config, v: View, w: World, a: H.Action)
    requires WorldInv(cfg, v, w) && H.Enabled(cfg, w.h, a)
    ensures Can(cfg, v, w, EventOf(v, a))
    ensures ActionOf(v, w, EventOf(v, a)) == if a.Interval? then H.Interval(a.c, true, false) else a
  {
    hide Calls, MergedSoFar, H.Inv;
    if a.Interval? {
      CallsValid(v, w.inputs[a.c]);
      AmpleRecords(ViewOf(v, w, a.c));
    }
  }

  /** An ample batch moves its child on, whatever the batch of the given action did. */
  lemma IntervalMoves(cfg: H.Config, s: H.State, c: nat)
    requires H.Enabled(cfg, s, H.Interval(c, true, false))
    ensures H.Apply(cfg, s, H.Interval(c, true, false)) != s
  {
    assert H.Apply(cfg, s, H.Interval(c, true, false)).children[c].pc != s.children[c].pc;
  }

  /** The batches of the run so far took time, and so does this one. */
  lemma NoticedAfter(cfg: H.Config, v: View, w: World, e: Event)
    requires WorldInv(cfg, v, w) && Can(cfg, v, w, e) && AllNoticed(v, w) && (e.Batch? ==> e.elapsed >= 1.0)
    ensures AllNoticed(v, After(cfg, v, w, e))
  {
    hide Calls, MergedSoFar, H.Inv, Noticed;
    var w' := After(cfg, v, w, e);
    var (d, x) := Completed(cfg, w.h, ActionOf(v, w, e), ElapsedOf(e));
    forall c | 0 <= c < |w'.inputs| ensures Noticed(v, w'.inputs[c]) {
      if c == d {
        if ViewOf(v, w, c).phase.TimingInterval? {
          TimedOnlyByBatches(cfg, v, w, e, c);
        }
        NoticedMore(v, w.inputs[c], x);
      }
    }
  }

  /** A call that completes in timing_interval ends a batch. */
  lemma TimedOnlyByBatches(cfg: H.Config, v: View, w: World, e: Event, c: nat)
    requires WorldInv(cfg, v, w) && Can(cfg, v, w, e) && c < cfg.n
    requires Completed(cfg, w.h, ActionOf(v, w, e), ElapsedOf(e)).0 == c && ViewOf(v, w, c).phase.TimingInterval?
    ensures e.Batch? && Completed(cfg, w.h, ActionOf(v, w, e), ElapsedOf(e)).1.elapsed == e.elapsed
  {
    hide Calls, MergedSoFar, H.Inv, ValidView;
    assert Linked(cfg, w.h.children[c], ViewOf(v, w, c));
  }

  lemma NoticedMore(v: View, xs: seq<Input>, x: Input)
    requires Noticed(v, xs) && (Calls(v, xs).phase.TimingInterval? ==> x.elapsed >= 1.0)
    ensures Noticed(v, xs + [x])
  {
    hide Calls;
    var more := xs + [x];
    forall k | 0 <= k < |more| && Calls(v, more[..k]).phase.TimingInterval? ensures more[k].elapsed >= 1.0 {
      if k < |xs| {
        assert more[..k] == xs[..k];
      } else {
        assert more[..k] == xs;
      }
    }
  }

  lemma RunMore(cfg: H.Config, v: View, events: seq<Event>, e: Event)
    requires CanRunAll(cfg, v, events) && Can(cfg, v, Run(cfg, v, events), e)
    ensures CanRunAll(cfg, v, events + [e]) && Run(cfg, v, events + [e]) == After(cfg, v, Run(cfg, v, events), e)
  {
    assert (events + [e])[..|events|] == events;
  }

  /** From any point of any run some event brings it closer to its end, with a batch that takes time if it is one. */
  lemma RunAdvances(cfg: H.Config, v: View, events: seq<Event>) returns (e: Event)
    requires Fits(cfg, v) && Fresh(v) && CanRunAll(cfg, v, events) && !T.Complete(Run(cfg, v, events).h)
    ensures e.Batch? ==> e.elapsed >= 1.0
    ensures CanRunAll(cfg, v, events + [e])
    ensures T.Measure(cfg, Run(cfg, v, events + [e]).h) < T.Measure(cfg, Run(cfg, v, events).h)
  {
    hide WorldInv, T.Measure, H.Apply, H.Enabled, Can, After;
    var w := Run(cfg, v, events);
    RunKeepsInv(cfg, v, events);
    var acts := RunProjects(cfg, v, events);
    var a := T.Progress(cfg, acts);
    LastStep(cfg, acts, a);
    e := EventOf(v, a);
    AmpleRecords(v);
    EventHappens(cfg, v, w, a);
    RunMore(cfg, v, events, e);
    AfterIsApplied(cfg, v, w, e);
    if a.Interval? {
      AmpleStep(cfg, v, w, a);
    }
  }

  lemma AfterIsApplied(cfg: H.Config, v: View, w: World, e: Event)
    requires Can(cfg, v, w, e)
    ensures H.Enabled(cfg, w.h, ActionOf(v, w, e)) && After(cfg, v, w, e).h == H.Apply(cfg, w.h, ActionOf(v, w, e))
  {
  }

  lemma AmpleStep(cfg: H.Config, v: View, w: World, a: H.Action)
    requires WorldInv(cfg, v, w) && a.Interval? && H.Enabled(cfg, w.h, H.Interval(a.c, true, false))
    ensures T.Measure(cfg, H.Apply(cfg, w.h, H.Interval(a.c, true, false))) < T.Measure(cfg, w.h)
  {
    hide H.Inv, T.Measure;
    IntervalMoves(cfg, w.h, a.c);
    T.StepsUseMeasure(cfg, w.h, H.Interval(a.c, true, false));
  }

  lemma LastStep(cfg: H.Config, acts: seq<H.Action>, a: H.Action)
    requires T.CanRun(cfg, acts + [a])
    ensures T.CanRun(cfg, acts) && H.Enabled(cfg, T.Exec(cfg, acts), a)
    ensures T.Exec(cfg, acts + [a]) == H.Apply(cfg, T.Exec(cfg, acts), a)
  {
    assert (acts + [a])[..|acts|] == acts;
  }

  /**
   Every whole run, of one child or of many, can be continued until every child has been merged and has
   exited; if all its batches took time, so that they still do.
   */
  lemma {:induction false} WholeRunsComplete(cfg: H.Config, v: View, events: seq<Event>) returns (all: seq<Event>)
    requires Fits(cfg, v) && Fresh(v) && CanRunAll(cfg, v, events)
    ensures events <= all && CanRunAll(cfg, v, all) && T.Complete(Run(cfg, v, all).h)
    ensures AllNoticed(v, Run(cfg, v, events)) ==> AllNoticed(v, Run(cfg, v, all))
    decreases T.Measure(cfg, Run(cfg, v, events).h)
  {
    hide AllNoticed, T.Complete, T.Measure, Can, After;
    if T.Complete(Run(cfg, v, events).h) {
      all := events;
    } else {
      var e := RunAdvances(cfg, v, events);
      if AllNoticed(v, Run(cfg, v, events)) {
        StillNoticed(cfg, v, events, e);
      }
      all := WholeRunsComplete(cfg, v, events + [e]);
    }
  }

  lemma StillNoticed(cfg: H.Config, v: View, events: seq<Event>, e: Event)
    requires Fits(cfg, v) && Fresh(v) && CanRunAll(cfg, v, events + [e]) && CanRunAll(cfg, v, events)
    requires AllNoticed(v, Run(cfg, v, events)) && (e.Batch? ==> e.elapsed >= 1.0)
    ensures AllNoticed(v, Run(cfg, v, events + [e]))
  {
    hide AllNoticed, Can, After;
    assert (events + [e])[..|events|] == events;
    RunKeepsInv(cfg, v, events);
    NoticedAfter(cfg, v, Run(cfg, v, events), e);
  }

  /** Some run gets past the results phase with batches that all took time. */
  lemma SomeRunEnds(cfg: H.Config, v: View) returns (w: World)
    requires Fits(cfg, v) && Fresh(v)
    ensures Reached(cfg, v, w) && Over(w.h) && AllNoticed(v, w)
  {
    hide Calls;
    var all := WholeRunsComplete(cfg, v, []);
    w := Run(cfg, v, all);
  }

  /** Without positive repetitions and with more than TRIES children a run gets there whose merge does not fit. */
  lemma SomeRunOverflows(cfg: H.Config, v: View) returns (w: World)
    requires Fits(cfg, v) && Fresh(v) && v.repetitions <= 0 && cfg.n > TRIES
    ensures Reached(cfg, v, w) && Over(w.h) && |w.merged| > Capacity(cfg.n * v.repetitions)
  {
    hide Reached, AllNoticed, Capacity, Mul;
    w := SomeRunEnds(cfg, v);
    MergeFitsExactly(cfg, v, w);
  }
}
