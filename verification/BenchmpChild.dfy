/**
 benchmp_interval: the state machine a child of benchmp runs between two batches of the
 benchmark (lib_timing.c).  The clock and the two select calls are inputs.
 */
module BenchmpChild {
  import opened Results
  import opened Medians

  datatype Phase = Warmup | TimingInterval | Cooldown

  /** The bytes a call exchanges with the parent. */
  datatype Signal = Nothing | SentReady | ReadStart | ReadStartSentReady | SentDone | Reported

  /**
   What one call finds: the time of the batch that just ran, less overheads (ignored by the first
   call, when no batch has run), and whether select reports a start and a result byte.
   */
  datatype Input = Input(elapsed: real, startByte: bool, resultByte: bool)

  /** benchmp_child_state, with the samples collected so far. */
  datatype View = View(
    phase: Phase,
    iterations: nat,
    batch: nat,
    parallel: nat,
    repetitions: int,
    enough: nat,
    needWarmup: bool,
    i: nat,
    samples: seq<Value>)

  const CAP: nat := 0x800_0000       // 1<<27
  const NEGATIVE_CAP: nat := 0x10_0000  // 1<<20

  /** settime: negative times become zero, others lose their fraction. */
  function Usecs(elapsed: real): (u: nat)
    ensures elapsed < 0.0 ==> u == 0
    ensures elapsed >= 0.0 ==> u as real <= elapsed < u as real + 1.0
  {
    if elapsed >= 0.0 then elapsed.Floor else 0
  }

  predicate Records(v: View, elapsed: real) {
    v.parallel > 1 || elapsed > 0.95 * v.enough as real
  }

  /** Outside the band around enough, a single child changes its iteration count. */
  predicate Resizes(v: View, elapsed: real) {
    v.parallel == 1 && (elapsed < 0.99 * v.enough as real || elapsed > 1.2 * v.enough as real)
  }

  /** The double arithmetic of the resize: iterations / elapsed * 1.1 * enough, plus one, truncated. */
  function Scaled(iterations: nat, enough: nat, elapsed: real): (n: nat)
    requires elapsed > 0.0
    ensures n > 0
  {
    var perUsec := iterations as real / elapsed;
    var tmp := perUsec * (1.1 * enough as real);
    assert perUsec >= 0.0 && tmp >= 0.0;
    (tmp + 1.0).Floor
  }

  function Resized(iterations: nat, enough: nat, elapsed: real): nat {
    if elapsed > 150.0 then Scaled(iterations, enough, elapsed) else 8 * iterations
  }

  /** Too many iterations for too little time: the child gives up. */
  predicate GivesUp(v: View, elapsed: real) {
    Resizes(v, elapsed) && elapsed <= 150.0 &&
    (8 * v.iterations > CAP || (elapsed < 0.0 && 8 * v.iterations > NEGATIVE_CAP))
  }

  /** One interval in state timing_interval. */
  function Timed(v: View, elapsed: real): View {
    var rec := Records(v, elapsed);
    var i := if rec then v.i + 1 else v.i;
    View(
      if (rec && i >= v.repetitions) || GivesUp(v, elapsed) then Cooldown else TimingInterval,
      if Resizes(v, elapsed) then Resized(v.iterations, v.enough, elapsed) else v.iterations,
      v.batch, v.parallel, v.repetitions, v.enough, v.needWarmup, i,
      if rec then Insert(Value(Usecs(elapsed), v.iterations), v.samples) else v.samples)
  }

  /** State and signal after a call. */
  function Step(v: View, x: Input): (View, Signal) {
    match v.phase
    case Warmup =>
      (v.(phase := if x.startByte then TimingInterval else Warmup, needWarmup := false),
       if x.startByte then (if v.needWarmup then ReadStartSentReady else ReadStart)
       else if v.needWarmup then SentReady else Nothing)
    case TimingInterval =>
      var w := Timed(v, x.elapsed);
      (w, if w.phase.Cooldown? then SentDone else Nothing)
    case Cooldown =>
      (v, if x.resultByte then Reported else Nothing)
  }

  /** The iteration count a call returns for the next batch, from the state it leaves. */
  function Returned(v: View): nat {
    if v.phase.TimingInterval? then v.iterations else v.batch
  }

  ghost predicate ValidView(v: View) {
    && v.iterations > 0 && v.batch > 0
    && (v.needWarmup ==> v.phase.Warmup?)
    && (v.phase.Warmup? ==> v.samples == [] && v.i == 0)
    && Descending(v.samples) && Counted(v.samples)
    && (forall k :: 0 <= k < |v.samples| ==> v.samples[k].u > 0)
    && |v.samples| <= v.i && (v.phase.TimingInterval? ==> v.i < (if v.repetitions >= 1 then v.repetitions else 1))
    && v.i <= (if v.repetitions >= 1 then v.repetitions else 1)
  }

  lemma StepKeepsValid(v: View, x: Input)
    requires ValidView(v)
    ensures ValidView(Step(v, x).0)
  {
    if v.phase.TimingInterval? {
      var s := Value(Usecs(x.elapsed), v.iterations);
      InsertKeepsOrder(s, v.samples);
    }
  }

  class ChildState {
    var phase: Phase
    var iterations: nat
    const batch: nat
    const parallel: nat
    const repetitions: int
    const enough: nat
    var needWarmup: bool
    var i: nat
    const results: ResultSet

    ghost function Abs(): View
      reads this, results, results.v
      requires results.N <= results.v.Length
    {
      View(phase, iterations, batch, parallel, repetitions, enough, needWarmup, i, results.Samples())
    }

    ghost predicate Valid()
      reads this, results, results.v
    {
      results.Valid() && results.v.Length == Capacity(repetitions) && ValidView(Abs())
    }

    /** benchmp_child up to its loop. */
    constructor (enough: nat, iterations: nat, parallel: nat, repetitions: int, batch: nat)
      requires iterations > 0 && batch > 0
      ensures Valid() && fresh(results) && fresh(results.v)
      ensures Abs() == View(Warmup, iterations, batch, parallel, repetitions, enough, true, 0, [])
    {
      phase := Warmup;
      this.iterations := iterations;
      this.batch := batch;
      this.parallel := parallel;
      this.repetitions := repetitions;
      this.enough := enough;
      needWarmup := true;
      i := 0;
      results := new ResultSet(repetitions);
    }

    /** case timing_interval: record the batch, then maybe resize it. */
    method TimeInterval(elapsed: real) returns (iters: nat)
      requires Valid() && phase == TimingInterval
      modifies this, results, results.v
      ensures results.Valid()
      ensures Abs() == Timed(old(Abs()), elapsed)
      ensures iters == iterations && phase != Warmup
      ensures var recorded := parallel > 1 || elapsed > 0.95 * enough as real;
              && i == (if recorded then old(i) + 1 else old(i))
              && results.Samples() ==
                 (if recorded then Insert(Value(Usecs(elapsed), old(iterations)), old(results.Samples())) else old(results.Samples()))
      ensures var resized := parallel == 1 && (elapsed < 0.99 * enough as real || elapsed > 1.2 * enough as real);
              var long := elapsed > 150.0;
              && iterations == (if !resized then old(iterations) else if long then Scaled(old(iterations), enough, elapsed) else 8 * old(iterations))
              && (phase == Cooldown <==>
                  || (i > old(i) && i >= repetitions)
                  || (resized && !long && (iterations > 0x800_0000 || (elapsed < 0.0 && iterations > 0x10_0000))))
    {
      hide Scaled, Insert, Usecs, Ratio;
      iters := iterations;
      if parallel > 1 || elapsed > 0.95 * enough as real {
        results.Insertsort(Usecs(elapsed), iterations);
        i := i + 1;
        if i >= repetitions {
          phase := Cooldown;
        }
      }
      if parallel == 1 && (elapsed < 0.99 * enough as real || elapsed > 1.2 * enough as real) {
        if elapsed > 150.0 {
          iters := Scaled(iters, enough, elapsed);
        } else {
          iters := 8 * iters;
          if iters > CAP || (elapsed < 0.0 && iters > NEGATIVE_CAP) {
            phase := Cooldown;
          }
        }
      }
      iterations := iters;
    }

    method Interval(x: Input) returns (iters: nat, signal: Signal)
      requires Valid()
      modifies this, results, results.v
      ensures Valid()
      ensures (Abs(), signal) == Step(old(Abs()), x)
      ensures iters == Returned(Abs()) == if phase == TimingInterval then iterations else batch
    {
      hide Timed;
      StepKeepsValid(Abs(), x);
      signal := Nothing;
      match phase {
        case Warmup =>
          iters := batch;
          if x.startByte {
            phase := TimingInterval;
            signal := ReadStart;
            iters := iterations;
          }
          if needWarmup {
            needWarmup := false;
            signal := if x.startByte then ReadStartSentReady else SentReady;
          }
        case TimingInterval =>
          iters := TimeInterval(x.elapsed);
          if phase == Cooldown {
            signal := SentDone;
            iters := batch;
          }
        case Cooldown =>
          iters := batch;
          if x.resultByte {
            signal := Reported;
          }
      }
    }
  }

  // ---------- runs of calls ----------

  function Calls(v: View, xs: seq<Input>): View {
    if xs == [] then v else Step(Calls(v, xs[..|xs| - 1]), xs[|xs| - 1]).0
  }

  ghost predicate Fresh(v: View) {
    v.phase.Warmup? && v.needWarmup && v.i == 0 && v.samples == [] && v.iterations > 0 && v.batch > 0
  }

  lemma {:induction false} CallsValid(v: View, xs: seq<Input>)
    requires Fresh(v)
    ensures var w := Calls(v, xs);
            ValidView(w) && w.parallel == v.parallel && w.repetitions == v.repetitions
            && w.enough == v.enough && w.batch == v.batch && (xs != [] ==> !w.needWarmup)
  {
    if xs != [] {
      CallsValid(v, xs[..|xs| - 1]);
      StepKeepsValid(Calls(v, xs[..|xs| - 1]), xs[|xs| - 1]);
    }
  }

  /**
   A sample's iteration count is what the call before the recorded batch returned: the batch that
   was timed is the batch that is divided by.
   */
  lemma RecordedCountRan(v: View, xs: seq<Input>, x: Input)
    requires Fresh(v)
    ensures var w := Calls(v, xs);
            Step(w, x).0.samples == w.samples ||
            Step(w, x).0.samples == Insert(Value(Usecs(x.elapsed), Returned(w)), w.samples)
    ensures Step(Calls(v, xs), x).0.samples != Calls(v, xs).samples ==> xs != []
  {
  }

  /**
   What a call returns is how many iterations the next batch runs: the benchmark's batch outside
   timing_interval, whatever was timed before, and the count sized so far inside it.
   */
  lemma CountToRun(v: View, xs: seq<Input>, x: Input)
    requires Fresh(v)
    ensures var w, next := Calls(v, xs), Step(Calls(v, xs), x).0;
            && (!next.phase.TimingInterval? ==> Returned(next) == v.batch)
            && (next.phase.TimingInterval? && w.phase.Warmup? ==> Returned(next) == v.iterations)
            && (next.phase.TimingInterval? && !w.phase.Warmup? ==>
                  Returned(next) == if Resizes(w, x.elapsed) then Resized(Returned(w), v.enough, x.elapsed) else Returned(w))
  {
    CallsValid(v, xs);
    StillInitial(v, xs);
  }

  /**
   What a call tells the parent: ready on the first call and on no other, the start byte is read on the way
   into timing_interval, done is sent on the way out of it, and the result byte is read in cooldown.
   */
  lemma SignalsFollowPhases(v: View, xs: seq<Input>, x: Input)
    requires Fresh(v)
    ensures var w, next, signal := Calls(v, xs), Step(Calls(v, xs), x).0, Step(Calls(v, xs), x).1;
            && (signal == SentReady || signal == ReadStartSentReady <==> xs == [])
            && (signal == ReadStart || signal == ReadStartSentReady <==> w.phase.Warmup? && next.phase.TimingInterval?)
            && (w.phase.Warmup? ==> (next.phase.TimingInterval? <==> x.startByte))
            && (signal == SentDone <==> w.phase.TimingInterval? && next.phase.Cooldown?)
            && (signal == Reported <==> w.phase.Cooldown? && x.resultByte) && (w.phase.Cooldown? ==> next == w)
  {
    hide Timed;
    CallsValid(v, xs);
    TimedNotWarmup(Calls(v, xs), x.elapsed);
  }

  /** Before the start byte nothing is resized. */
  lemma {:induction false} StillInitial(v: View, xs: seq<Input>)
    requires Fresh(v)
    ensures Calls(v, xs).phase.Warmup? ==> Calls(v, xs).iterations == v.iterations
  {
    hide Timed;
    if xs != [] {
      StillInitial(v, xs[..|xs| - 1]);
      TimedNotWarmup(Calls(v, xs[..|xs| - 1]), xs[|xs| - 1].elapsed);
    }
  }

  lemma TimedNotWarmup(v: View, elapsed: real)
    ensures !Timed(v, elapsed).phase.Warmup?
  {
  }

  /** Samples a child is to take: one even when it is asked for none. */
  function Wanted(v: View): nat {
    if v.repetitions >= 1 then v.repetitions else 1
  }

  /** A child never takes more samples than it is to take, so they fit its array. */
  lemma SamplesFit(v: View, xs: seq<Input>)
    requires Fresh(v)
    ensures |Calls(v, xs).samples| <= Wanted(v) <= Capacity(v.repetitions)
    ensures Nonzero(Calls(v, xs).samples)
  {
    CallsValid(v, xs);
  }

  /** Every timed batch took at least a microsecond. */
  ghost predicate Noticed(v: View, xs: seq<Input>) {
    forall k :: 0 <= k < |xs| && Calls(v, xs[..k]).phase.TimingInterval? ==> xs[k].elapsed >= 1.0
  }

  lemma NoticedBefore(v: View, xs: seq<Input>)
    requires xs != [] && Noticed(v, xs)
    ensures Noticed(v, xs[..|xs| - 1])
    ensures Calls(v, xs[..|xs| - 1]).phase.TimingInterval? ==> xs[|xs| - 1].elapsed >= 1.0
  {
    var before := xs[..|xs| - 1];
    forall k | 0 <= k < |before| && Calls(v, before[..k]).phase.TimingInterval? ensures before[k].elapsed >= 1.0 {
      assert before[..k] == xs[..k];
    }
  }

  /** One of several children whose batches all take time has, in cooldown, exactly the samples it was to take. */
  lemma {:induction false} AllSamplesTaken(v: View, xs: seq<Input>)
    requires Fresh(v) && v.parallel > 1 && Noticed(v, xs)
    ensures var w := Calls(v, xs); |w.samples| == w.i && (w.phase.Cooldown? ==> w.i == Wanted(v))
  {
    if xs != [] {
      var before := xs[..|xs| - 1];
      NoticedBefore(v, xs);
      AllSamplesTaken(v, before);
      CallsValid(v, before);
      OneMore(Calls(v, before), xs[|xs| - 1]);
    }
  }

  lemma OneMore(w: View, x: Input)
    requires ValidView(w) && w.parallel > 1 && |w.samples| == w.i && (w.phase.TimingInterval? ==> x.elapsed >= 1.0)
    requires w.phase.Cooldown? ==> w.i == Wanted(w)
    ensures var w' := Step(w, x).0; |w'.samples| == w'.i && (w'.phase.Cooldown? ==> w'.i == Wanted(w))
  {
    assert w.phase.TimingInterval? ==> Usecs(x.elapsed) >= 1;
  }

  /** With several children nobody resizes: all samples carry the initial iteration count. */
  lemma {:induction false} ParallelSameCount(v: View, xs: seq<Input>)
    requires Fresh(v) && v.parallel > 1
    ensures Calls(v, xs).iterations == v.iterations
    ensures forall k :: 0 <= k < |Calls(v, xs).samples| ==> Calls(v, xs).samples[k].n == v.iterations
  {
    if xs != [] {
      CallsValid(v, xs[..|xs| - 1]);
      ParallelSameCount(v, xs[..|xs| - 1]);
    }
  }

  // ---------- sizing the batch of a single child ----------

  /** A batch whose time is exactly proportional to its iterations. */
  function Time(cost: real, n: nat): real {
    cost * n as real
  }

  /** Intervals in which the batch takes cost microseconds per iteration, until cooldown. */
  function Timings(v: View, cost: real, k: nat): View
    decreases k
  {
    if k == 0 || !v.phase.TimingInterval? then v
    else Timings(Timed(v, Time(cost, v.iterations)), cost, k - 1)
  }

  function FixedPoint(enough: nat, cost: real): (n: nat)
    requires cost > 0.0
  {
    assert 1.1 * enough as real / cost >= 0.0;
    (1.1 * enough as real / cost).Floor + 1
  }

  ghost predicate Single(v: View) {
    v.phase.TimingInterval? && v.parallel == 1 && v.enough >= 150 && v.iterations > 0 && v.i < Wanted(v)
  }

  lemma ScaledIsFixedPoint(n: real, e: real, cost: real)
    requires n > 0.0 && cost > 0.0 && e >= 0.0
    ensures cost * n > 0.0
    ensures n / (cost * n) * e == e / cost
  {
    var t := cost * n;
    assert t > 0.0;
    assert n / t == 1.0 / cost by {
      assert 1.0 / cost * t == 1.0 / cost * cost * n == n;
      assert n / t * t == n;
      CancelRight(n / t, 1.0 / cost, t);
    }
  }

  lemma FloorPlusOne(x: real)
    ensures (x + 1.0).Floor == x.Floor + 1
  {
  }

  lemma CancelRight(a: real, b: real, t: real)
    requires t > 0.0 && a * t == b * t
    ensures a == b
  {
    assert (a - b) * t == 0.0;
  }

  lemma ScaledValue(n: nat, enough: nat, t: real, cost: real)
    requires t > 0.0 && cost > 0.0
    requires n as real / t * (1.1 * enough as real) == 1.1 * enough as real / cost
    ensures Scaled(n, enough, t) == FixedPoint(enough, cost)
  {
    var y := n as real / t * (1.1 * enough as real);
    assert Scaled(n, enough, t) == (y + 1.0).Floor;
    FloorPlusOne(y);
  }

  /** Once an interval is long enough to measure, one resize gives the fixed point, whatever the count was. */
  lemma ResizeReachesFixedPoint(n: nat, enough: nat, cost: real)
    requires n > 0 && cost > 0.0 && Time(cost, n) > 150.0
    ensures Resized(n, enough, Time(cost, n)) == FixedPoint(enough, cost)
  {
    hide Scaled, FixedPoint;
    ScaledIsFixedPoint(n as real, 1.1 * enough as real, cost);
    ScaledValue(n, enough, Time(cost, n), cost);
  }

  /** At the fixed point a batch takes more than 1.1 * enough. */
  lemma FixedPointTime(enough: nat, cost: real)
    requires cost > 0.0
    ensures Time(cost, FixedPoint(enough, cost)) > 1.1 * enough as real
    ensures FixedPoint(enough, cost) > 0
  {
    var e := 1.1 * enough as real;
    var x, n := e / cost, FixedPoint(enough, cost) as real;
    assert x >= 0.0 && n > x;
    assert cost * (n - x) > 0.0;
    assert cost * x == e;
  }

  /** A batch that keeps its count, in band or at the fixed point. */
  ghost predicate Settled(v: View, cost: real)
    requires cost > 0.0
  {
    v.iterations == FixedPoint(v.enough, cost) ||
    0.99 * v.enough as real <= Time(cost, v.iterations) <= 1.2 * v.enough as real
  }

  lemma AboveBand(enough: nat, t: real)
    requires enough >= 150 && t > 1.1 * enough as real
    ensures t > 150.0 && t >= 0.99 * enough as real
  {
  }

  lemma SettledTime(v: View, cost: real)
    requires cost > 0.0 && v.iterations > 0 && v.parallel == 1 && v.enough >= 150 && Settled(v, cost)
    ensures var t := Time(cost, v.iterations);
            t >= 0.99 * v.enough as real
            && (Resizes(v, t) ==> t > 150.0 && Resized(v.iterations, v.enough, t) == v.iterations)
  {
    hide Resized, FixedPoint, Time;
    if v.iterations == FixedPoint(v.enough, cost) {
      FixedPointTime(v.enough, cost);
      AboveBand(v.enough, Time(cost, v.iterations));
      ResizeReachesFixedPoint(v.iterations, v.enough, cost);
    }
  }

  /** A settled batch is recorded every time and keeps its count. */
  lemma SettledRecords(v: View, cost: real)
    requires cost > 0.0 && Single(v) && Settled(v, cost)
    ensures var w := Timed(v, Time(cost, v.iterations));
            w.i == v.i + 1 && w.iterations == v.iterations && (w.phase.Cooldown? <==> w.i >= v.repetitions)
            && w == v.(phase := w.phase, i := w.i, samples := w.samples) && !w.phase.Warmup?
  {
    hide Timed, Resizes, Resized, FixedPoint, Time;
    SettledTime(v, cost);
    TimedAtRest(v, Time(cost, v.iterations));
  }

  lemma TimedAtRest(v: View, t: real)
    requires Single(v) && t >= 0.99 * v.enough as real
    requires Resizes(v, t) ==> t > 150.0 && Resized(v.iterations, v.enough, t) == v.iterations
    ensures Timed(v, t).i == v.i + 1 && Timed(v, t).iterations == v.iterations
    ensures Timed(v, t).phase.Cooldown? <==> v.i + 1 >= v.repetitions
    ensures var w := Timed(v, t); w == v.(phase := w.phase, i := w.i, samples := w.samples) && !w.phase.Warmup?
  {
    hide Scaled, Insert, Usecs;
  }

  lemma SettledStays(v: View, cost: real)
    requires cost > 0.0 && Single(v) && Settled(v, cost)
    ensures forall w: View :: w.iterations == v.iterations && w.enough == v.enough ==> Settled(w, cost)
  {
  }

  lemma {:induction false} SettledFinishes(v: View, cost: real, k: nat)
    requires cost > 0.0 && Single(v) && Settled(v, cost) && k >= Wanted(v) - v.i
    ensures Timings(v, cost, k).phase.Cooldown?
    ensures Timings(v, cost, k).iterations == v.iterations
    decreases Wanted(v) - v.i
  {
    hide Settled, Timed, Time;
    SettledStays(v, cost);
    SettledRecords(v, cost);
    var w := Timed(v, Time(cost, v.iterations));
    if w.phase.TimingInterval? {
      SettledFinishes(w, cost, k - 1);
    }
  }

  function Pow8(j: nat): nat {
    if j == 0 then 1 else 8 * Pow8(j - 1)
  }

  lemma Pow8Nine()
    ensures Pow8(9) == CAP
  {
    assert Pow8(3) == 512;
    assert Pow8(6) == 512 * 512;
  }

  /** An interval that is neither recorded for the last time nor given up on leaves a single child timing. */
  lemma TimedOnce(v: View, t: real)
    requires Single(v)
    ensures var w := Timed(v, t);
            && w.parallel == v.parallel && w.repetitions == v.repetitions && w.enough == v.enough && v.i <= w.i
            && w.iterations == (if Resizes(v, t) then Resized(v.iterations, v.enough, t) else v.iterations)
            && (w.phase.TimingInterval? ==> Single(w) && !GivesUp(v, t)) && !w.phase.Warmup?
  {
    hide Scaled, Insert, Usecs;
  }

  predicate InBand(enough: nat, t: real) {
    0.99 * enough as real <= t <= 1.2 * enough as real
  }

  /**
   Where autosizing ends: at the fixed point, at a power of 8 whose batch takes about enough, or at 8^10,
   beyond the cap, when even 8^9 iterations take too little time.
   */
  ghost predicate Ends(enough: nat, cost: real, n: nat)
    requires cost > 0.0
  {
    || n == FixedPoint(enough, cost)
    || (exists m: nat :: m <= 9 && n == Pow8(m) && InBand(enough, Time(cost, Pow8(m))))
    || (n == Pow8(10) && Time(cost, Pow8(9)) <= 150.0 && Time(cost, Pow8(9)) < 0.99 * enough as real)
  }

  /** A batch that is recorded although it takes less than the band; it takes no more than 150 microseconds. */
  ghost predicate JustRecorded(enough: nat, t: real) {
    0.95 * enough as real < t < 0.99 * enough as real && t <= 150.0
  }

  /** The last sample, of 8^from iterations or more, was just recorded; the count had been raised for the next batch. */
  ghost predicate EndsRaised(enough: nat, cost: real, from: nat, n: nat) {
    exists m: nat :: from <= m <= 9 && n == Pow8(m + 1) && JustRecorded(enough, Time(cost, Pow8(m)))
  }

  lemma RecordedBand(enough: nat, t: real)
    requires enough >= 158
    ensures !JustRecorded(enough, t)
  {
  }

  /** A batch of at most 150 microseconds that is resized takes less than the band. */
  lemma ShortBatch(v: View, t: real)
    requires Single(v) && Resizes(v, t) && t <= 150.0
    ensures t < 0.99 * v.enough as real
    ensures v.i < Timed(v, t).i ==> JustRecorded(v.enough, t)
    ensures Timed(v, t).iterations == 8 * v.iterations && Timed(v, t).i <= v.i + 1
    ensures Timed(v, t).phase.Cooldown? ==> GivesUp(v, t) || (v.i < Timed(v, t).i && v.i + 1 == Wanted(v))
  {
    hide Insert, Usecs;
  }

  lemma TimingsEnd(v: View, cost: real, k: nat)
    requires !v.phase.TimingInterval?
    ensures Timings(v, cost, k) == v
  {
  }

  /** The first batch that is resized to the fixed point: it is settled, or it was the last one. */
  lemma LongBatchFinishes(v: View, cost: real, k: nat)
    requires cost > 0.0 && Single(v) && Resizes(v, Time(cost, v.iterations)) && Time(cost, v.iterations) > 150.0
    requires k >= 1 + Wanted(v) - v.i
    ensures Timings(v, cost, k).phase.Cooldown? && Timings(v, cost, k).iterations == FixedPoint(v.enough, cost)
  {
    hide Scaled, FixedPoint, Timed, Time;
    var t := Time(cost, v.iterations);
    var w := Timed(v, t);
    TimedOnce(v, t);
    ResizeReachesFixedPoint(v.iterations, v.enough, cost);
    if w.phase.TimingInterval? {
      SettledFinishes(w, cost, k - 1);
    } else {
      TimingsEnd(w, cost, k - 1);
    }
  }

  /** From 8^j iterations: at most 10-j steps of times 8, one resize, and the samples themselves. */
  lemma {:induction false} GrowingFinishes(v: View, cost: real, j: nat, k: nat)
    requires cost > 0.0 && Single(v) && j <= 9 && v.iterations == Pow8(j)
    requires k >= 10 - j + Wanted(v) - v.i
    ensures Timings(v, cost, k).phase.Cooldown?
    ensures var n := Timings(v, cost, k).iterations;
            Ends(v.enough, cost, n) || (v.i + 1 == Wanted(v) && EndsRaised(v.enough, cost, j, n))
    decreases 10 - j
  {
    hide Scaled, FixedPoint, Timed, Time, Pow8, JustRecorded;
    var t := Time(cost, v.iterations);
    var w := Timed(v, t);
    TimedOnce(v, t);
    if !Resizes(v, t) {
      assert InBand(v.enough, t);
      SettledFinishes(v, cost, k);
    } else if t > 150.0 {
      LongBatchFinishes(v, cost, k);
    } else {
      ShortBatch(v, t);
      Pow8Step(j);
      TimeNonNegative(cost, v.iterations);
      if w.phase.TimingInterval? {
        if j == 9 {
          Pow8Nine();
          assert false;
        }
        GrowingFinishes(w, cost, j + 1, k - 1);
        if v.i < w.i {
          RaisedOnce(v.enough, cost, j);
        }
      } else {
        TimingsEnd(w, cost, k - 1);
        GivesUpAtCap(v, t, j);
      }
    }
  }

  lemma Pow8Step(j: nat)
    ensures Pow8(j + 1) == 8 * Pow8(j)
  {
  }

  lemma {:induction false} Pow8Mono(i: nat, j: nat)
    requires i <= j
    ensures Pow8(i) <= Pow8(j)
  {
    if i < j {
      Pow8Mono(i, j - 1);
    }
  }

  /** With a positive time only the largest count gives up. */
  lemma GivesUpAtCap(v: View, t: real, j: nat)
    requires j <= 9 && v.iterations == Pow8(j) && t >= 0.0
    ensures GivesUp(v, t) ==> j == 9
  {
    Pow8Nine();
    if j < 9 {
      Pow8Mono(j, 8);
      Pow8Step(8);
    }
  }

  lemma TimeNonNegative(cost: real, n: nat)
    requires cost > 0.0
    ensures Time(cost, n) >= 0.0
  {
  }

  lemma TimeOfMore(cost: real, k: nat, n: nat)
    requires cost > 0.0 && n >= 8 * k
    ensures Time(cost, n) >= 8.0 * Time(cost, k)
  {
    var more := n - 8 * k;
    assert n as real == 8.0 * k as real + more as real;
    assert cost * n as real == 8.0 * (cost * k as real) + cost * more as real;
    TimeNonNegative(cost, more);
  }

  /** A batch that was just recorded leaves the next ones far beyond the band. */
  lemma RaisedOnce(enough: nat, cost: real, j: nat)
    requires cost > 0.0 && enough >= 150 && JustRecorded(enough, Time(cost, Pow8(j)))
    ensures forall m: nat :: m > j ==> !JustRecorded(enough, Time(cost, Pow8(m)))
  {
    hide Time, Pow8;
    forall m: nat | m > j ensures !JustRecorded(enough, Time(cost, Pow8(m))) {
      Pow8Step(j);
      Pow8Mono(j + 1, m);
      TimeOfMore(cost, Pow8(j), Pow8(m));
    }
  }

  /**
   A single child with steady cost reaches cooldown within repetitions plus ten intervals, and its count
   ends at the fixed point, in the band or beyond the cap.  Only when a single sample is wanted and enough
   is below 158 can it be taken just below the band, with the count already raised.
   */
  lemma SingleChildFinishes(v: View, cost: real)
    requires cost > 0.0 && Single(v) && v.iterations == 1 && v.i == 0
    ensures var w := Timings(v, cost, Wanted(v) + 10);
            && w.phase.Cooldown?
            && (Ends(v.enough, cost, w.iterations) || (Wanted(v) == 1 && v.enough < 158 && EndsRaised(v.enough, cost, 0, w.iterations)))
  {
    hide Timings, Ends, Single, Time, JustRecorded;
    assert Pow8(0) == 1;
    GrowingFinishes(v, cost, 0, Wanted(v) + 10);
    if v.enough >= 158 {
      forall t ensures !JustRecorded(v.enough, t) {
        RecordedBand(v.enough, t);
      }
    }
  }

  // ---------- unequal counts on a run ----------

  /**
   A single child with enough 150 that takes two samples: the first batch is just recorded and the count
   raised, so the two samples have counts 1 and 8, and their average is larger than both.
   */
  lemma RunWithUnequalCounts(v: View)
    requires Fresh(v) && v.enough == 150 && v.iterations == 1 && v.parallel == 1 && v.repetitions == 2
    ensures var w := Calls(v, [Input(0.0, true, false), Input(145.0, false, false), Input(1160.0, false, false)]);
            var s := [Value(145, 1), Value(1160, 8)];
            && w.phase.Cooldown? && w.samples == s
            && Ratio(s[0]) == Ratio(s[1]) == 145.0 && Median(s) == Value(652, 4) && Ratio(Median(s)) == 163.0
  {
    hide Timed, Ratio, Insert, Usecs;
    var a, b, c := Input(0.0, true, false), Input(145.0, false, false), Input(1160.0, false, false);
    assert [] + [a] == [a] && [a] + [b] == [a, b] && [a, b] + [c] == [a, b, c];
    CallsMore(v, [], a);
    CallsMore(v, [a], b);
    CallsMore(v, [a, b], c);
    FirstBatch(Calls(v, [a]));
    SecondBatch(Calls(v, [a, b]));
    RatioIs(Value(145, 1), 145.0);
    RatioIs(Value(1160, 8), 145.0);
    RatioIs(Value(652, 4), 163.0);
  }

  lemma RatioIs(x: Value, r: real)
    requires x.n > 0 && r * x.n as real == x.u as real
    ensures Ratio(x) == r
  {
    CancelRight(Ratio(x), r, x.n as real);
  }

  lemma FirstBatch(v: View)
    requires v.phase.TimingInterval? && v.enough == 150 && v.iterations == 1 && v.parallel == 1 && v.repetitions == 2
    requires v.i == 0 && v.samples == []
    ensures Timed(v, 145.0) == v.(iterations := 8, i := 1, samples := [Value(145, 1)])
  {
    assert Usecs(145.0) == 145;
    FirstSample(v, 145.0, Value(145, 1));
    hide Insert;
  }

  lemma SecondBatch(v: View)
    requires v.phase.TimingInterval? && v.enough == 150 && v.iterations == 8 && v.parallel == 1 && v.repetitions == 2
    requires v.i == 1 && v.samples == [Value(145, 1)]
    ensures Timed(v, 1160.0).phase.Cooldown? && Timed(v, 1160.0).samples == [Value(145, 1), Value(1160, 8)]
  {
    hide Scaled;
    assert Usecs(1160.0) == 1160;
    RatioIs(Value(145, 1), 145.0);
    RatioIs(Value(1160, 8), 145.0);
    hide Ratio;
    PositionIsFirst(Value(1160, 8), [Value(145, 1)], 1);
    assert [Value(145, 1)][..1] + [Value(1160, 8)] + [Value(145, 1)][1..] == [Value(145, 1), Value(1160, 8)];
  }

  lemma CallsMore(v: View, xs: seq<Input>, x: Input)
    ensures Calls(v, xs + [x]) == Step(Calls(v, xs), x).0
  {
    assert (xs + [x])[..|xs|] == xs;
  }

  lemma FirstSample(v: View, elapsed: real, x: Value)
    requires v.phase.TimingInterval? && v.samples == [] && x == Value(Usecs(elapsed), v.iterations) && x.u > 0
    requires Records(v, elapsed)
    ensures Timed(v, elapsed).samples == [x]
  {
    PositionIsFirst(x, [], 0);
    assert [] + [x] + [] == [x];
  }
}
