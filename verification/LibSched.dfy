/** Placement of processes over processors: handle_scheduler, reverse_bits and the mask loop of sched_pin. */
module LibSched {
  import opened BitReversal
  import opened Arith
  import opened Options
  import opened Counting

  /** LMBENCH_SCHED: how the user wants the processes placed. */
  datatype Policy =
    | Default
    | Single
    | Balanced
    | BalancedSpread
    | Unique
    | UniqueSpread
    | Custom(values: seq<nat>)
    | CustomUnique(values: seq<nat>)
    | Unknown

  // ---------- reverse_bits ----------

  /** Bits needed for the largest processor number, at least one. */
  function Width(ncpus: nat): nat
    requires ncpus > 0
  {
    Log2(ncpus - 1) + 1
  }

  method ReverseBits(ncpus: nat, cpu: nat) returns (r: nat)
    requires ncpus > 0
    ensures r == Rev(Width(ncpus), cpu)
  {
    var max := ncpus - 1;
    var i: nat, nbits := max / 2, 1;
    while i > 0
      invariant nbits + (if i == 0 then 0 else Log2(i) + 1) == Width(ncpus)
    {
      i := i / 2;
      nbits := nbits + 1;
    }
    r := ReverseLoop(nbits, cpu);
  }

  /** Where the spreading policies put logical process id before the processor mask is applied. */
  function Spread(ncpus: nat, id: nat): (c: nat)
    requires ncpus > 0
    ensures c < ncpus
  {
    Rev(Width(ncpus), id) % ncpus
  }

  lemma WidthBounds(ncpus: nat)
    requires ncpus > 0
    ensures ncpus <= Pow2(Width(ncpus))
    ensures ncpus > 2 ==> Pow2(Width(ncpus) - 1) < ncpus
  {
  }

  /** A power of two, or one less. */
  ghost predicate Regular(ncpus: nat) {
    IsPow2(ncpus) || IsPow2(ncpus + 1)
  }

  ghost predicate SpreadsApart(ncpus: nat)
    requires ncpus > 0
  {
    forall a: nat, b: nat :: a < b < ncpus ==> Spread(ncpus, a) != Spread(ncpus, b)
  }

  lemma {:induction false} RevOnes(bits: nat)
    ensures Rev(bits, Pow2(bits) - 1) == Pow2(bits) - 1
  {
    if bits > 0 {
      var p := Pow2(bits - 1);
      assert (2 * p - 1) % 2 == 1 && (2 * p - 1) / 2 == p - 1;
      RevOnes(bits - 1);
    }
  }

  /** All ones but the lowest bit. */
  lemma RevOnesButLowest(bits: nat)
    requires bits > 0
    ensures Rev(bits, Pow2(bits) - 2) == Pow2(bits - 1) - 1
  {
    var p := Pow2(bits - 1);
    assert (2 * p - 2) % 2 == 0 && (2 * p - 2) / 2 == p - 1;
    RevOnes(bits - 1);
  }

  /** A regular count is the number of values of its width, or misses only the all-ones value. */
  lemma RegularWidth(ncpus: nat)
    requires ncpus > 1 && Regular(ncpus)
    ensures ncpus == Pow2(Width(ncpus)) || ncpus == Pow2(Width(ncpus)) - 1
  {
    var k: nat :| ncpus == Pow2(k) || ncpus + 1 == Pow2(k);
    assert Pow2(0) == 1 && Pow2(1) == 2;
    if k <= 1 {
      Pow2Mono(k, 1);
      assert ncpus == 2 && Log2(1) == 0;
    } else {
      assert Pow2(k - 1) == 2 * Pow2(k - 2);
      Log2Unique(ncpus - 1, k - 1);
    }
  }

  lemma RegularStaysBelow(ncpus: nat, id: nat)
    requires Regular(ncpus) && id < ncpus
    ensures id < Pow2(Width(ncpus)) && Spread(ncpus, id) == Rev(Width(ncpus), id)
  {
    hide Width, Regular, Rev;
    var w := Width(ncpus);
    WidthBounds(ncpus);
    if ncpus == 1 {
      RevZero(w);
    } else {
      RegularWidth(ncpus);
      if ncpus == Pow2(w) - 1 && Rev(w, id) == ncpus {
        RevOnes(w);
        RevInjective(w, id, ncpus);
      }
    }
    SmallMod(Rev(w, id), ncpus);
  }

  lemma RegularSpreads(ncpus: nat)
    requires ncpus > 0 && Regular(ncpus)
    ensures SpreadsApart(ncpus)
  {
    forall a: nat, b: nat | a < b < ncpus ensures Spread(ncpus, a) != Spread(ncpus, b) {
      RegularStaysBelow(ncpus, a);
      RegularStaysBelow(ncpus, b);
      if Spread(ncpus, a) == Spread(ncpus, b) {
        RevInjective(Width(ncpus), a, b);
      }
    }
  }

  lemma IrregularBetween(ncpus: nat)
    requires ncpus > 0 && !Regular(ncpus)
    ensures ncpus > 2 && Pow2(Width(ncpus) - 1) < ncpus < Pow2(Width(ncpus)) - 1
  {
    hide Width;
    assert Pow2(0) == 1 && Pow2(1) == 2;
    WidthBounds(ncpus);
  }

  /** With any other count there is a processor that nobody gets. */
  lemma IrregularMisses(ncpus: nat) returns (c: nat)
    requires ncpus > 0 && !Regular(ncpus)
    ensures c < ncpus && forall id: nat :: id < ncpus ==> Spread(ncpus, id) != c
  {
    hide Width, Rev, Regular;
    var w := Width(ncpus);
    IrregularBetween(ncpus);
    var half := Pow2(w - 1);
    assert Pow2(w) == 2 * half;
    c := half - 1;
    forall id: nat | id < ncpus ensures Spread(ncpus, id) != c {
      var v := Rev(w, id);
      if v % ncpus == c {
        ShortRemainder(v, ncpus, c, half);
        RevOnesButLowest(w);
        RevInjective(w, id, 2 * half - 2);
      }
    }
  }

  lemma ShortRemainder(v: nat, ncpus: nat, c: nat, half: nat)
    requires v < 2 * half && half < ncpus && c + 1 == half && v % ncpus == c
    ensures v == c
  {
    if v >= ncpus {
      DivUnique(v, 1, v - ncpus, ncpus);
    }
  }

  function Image(n: nat, f: nat -> nat): set<nat> {
    if n == 0 then {} else Image(n - 1, f) + {f(n - 1)}
  }

  lemma {:induction false} ImageMember(n: nat, f: nat -> nat, v: nat)
    ensures v in Image(n, f) <==> exists a: nat :: a < n && f(a) == v
  {
    if n > 0 {
      ImageMember(n - 1, f, v);
    }
  }

  lemma {:induction false} ImageSize(n: nat, f: nat -> nat)
    requires forall a: nat, b: nat :: a < b < n ==> f(a) != f(b)
    ensures |Image(n, f)| == n
  {
    if n > 0 {
      ImageSize(n - 1, f);
      ImageMember(n - 1, f, f(n - 1));
    }
  }

  /** n values below n that leave one out are not all different. */
  lemma Pigeonhole(n: nat, f: nat -> nat, c: nat)
    requires c < n && forall a: nat :: a < n ==> f(a) < n && f(a) != c
    ensures exists a: nat, b: nat :: a < b < n && f(a) == f(b)
  {
    if forall a: nat, b: nat :: a < b < n ==> f(a) != f(b) {
      ImageSize(n, f);
      NumbersSize(n);
      var image, whole := Image(n, f), Numbers(n);
      forall v | v in image ensures v in whole - {c} {
        ImageMember(n, f, v);
      }
      SubsetSize(image, whole - {c});
    }
  }

  /** Spreading gives every processor one process exactly when the number of processors is regular. */
  lemma SpreadsExactlyWhenRegular(ncpus: nat)
    requires ncpus > 0
    ensures SpreadsApart(ncpus) <==> Regular(ncpus)
  {
    if Regular(ncpus) {
      RegularSpreads(ncpus);
    } else {
      var c := IrregularMisses(ncpus);
      Pigeonhole(ncpus, id => Spread(ncpus, id), c);
    }
  }

  // ---------- sched_pin ----------

  /** How many of the first n processors are allowed. */
  function Allowed(mask: seq<bool>, n: nat): (c: nat)
    requires n <= |mask|
    ensures c <= n
  {
    if n == 0 then 0 else Allowed(mask, n - 1) + (if mask[n - 1] then 1 else 0)
  }

  function Total(mask: seq<bool>): nat {
    Allowed(mask, |mask|)
  }

  /** The j-th allowed processor among the first n, counting from 0. */
  function Nth(mask: seq<bool>, n: nat, j: nat): (p: nat)
    requires n <= |mask| && j < Allowed(mask, n)
    ensures p < n && mask[p] && Allowed(mask, p) == j
  {
    if j < Allowed(mask, n - 1) then Nth(mask, n - 1, j) else n - 1
  }

  lemma {:induction false} AllowedMono(mask: seq<bool>, p: nat, q: nat)
    requires p <= q <= |mask|
    ensures Allowed(mask, p) <= Allowed(mask, q)
  {
    if p < q {
      AllowedMono(mask, p, q - 1);
    }
  }

  /** The processor that logical processor cpu is pinned to. */
  function Pinned(mask: seq<bool>, cpu: nat): (p: nat)
    requires Total(mask) > 0
    ensures p < |mask| && mask[p] && Allowed(mask, p) == cpu % Total(mask)
  {
    Nth(mask, |mask|, cpu % Total(mask))
  }

  /** Different counts modulo the allowed processors mean different processors. */
  lemma PinnedApart(mask: seq<bool>, a: nat, b: nat)
    requires Total(mask) > 0
    ensures Pinned(mask, a) == Pinned(mask, b) <==> a % Total(mask) == b % Total(mask)
  {
  }

  ghost predicate OneBit(mask: seq<bool>, p: nat) {
    p < |mask| && forall i :: 0 <= i < |mask| ==> (mask[i] <==> i == p)
  }

  class Affinity {
    var ready: bool           // the kernel has been asked for the allowed processors
    var cpumask: seq<bool>    // its answer
    var ncpus: nat
    var mask: array<bool>     // what is passed to sched_setaffinity

    ghost predicate Valid()
      reads this
    {
      ready ==> ncpus == Total(cpumask) && ncpus > 0 && mask.Length == |cpumask|
    }

    constructor ()
      ensures Valid() && !ready && fresh(mask)
    {
      ready, cpumask, ncpus := false, [], 0;
      mask := new bool[0];
    }

    /** Asks the kernel once and counts the processors it allows. */
    method GetAffinity(allowed: seq<bool>)
      requires Total(allowed) > 0
      modifies this
      ensures Valid() && ready && cpumask == allowed && fresh(mask)
    {
      cpumask, ncpus := allowed, 0;
      mask := new bool[|allowed|];
      var i := 0;
      while i < |cpumask|
        invariant i <= |cpumask| && cpumask == allowed && mask.Length == |cpumask| && fresh(mask)
        invariant ncpus == Allowed(allowed, i)
      {
        if cpumask[i] {
          ncpus := ncpus + 1;
        }
        i := i + 1;
      }
      ready := true;
    }

    /** Pins to the allowed processor with the number cpu modulo their count. */
    method SchedPin(allowed: seq<bool>, cpu0: nat)
      requires Valid() && Total(allowed) > 0
      modifies this, mask
      ensures Valid() && ready && cpumask == (if old(ready) then old(cpumask) else allowed)
      ensures mask == old(mask) || fresh(mask)
      ensures OneBit(mask[..], Pinned(cpumask, cpu0))
    {
      if !ready {
        GetAffinity(allowed);
      }
      var cpu := cpu0 % ncpus;
      var z := 0;
      while z < mask.Length
        modifies mask
        invariant z <= mask.Length && forall t :: 0 <= t < z ==> !mask[t]
      {
        mask[z] := false;
        z := z + 1;
      }
      SelectAllowed(cpumask, mask, cpu, Pinned(cpumask, cpu0));
    }

    /** Returns None when placement is left to the operating system, else the processor the process is pinned to. */
    method HandleScheduler(policy: Policy, childno: nat, benchproc: nat, nbenchprocs: nat, online: nat, allowed: seq<bool>)
      returns (processor: Option<nat>)
      requires Valid() && Total(allowed) > 0 && online > 0
      modifies this, mask
      ensures Valid() && (mask == old(mask) || fresh(mask))
      ensures processor == Placed(policy, childno, benchproc, nbenchprocs, online, if old(ready) then old(cpumask) else allowed)
      ensures processor.Some? ==> OneBit(mask[..], processor.value)
    {
      hide OneBit, Cpu, Total, Pinned;
      var cpu := ChooseCpu(policy, childno, benchproc, nbenchprocs, online);
      if cpu == None {
        return None;
      }
      SchedPin(allowed, cpu.value % online);
      processor := Some(Pinned(cpumask, cpu.value % online));
    }
  }

  /** The cases of handle_scheduler. */
  method ChooseCpu(policy: Policy, childno: nat, benchproc: nat, nbenchprocs: nat, online: nat) returns (cpu: Option<nat>)
    requires online > 0
    ensures cpu == Cpu(policy, childno, benchproc, nbenchprocs, online)
  {
    hide Logical, Rev, Width;
    match policy {
      case Single => return Some(0);
      case Balanced => return Some(childno);
      case BalancedSpread =>
        var r := ReverseBits(online, childno);
        return Some(r);
      case Unique => return Some(Logical(childno, benchproc, nbenchprocs));
      case UniqueSpread =>
        var r := ReverseBits(online, Logical(childno, benchproc, nbenchprocs));
        return Some(r);
      case Custom(values) => return Some(Choose(values, childno));
      case CustomUnique(values) => return Some(Choose(values, Logical(childno, benchproc, nbenchprocs)));
      case _ => return None;
    }
  }

  /** The loop of sched_pin that finds the allowed processor number cpu and sets its bit. */
  method SelectAllowed(cpumask: seq<bool>, mask: array<bool>, cpu: nat, ghost target: nat)
    requires mask.Length == |cpumask| && forall t :: 0 <= t < mask.Length ==> !mask[t]
    requires target < |cpumask| && cpumask[target] && Allowed(cpumask, target) == cpu
    modifies mask
    ensures OneBit(mask[..], target)
  {
    hide Allowed;
    AllowedStep(cpumask, 0);
    var i, j := 0, 0;
    while i < |cpumask|
      invariant i <= target && j == Allowed(cpumask, i) <= cpu
      invariant forall t :: 0 <= t < mask.Length ==> !mask[t]
    {
      AllowedStep(cpumask, i);
      if cpumask[i] {
        if j >= cpu {
          SameNth(cpumask, i, target);
          mask[i] := true;
          break;
        }
        j := j + 1;
      }
      NotYet(cpumask, i, target);
      i := i + 1;
    }
  }

  lemma AllowedStep(mask: seq<bool>, i: nat)
    requires i < |mask|
    ensures Allowed(mask, 0) == 0 && Allowed(mask, i + 1) == Allowed(mask, i) + (if mask[i] then 1 else 0)
  {
  }

  lemma SameNth(mask: seq<bool>, i: nat, target: nat)
    requires i <= target < |mask| && mask[i] && mask[target] && Allowed(mask, target) <= Allowed(mask, i)
    ensures i == target
  {
    if i < target {
      AllowedMono(mask, i + 1, target);
    }
  }

  lemma NotYet(mask: seq<bool>, i: nat, target: nat)
    requires i <= target < |mask| && mask[target] && (mask[i] ==> Allowed(mask, i) < Allowed(mask, target))
    ensures i < target && Allowed(mask, i + 1) <= Allowed(mask, target)
  {
    if i < target {
      AllowedMono(mask, i + 1, target);
    }
  }

  // ---------- where the processes go ----------

  /** custom: the entry of the user's list. */
  function Choose(values: seq<nat>, id: nat): nat {
    if values == [] then 0 else values[id % |values|]
  }

  /** The number of a process among all: benchproc 0 is the benchmark process, 1..nbenchprocs its children. */
  function Logical(childno: nat, benchproc: nat, nbenchprocs: nat): nat {
    childno * (nbenchprocs + 1) + benchproc
  }

  /** The processor number a policy asks for, before it is reduced modulo the processors online. */
  function Cpu(policy: Policy, childno: nat, benchproc: nat, nbenchprocs: nat, online: nat): Option<nat>
    requires online > 0
  {
    var id := Logical(childno, benchproc, nbenchprocs);
    match policy
    case Default => None
    case Single => Some(0)
    case Balanced => Some(childno)
    case BalancedSpread => Some(Rev(Width(online), childno))
    case Unique => Some(id)
    case UniqueSpread => Some(Rev(Width(online), id))
    case Custom(values) => Some(Choose(values, childno))
    case CustomUnique(values) => Some(Choose(values, id))
    case Unknown => None
  }

  /** Where a process ends up. */
  function Placed(policy: Policy, childno: nat, benchproc: nat, nbenchprocs: nat, online: nat, mask: seq<bool>): Option<nat>
    requires Total(mask) > 0 && online > 0
  {
    match Cpu(policy, childno, benchproc, nbenchprocs, online)
    case None => None
    case Some(cpu) => Some(Pinned(mask, cpu % online))
  }

  /** Two processes of a run have different numbers. */
  lemma LogicalDistinct(c: nat, b: nat, c': nat, b': nat, nbenchprocs: nat)
    requires b <= nbenchprocs && b' <= nbenchprocs
    ensures Logical(c, b, nbenchprocs) == Logical(c', b', nbenchprocs) <==> c == c' && b == b'
  {
    DivUnique(Logical(c, b, nbenchprocs), c, b, nbenchprocs + 1);
    if Logical(c, b, nbenchprocs) == Logical(c', b', nbenchprocs) {
      DivUnique(Logical(c, b, nbenchprocs), c', b', nbenchprocs + 1);
    }
  }

  /** Every child below the processor count has a processor of its own. */
  ghost predicate OwnProcessors(policy: Policy, online: nat, mask: seq<bool>)
    requires Total(mask) > 0 && online > 0
  {
    forall c: nat, d: nat :: c < d < online ==> Placed(policy, c, 0, 0, online, mask) != Placed(policy, d, 0, 0, online, mask)
  }

  /** With as many allowed processors as numbers, pinning keeps numbers apart. */
  lemma PinnedBelow(mask: seq<bool>, online: nat, a: nat, b: nat)
    requires Total(mask) == online && a < online && b < online
    ensures Pinned(mask, a) == Pinned(mask, b) <==> a == b
  {
    PinnedApart(mask, a, b);
    SmallMod(a, online);
    SmallMod(b, online);
  }

  /** Two spreading policies, two processes: the same processor means the same place among all. */
  lemma SpreadPins(online: nat, mask: seq<bool>, i: nat, j: nat)
    requires online > 0 && Total(mask) == online
    ensures Pinned(mask, Spread(online, i)) == Pinned(mask, Spread(online, j)) <==> Spread(online, i) == Spread(online, j)
  {
    hide Pinned, Spread;
    PinnedBelow(mask, online, Spread(online, i), Spread(online, j));
  }

  lemma BalancedPlace(c: nat, online: nat, mask: seq<bool>)
    requires online > 0 && Total(mask) == online
    ensures Placed(BalancedSpread, c, 0, 0, online, mask) == Some(Pinned(mask, Spread(online, c)))
  {
  }

  /**
   With all processors allowed, BALANCED_SPREAD pins as many children as there are processors to
   different processors exactly when the number of processors is a power of two or one less.
   */
  lemma BalancedSpreadPins(online: nat, mask: seq<bool>)
    requires online > 0 && Total(mask) == online
    ensures OwnProcessors(BalancedSpread, online, mask) <==> Regular(online)
  {
    hide Regular, Pinned, Spread, Placed, Total;
    SpreadsExactlyWhenRegular(online);
    forall c: nat, d: nat
      ensures Placed(BalancedSpread, c, 0, 0, online, mask) == Placed(BalancedSpread, d, 0, 0, online, mask) <==>
              Spread(online, c) == Spread(online, d)
    {
      SpreadPins(online, mask, c, d);
      BalancedPlace(c, online, mask);
      BalancedPlace(d, online, mask);
    }
  }

  lemma UniquePlace(c: nat, b: nat, nbenchprocs: nat, online: nat, mask: seq<bool>)
    requires online > 0 && Total(mask) == online
    ensures Placed(UniqueSpread, c, b, nbenchprocs, online, mask) == Some(Pinned(mask, Spread(online, Logical(c, b, nbenchprocs))))
  {
    hide Logical;
  }

  lemma ApartMeansInjective(online: nat, i: nat, j: nat)
    requires online > 0 && SpreadsApart(online) && i < online && j < online
    ensures Spread(online, i) == Spread(online, j) <==> i == j
  {
    hide Spread;
    assert i < j ==> Spread(online, i) != Spread(online, j);
    assert j < i ==> Spread(online, j) != Spread(online, i);
  }

  /** UNIQUE_SPREAD on a regular number of processors: all processes of a run that fit get different ones. */
  lemma UniqueSpreadPins(c: nat, b: nat, c': nat, b': nat, nbenchprocs: nat, online: nat, mask: seq<bool>)
    requires online > 0 && Total(mask) == online && Regular(online) && b <= nbenchprocs && b' <= nbenchprocs
    requires Logical(c, b, nbenchprocs) < online && Logical(c', b', nbenchprocs) < online
    ensures Placed(UniqueSpread, c, b, nbenchprocs, online, mask) == Placed(UniqueSpread, c', b', nbenchprocs, online, mask)
       <==> c == c' && b == b'
  {
    hide Regular, Pinned, Spread, Placed, Total, SpreadsApart, Logical;
    LogicalDistinct(c, b, c', b', nbenchprocs);
    SpreadsExactlyWhenRegular(online);
    var i, j := Logical(c, b, nbenchprocs), Logical(c', b', nbenchprocs);
    SpreadPins(online, mask, i, j);
    UniquePlace(c, b, nbenchprocs, online, mask);
    UniquePlace(c', b', nbenchprocs, online, mask);
    ApartMeansInjective(online, i, j);
  }

  /** All processes of a run that fit the machine have processors of their own. */
  ghost predicate ProcessesApart(nbenchprocs: nat, online: nat, mask: seq<bool>)
    requires online > 0 && Total(mask) == online
  {
    forall c: nat, b: nat, c': nat, b': nat ::
      b <= nbenchprocs && b' <= nbenchprocs && Logical(c, b, nbenchprocs) < online && Logical(c', b', nbenchprocs) < online &&
      Placed(UniqueSpread, c, b, nbenchprocs, online, mask) == Placed(UniqueSpread, c', b', nbenchprocs, online, mask)
      ==> c == c' && b == b'
  }

  lemma LogicalParts(id: nat, nbenchprocs: nat) returns (c: nat, b: nat)
    ensures b <= nbenchprocs && Logical(c, b, nbenchprocs) == id
  {
    c, b := id / (nbenchprocs + 1), id % (nbenchprocs + 1);
    DivParts(id, nbenchprocs + 1);
  }

  /** With all processors allowed, UNIQUE_SPREAD keeps the processes of a run apart exactly on the same machines. */
  lemma UniqueSpreadExactly(nbenchprocs: nat, online: nat, mask: seq<bool>)
    requires online > 0 && Total(mask) == online
    ensures ProcessesApart(nbenchprocs, online, mask) <==> Regular(online)
  {
    hide Regular, Pinned, Spread, Placed, Total, Logical;
    if Regular(online) {
      forall c: nat, b: nat, c': nat, b': nat |
        b <= nbenchprocs && b' <= nbenchprocs && Logical(c, b, nbenchprocs) < online && Logical(c', b', nbenchprocs) < online &&
        Placed(UniqueSpread, c, b, nbenchprocs, online, mask) == Placed(UniqueSpread, c', b', nbenchprocs, online, mask)
        ensures c == c' && b == b'
      {
        UniqueSpreadPins(c, b, c', b', nbenchprocs, online, mask);
      }
    } else {
      SpreadsExactlyWhenRegular(online);
      var i: nat, j: nat :| i < j < online && Spread(online, i) == Spread(online, j);
      var c, b := LogicalParts(i, nbenchprocs);
      var c', b' := LogicalParts(j, nbenchprocs);
      UniquePlace(c, b, nbenchprocs, online, mask);
      UniquePlace(c', b', nbenchprocs, online, mask);
    }
  }

  /** DEFAULT, or no policy that is known, leaves the placement alone; every other policy pins to an allowed processor. */
  lemma PinnedUnlessDefault(policy: Policy, c: nat, b: nat, nbenchprocs: nat, online: nat, mask: seq<bool>)
    requires Total(mask) > 0 && online > 0
    ensures Placed(policy, c, b, nbenchprocs, online, mask) == None <==> policy == Default || policy == Unknown
    ensures var p := Placed(policy, c, b, nbenchprocs, online, mask); p.Some? ==> p.value < |mask| && mask[p.value]
  {
    hide Total, Logical, Rev, Width;
  }

  /** SINGLE puts all processes on the first allowed processor. */
  lemma SinglePins(c: nat, b: nat, nbenchprocs: nat, online: nat, mask: seq<bool>)
    requires Total(mask) > 0 && online > 0
    ensures var p := Placed(Single, c, b, nbenchprocs, online, mask);
            p.Some? && p.value < |mask| && mask[p.value] && forall q :: 0 <= q < p.value ==> !mask[q]
  {
    SmallMod(0, online);
    SmallMod(0, Total(mask));
    var p := Pinned(mask, 0);
    forall q | 0 <= q < p ensures !mask[q] {
      AllowedStep(mask, q);
      AllowedMono(mask, q + 1, p);
    }
  }

  /** BALANCED: the processes of a benchmark share a processor, and benchmarks that fit the machine have their own. */
  lemma BalancedPins(c: nat, b: nat, c': nat, b': nat, nbenchprocs: nat, online: nat, mask: seq<bool>)
    requires online > 0 && Total(mask) == online && c < online && c' < online
    ensures Placed(Balanced, c, b, nbenchprocs, online, mask) == Placed(Balanced, c', b', nbenchprocs, online, mask) <==> c == c'
  {
    hide Pinned, Logical, Rev, Width;
    PinnedBelow(mask, online, c, c');
    SmallMod(c, online);
    SmallMod(c', online);
  }

  /** With more benchmarks than processors BALANCED goes round them: the same processor exactly for the same remainder. */
  lemma BalancedGoesRound(c: nat, b: nat, c': nat, b': nat, nbenchprocs: nat, online: nat, mask: seq<bool>)
    requires online > 0 && Total(mask) == online
    ensures Placed(Balanced, c, b, nbenchprocs, online, mask) == Placed(Balanced, c', b', nbenchprocs, online, mask) <==>
            c % online == c' % online
  {
    hide Pinned, Logical, Rev, Width;
    PinnedBelow(mask, online, c % online, c' % online);
  }

  /** The custom policies give process id the entry of the list at id modulo its length, and 0 when there is none. */
  lemma CustomPins(values: seq<nat>, c: nat, b: nat, nbenchprocs: nat, online: nat, mask: seq<bool>)
    requires Total(mask) == online && online > 0
    ensures var p := Placed(Custom(values), c, b, nbenchprocs, online, mask);
            && p.Some? && p.value < |mask| && mask[p.value]
            && Allowed(mask, p.value) == (if values == [] then 0 else values[c % |values|]) % online
    ensures var p, id := Placed(CustomUnique(values), c, b, nbenchprocs, online, mask), c * (nbenchprocs + 1) + b;
            && p.Some? && p.value < |mask| && mask[p.value]
            && Allowed(mask, p.value) == (if values == [] then 0 else values[id % |values|]) % online
  {
    hide Total, Rev, Width;
    var id := c * (nbenchprocs + 1) + b;
    SmallMod((if values == [] then 0 else values[c % |values|]) % online, online);
    SmallMod((if values == [] then 0 else values[id % |values|]) % online, online);
  }

  /** UNIQUE goes round the processors with the numbers of the processes. */
  lemma UniqueGoesRound(c: nat, b: nat, nbenchprocs: nat, online: nat, mask: seq<bool>)
    requires Total(mask) == online && online > 0
    ensures var p := Placed(Unique, c, b, nbenchprocs, online, mask);
            p.Some? && p.value < |mask| && mask[p.value] && Allowed(mask, p.value) == (c * (nbenchprocs + 1) + b) % online
  {
    hide Total, Rev, Width;
    SmallMod((c * (nbenchprocs + 1) + b) % online, online);
  }

  /** UNIQUE needs no condition on the number of processors. */
  lemma UniquePins(c: nat, b: nat, c': nat, b': nat, nbenchprocs: nat, online: nat, mask: seq<bool>)
    requires online > 0 && Total(mask) == online && b <= nbenchprocs && b' <= nbenchprocs
    requires Logical(c, b, nbenchprocs) < online && Logical(c', b', nbenchprocs) < online
    ensures Placed(Unique, c, b, nbenchprocs, online, mask) == Placed(Unique, c', b', nbenchprocs, online, mask)
       <==> c == c' && b == b'
  {
    hide Regular, Pinned, Logical, Rev, Width, SpreadsApart;
    LogicalDistinct(c, b, c', b', nbenchprocs);
    var i, j := Logical(c, b, nbenchprocs), Logical(c', b', nbenchprocs);
    PinnedBelow(mask, online, i, j);
    SmallMod(i, online);
    SmallMod(j, online);
  }
}
