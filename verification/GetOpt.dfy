/** getopt.c: reading the options of a command line one call at a time. */
module GetOpt {
  import opened Options

  /** EOF, '?' or the letter of an option. */
  datatype Answer = Eof | Error | Letter(c: char)

  /** What the option string says of a letter: "d", "d:", "d|", "d;" or nothing. */
  datatype Kind = Unknown | Plain | Required | Optional | Joined

  /** optind, n, optarg and optopt; n is the position in the current word. */
  datatype State = State(optind: nat, n: nat, optarg: Option<string>, optopt: char)

  function Find(opts: string, c: char, from: nat): (t: nat)
    requires from <= |opts|
    ensures from <= t <= |opts| && (t < |opts| ==> opts[t] == c) && forall u :: from <= u < t ==> opts[u] != c
    decreases |opts| - from
  {
    if from == |opts| || opts[from] == c then from else Find(opts, c, from + 1)
  }

  function KindAt(opts: string, t: nat): Kind
    requires t <= |opts|
  {
    if t == |opts| then Unknown
    else if t + 1 == |opts| then Plain
    else match opts[t + 1]
         case ':' => Required
         case '|' => Optional
         case ';' => Joined
         case _ => Plain
  }

  function KindOf(opts: string, c: char): Kind {
    KindAt(opts, Find(opts, c, 0))
  }

  predicate OptionWord(w: string) {
    |w| >= 2 && w[0] == '-'
  }

  predicate StartsWithDash(w: string) {
    w != "" && w[0] == '-'
  }

  function Start(s: State): State {
    if s.optind == 0 then s.(optind := 1, n := 1) else s
  }

  /** The options are over. */
  predicate Ended(s: State, av: seq<string>) {
    s.optind >= |av| || !OptionWord(av[s.optind])
  }

  /** What assert(av[optind][n]) demands. */
  predicate Valid(s: State, av: seq<string>) {
    var t := Start(s);
    !Ended(t, av) ==> 1 <= t.n < |av[t.optind]|
  }

  function NextWord(s: State): State {
    s.(optind := s.optind + 1, n := 1)
  }

  /** One call. */
  function Step(s0: State, av: seq<string>, opts: string): (State, Answer)
    requires Valid(s0, av)
  {
    var s := Start(s0);
    if Ended(s, av) then (s, Eof) else
    var w := av[s.optind];
    var c := w[s.n];
    match KindOf(opts, c)
    case Unknown => (s.(optopt := c), Error)
    case Plain => (if s.n + 1 == |w| then NextWord(s) else s.(n := s.n + 1), Letter(c))
    case kind =>
      if s.n + 1 < |w| then (NextWord(s).(optarg := Some(w[s.n + 1..])), Letter(c))
      else if kind == Optional then (NextWord(s).(optarg := None), Letter(c))
      else if kind == Joined then (s.(optind := s.optind + 1, optarg := None, optopt := c), Error)
      else if s.optind + 1 == |av| || StartsWithDash(av[s.optind + 1]) then (s.(optopt := c), Error)
      else (NextWord(s).(optind := s.optind + 2, optarg := Some(av[s.optind + 1])), Letter(c))
  }

  class Getopt {
    var optopt: char
    var optind: nat
    var optarg: Option<string>
    var n: nat

    function Now(): State
      reads this
    {
      State(optind, n, optarg, optopt)
    }

    constructor ()
      ensures Now() == Initial()
    {
      optopt, optind, optarg, n := '\0', 0, None, 0;
    }

    method Next(av: seq<string>, opts: string) returns (answer: Answer)
      requires Valid(Now(), av)
      modifies this
      ensures (Now(), answer) == Step(old(Now()), av, opts)
    {
      if optind == 0 {
        optind := 1;
        n := 1;
      }
      if optind >= |av| || |av[optind]| == 0 || av[optind][0] != '-' || |av[optind]| == 1 {
        return Eof;
      }
      var w := av[optind];
      var t := 0;
      while t < |opts|
        invariant t <= |opts| && Find(opts, w[n], 0) == Find(opts, w[n], t)
      {
        if opts[t] == w[n] {
          break;
        }
        t := t + 1;
      }
      if t == |opts| {
        optopt := w[n];
        return Error;
      }
      if t + 1 == |opts| || (opts[t + 1] != ':' && opts[t + 1] != '|' && opts[t + 1] != ';') {
        if n + 1 == |w| {
          optind := optind + 1;
          n := 1;
        } else {
          n := n + 1;
        }
        return Letter(opts[t]);
      }
      if n + 1 < |w| {
        optarg := Some(w[n + 1..]);
        optind := optind + 1;
        n := 1;
        return Letter(opts[t]);
      }
      if opts[t + 1] == '|' {
        optarg := None;
        optind := optind + 1;
        n := 1;
        return Letter(opts[t]);
      }
      if opts[t + 1] == ';' {
        optarg := None;
        optind := optind + 1;
        optopt := opts[t];
        return Error;
      }
      if optind + 1 == |av| || StartsWithDash(av[optind + 1]) {
        optopt := w[n];
        return Error;
      }
      optarg := Some(av[optind + 1]);
      optind := optind + 2;
      n := 1;
      return Letter(opts[t]);
    }
  }

  function Initial(): State {
    State(0, 0, None, '\0')
  }

  /** A "d;" option at the end of its word, which has no argument, and a next word too short for the position kept. */
  predicate Slips(s0: State, av: seq<string>, opts: string)
    requires Valid(s0, av)
  {
    var s := Start(s0);
    && !Ended(s, av)
    && KindOf(opts, av[s.optind][s.n]) == Joined
    && s.n + 1 == |av[s.optind]|
    && s.optind + 1 < |av| && OptionWord(av[s.optind + 1]) && |av[s.optind + 1]| <= s.n
  }

  /** The assertion holds on the first call, and on the call after any other unless the call slipped. */
  lemma AssertionKept(s: State, av: seq<string>, opts: string)
    requires Valid(s, av)
    ensures Valid(Initial(), av)
    ensures Valid(Step(s, av, opts).0, av) <==> !Slips(s, av, opts)
  {
  }

  /** The letter a call looks at. */
  function Current(s0: State, av: seq<string>): char
    requires Valid(s0, av) && !Ended(Start(s0), av)
  {
    av[Start(s0).optind][Start(s0).n]
  }

  /** Nothing that could be an argument follows: the word ends here, and with no option word or end of line after it. */
  predicate NoneFollows(s0: State, av: seq<string>)
    requires Valid(s0, av) && !Ended(Start(s0), av)
  {
    var s := Start(s0);
    s.n + 1 == |av[s.optind]| && (s.optind + 1 == |av| || "-" <= av[s.optind + 1])
  }

  /** The letter cannot be read as an option: it is none, or lacks the argument it must have. */
  predicate Offends(s: State, av: seq<string>, opts: string)
    requires Valid(s, av) && !Ended(Start(s), av)
  {
    var c := Current(s, av);
    || c !in opts
    || (KindOf(opts, c) == Required && NoneFollows(s, av))
    || (KindOf(opts, c) == Joined && Start(s).n + 1 == |av[Start(s).optind]|)
  }

  /**
   '?' is returned exactly for a letter that offends, and optopt is then that letter; otherwise optopt stays.
   Unless the letter's argument had to be joined, the next call stops at the same letter again.
   */
  lemma ErrorNamesLetter(s: State, av: seq<string>, opts: string)
    requires Valid(s, av)
    ensures Step(s, av, opts).1 == Error <==> !Ended(Start(s), av) && Offends(s, av, opts)
    ensures Step(s, av, opts).0.optopt == if Step(s, av, opts).1 == Error then Current(s, av) else s.optopt
    ensures Step(s, av, opts).1 == Error && KindOf(opts, Current(s, av)) != Joined ==>
              Valid(Step(s, av, opts).0, av) && Step(Step(s, av, opts).0, av, opts) == Step(s, av, opts)
  {
    if !Ended(Start(s), av) {
      FindMember(opts, Current(s, av));
    }
  }

  lemma FindMember(opts: string, c: char)
    ensures KindOf(opts, c) == Unknown <==> c !in opts
  {
    var t := Find(opts, c, 0);
    if c in opts {
      var u :| 0 <= u < |opts| && opts[u] == c;
    }
  }

  /** Such a command line exists: the assertion fails when the word after "-ad" is read. */
  lemma AssertionFails()
    ensures exists s: State, av: seq<string>, opts: string ::
              Valid(s, av) && Step(Initial(), av, opts) == (s, Letter('a')) && !Valid(Step(s, av, opts).0, av)
  {
    var av, opts := ["cmd", "-ad", "-a"], "ad;";
    var s := State(1, 2, None, '\0');
    FindOne(opts, 'a', 0);
    FindOne(opts, 'd', 1);
    assert Step(Initial(), av, opts) == (s, Letter('a'));
    assert Slips(s, av, opts);
    AssertionKept(s, av, opts);
  }

  lemma FindOne(opts: string, c: char, t: nat)
    requires t < |opts| && opts[t] == c && forall u :: 0 <= u < t ==> opts[u] != c
    ensures Find(opts, c, 0) == t
  {
  }

  // ---------- what successive calls return ----------

  /** A letter with the argument that optarg holds after the call, if the letter takes one. */
  datatype Seen = Seen(letter: char, arg: Option<string>)

  function Reported(opts: string, answer: Answer, s: State): Seen
    requires answer.Letter?
  {
    Seen(answer.c, if KindOf(opts, answer.c) == Plain then None else s.optarg)
  }

  /** Successive calls from s report these options and leave t. */
  ghost predicate Calls(s: State, av: seq<string>, opts: string, seen: seq<Seen>, t: State)
    decreases |seen|
  {
    if seen == [] then s == t
    else
      && Valid(s, av)
      && var (next, answer) := Step(s, av, opts);
      && answer.Letter? && Reported(opts, answer, next) == seen[0]
      && Calls(next, av, opts, seen[1..], t)
  }

  lemma {:induction false} CallsJoin(s: State, t: State, u: State, av: seq<string>, opts: string, a: seq<Seen>, b: seq<Seen>)
    requires Calls(s, av, opts, a, t) && Calls(t, av, opts, b, u)
    ensures Calls(s, av, opts, a + b, u)
    decreases |a|
  {
    if a == [] {
      assert a + b == b;
    } else {
      assert (a + b)[1..] == a[1..] + b;
      CallsJoin(Step(s, av, opts).0, t, u, av, opts, a[1..], b);
    }
  }

  lemma OneCall(s: State, av: seq<string>, opts: string, x: Seen)
    requires Valid(s, av) && Step(s, av, opts).1.Letter?
    requires Reported(opts, Step(s, av, opts).1, Step(s, av, opts).0) == x
    ensures Calls(s, av, opts, [x], Step(s, av, opts).0)
  {
    assert [x][1..] == [];
  }

  /** Calls report seen and leave t; the next call returns EOF with optind at the first operand. */
  ghost predicate ReadsVia(av: seq<string>, opts: string, seen: seq<Seen>, operands: seq<string>, t: State) {
    && Calls(Initial(), av, opts, seen, t)
    && Valid(t, av)
    && Step(t, av, opts).1 == Eof
    && Step(t, av, opts).0.optind <= |av|
    && av[Step(t, av, opts).0.optind..] == operands
  }

  ghost predicate Reads(av: seq<string>, opts: string, seen: seq<Seen>, operands: seq<string>) {
    exists t: State :: ReadsVia(av, opts, seen, operands, t)
  }

  // ---------- writing a command line ----------

  /** How a word of options ends. */
  datatype Tail =
    | NoArgument
    | Attached(c: char, arg: string)
    | Separate(c: char, arg: string)
    | Bare(c: char)

  /** One word of clustered options, with the word after it when that is the argument. */
  datatype Group = Group(flags: string, tail: Tail)

  function TailText(tail: Tail): string {
    match tail
    case NoArgument => ""
    case Attached(c, arg) => [c] + arg
    case Separate(c, _) => [c]
    case Bare(c) => [c]
  }

  function Words(g: Group): seq<string> {
    ["-" + g.flags + TailText(g.tail)] + (if g.tail.Separate? then [g.tail.arg] else [])
  }

  function Line(groups: seq<Group>): seq<string> {
    if groups == [] then [] else Words(groups[0]) + Line(groups[1..])
  }

  /** The word may be written under these options. */
  predicate Legal(g: Group, opts: string) {
    && (forall t :: 0 <= t < |g.flags| ==> KindOf(opts, g.flags[t]) == Plain)
    && match g.tail
       case NoArgument => g.flags != ""
       case Attached(c, arg) => arg != "" && KindOf(opts, c) in {Required, Optional, Joined}
       case Separate(c, arg) => !("-" <= arg) && KindOf(opts, c) == Required
       case Bare(c) => KindOf(opts, c) == Optional
  }

  function FlagsSeen(flags: string): seq<Seen> {
    seq(|flags|, t requires 0 <= t < |flags| => Seen(flags[t], None))
  }

  function TailSeen(tail: Tail): seq<Seen> {
    match tail
    case NoArgument => []
    case Attached(c, arg) => [Seen(c, Some(arg))]
    case Separate(c, arg) => [Seen(c, Some(arg))]
    case Bare(c) => [Seen(c, None)]
  }

  function Meaning(groups: seq<Group>): seq<Seen> {
    if groups == [] then [] else FlagsSeen(groups[0].flags) + TailSeen(groups[0].tail) + Meaning(groups[1..])
  }

  ghost predicate NoOptions(operands: seq<string>) {
    operands != [] ==> !OptionWord(operands[0])
  }

  /** av says the options seen, followed by the operands. */
  ghost predicate Renders(av: seq<string>, opts: string, seen: seq<Seen>, operands: seq<string>) {
    exists groups: seq<Group> :: RendersAs(av, opts, seen, operands, groups)
  }

  ghost predicate RendersAs(av: seq<string>, opts: string, seen: seq<Seen>, operands: seq<string>, groups: seq<Group>) {
    && av != [] && av[1..] == Line(groups) + operands
    && (forall t :: 0 <= t < |groups| ==> Legal(groups[t], opts))
    && Meaning(groups) == seen
    && NoOptions(operands)
  }

  // ---------- rendered lines are read back ----------

  /** s is before character j of the flags of g. */
  ghost predicate Inside(s: State, av: seq<string>, g: Group, j: nat) {
    && s.optind > 0 && j <= |g.flags| && s.n == 1 + j
    && s.optind + |Words(g)| <= |av| && av[s.optind..s.optind + |Words(g)|] == Words(g)
    && (g.tail == NoArgument ==> j < |g.flags|)
  }

  lemma InsideWord(s: State, av: seq<string>, g: Group, j: nat)
    requires Inside(s, av, g, j)
    ensures var w := "-" + g.flags + TailText(g.tail);
            av[s.optind] == w && OptionWord(w) && s.n < |w| && (if j < |g.flags| then w[s.n] == g.flags[j] else w[s.n..] == TailText(g.tail))
    ensures g.tail.Separate? ==> av[s.optind + 1] == g.tail.arg
  {
    assert av[s.optind] == Words(g)[0];
    if g.tail.Separate? {
      assert av[s.optind + 1] == Words(g)[1];
    }
  }

  lemma {:induction false} ReadGroup(s: State, av: seq<string>, opts: string, g: Group, j: nat) returns (t: State)
    requires Inside(s, av, g, j) && Legal(g, opts)
    ensures Calls(s, av, opts, FlagsSeen(g.flags[j..]) + TailSeen(g.tail), t)
    ensures t.optind == s.optind + |Words(g)| && t.n == 1
    decreases |g.flags| - j
  {
    hide KindOf, Find;
    InsideWord(s, av, g, j);
    t := Step(s, av, opts).0;
    if j < |g.flags| {
      var x := Seen(g.flags[j], None);
      OneCall(s, av, opts, x);
      if j + 1 == |g.flags| && g.tail == NoArgument {
        assert FlagsSeen(g.flags[j..]) + TailSeen(g.tail) == [x];
      } else {
        var rest := ReadGroup(t, av, opts, g, j + 1);
        CallsJoin(s, t, rest, av, opts, [x], FlagsSeen(g.flags[j + 1..]) + TailSeen(g.tail));
        assert [x] + (FlagsSeen(g.flags[j + 1..]) + TailSeen(g.tail)) == FlagsSeen(g.flags[j..]) + TailSeen(g.tail);
        t := rest;
      }
    } else {
      ReadTail(s, av, opts, g);
      assert FlagsSeen(g.flags[j..]) + TailSeen(g.tail) == TailSeen(g.tail);
    }
  }

  lemma ReadTail(s: State, av: seq<string>, opts: string, g: Group)
    requires Inside(s, av, g, |g.flags|) && Legal(g, opts) && Valid(s, av)
    ensures var t := Step(s, av, opts).0;
            Calls(s, av, opts, TailSeen(g.tail), t) && t.optind == s.optind + |Words(g)| && t.n == 1
  {
    hide KindOf, Find, Calls;
    InsideWord(s, av, g, |g.flags|);
    var w := av[s.optind];
    assert w[s.n] == w[s.n..][0];
    assert w[s.n + 1..] == w[s.n..][1..];
    OneCall(s, av, opts, TailSeen(g.tail)[0]);
    assert TailSeen(g.tail) == [TailSeen(g.tail)[0]];
  }

  lemma {:induction false} ReadGroups(s: State, av: seq<string>, opts: string, groups: seq<Group>, operands: seq<string>)
    returns (t: State)
    requires 0 < s.optind <= |av| && s.n == 1 && av[s.optind..] == Line(groups) + operands && NoOptions(operands)
    requires forall u :: 0 <= u < |groups| ==> Legal(groups[u], opts)
    ensures Calls(s, av, opts, Meaning(groups), t) && 0 < t.optind <= |av| && av[t.optind..] == operands && Ended(t, av)
    decreases |groups|
  {
    hide Legal, FlagsSeen, TailSeen, Words;
    if groups == [] {
      t := s;
      assert t.optind < |av| ==> av[t.optind] == av[t.optind..][0];
    } else {
      var g := groups[0];
      HeadWords(s, av, g, Line(groups[1..]), operands);
      assert Legal(g, opts);
      LegalInside(s, av, opts, g);
      var mid := ReadGroup(s, av, opts, g, 0);
      t := ReadGroups(mid, av, opts, groups[1..], operands);
      assert g.flags[0..] == g.flags;
      CallsJoin(s, mid, t, av, opts, FlagsSeen(g.flags) + TailSeen(g.tail), Meaning(groups[1..]));
    }
  }

  lemma LegalInside(s: State, av: seq<string>, opts: string, g: Group)
    requires s.optind > 0 && s.n == 1 && Legal(g, opts)
    requires s.optind + |Words(g)| <= |av| && av[s.optind..s.optind + |Words(g)|] == Words(g)
    ensures Inside(s, av, g, 0)
  {
  }

  lemma HeadWords(s: State, av: seq<string>, g: Group, line: seq<string>, operands: seq<string>)
    requires s.optind <= |av| && av[s.optind..] == Words(g) + line + operands
    ensures s.optind + |Words(g)| <= |av| && av[s.optind..s.optind + |Words(g)|] == Words(g)
    ensures av[s.optind + |Words(g)|..] == line + operands
  {
    hide Words;
    var k := |Words(g)|;
    assert av[s.optind..s.optind + k] == av[s.optind..][..k];
    assert av[s.optind + k..] == av[s.optind..][k..];
  }

  // ---------- lines that are read are rendered ----------

  /** What is left to read, with the options of the current word that are already reported removed. */
  function Unread(s: State, av: seq<string>): seq<string>
    requires 0 < s.optind <= |av| && Valid(s, av)
  {
    if Ended(s, av) then av[s.optind..] else ["-" + av[s.optind][s.n..]] + av[s.optind + 1..]
  }

  lemma UnreadAtStart(s: State, av: seq<string>)
    requires 0 < s.optind <= |av| && s.n == 1
    ensures Valid(s, av) && Unread(s, av) == av[s.optind..]
  {
    if !Ended(s, av) {
      assert av[s.optind] == "-" + av[s.optind][1..];
    }
  }

  /** g with one more flag in front. */
  function WithFlag(c: char, g: Group): Group {
    Group([c] + g.flags, g.tail)
  }

  lemma FlagInFront(c: char, rest: string, g: Group, groups: seq<Group>, after: seq<string>, operands: seq<string>)
    requires Line([g] + groups) + operands == ["-" + rest] + after
    ensures Line([WithFlag(c, g)] + groups) + operands == ["-" + ([c] + rest)] + after
    ensures Meaning([WithFlag(c, g)] + groups) == [Seen(c, None)] + Meaning([g] + groups)
  {
    hide Line, Meaning, FlagsSeen, TailSeen, Words;
    GroupInFront(g, groups, operands);
    GroupInFront(WithFlag(c, g), groups, operands);
    FlagText(c, rest, g, Line(groups) + operands, after);
    FlagMeaning(c, g.flags, TailSeen(g.tail) + Meaning(groups));
    var a, b, m := FlagsSeen(g.flags), TailSeen(g.tail), Meaning(groups);
    assert a + (b + m) == a + b + m;
    assert FlagsSeen([c] + g.flags) + (b + m) == FlagsSeen([c] + g.flags) + b + m;
  }

  lemma FlagText(c: char, rest: string, g: Group, others: seq<string>, after: seq<string>)
    requires Words(g) + others == ["-" + rest] + after
    ensures Words(WithFlag(c, g)) + others == ["-" + ([c] + rest)] + after
  {
    var more := if g.tail.Separate? then [g.tail.arg] else [];
    var tail := TailText(g.tail);
    hide TailText;
    SameHead("-" + g.flags + tail, more, others, "-" + rest, after);
    SameHead("-" + ([c] + g.flags) + tail, more, others, "-" + ([c] + rest), after);
    FlagInserted(c, g.flags, tail, rest);
  }

  /** Lists with the same remainder are equal exactly when their first elements are. */
  lemma SameHead(x: string, more: seq<string>, others: seq<string>, y: string, after: seq<string>)
    ensures [x] + more + others == [y] + after <==> x == y && more + others == after
  {
    assert [x] + more + others == [x] + (more + others);
    assert ([x] + (more + others))[0] == x && ([x] + (more + others))[1..] == more + others;
    assert ([y] + after)[0] == y && ([y] + after)[1..] == after;
  }

  lemma FlagInserted(c: char, flags: string, tail: string, rest: string)
    requires "-" + flags + tail == "-" + rest
    ensures "-" + ([c] + flags) + tail == "-" + ([c] + rest)
  {
    assert ("-" + flags + tail)[1..] == flags + tail;
    assert ("-" + rest)[1..] == rest;
  }

  lemma FlagMeaning(c: char, flags: string, others: seq<Seen>)
    ensures FlagsSeen([c] + flags) + others == [Seen(c, None)] + (FlagsSeen(flags) + others)
  {
    assert FlagsSeen([c] + flags) == [Seen(c, None)] + FlagsSeen(flags);
  }

  lemma GroupInFront(g: Group, groups: seq<Group>, operands: seq<string>)
    ensures Line([g] + groups) + operands == Words(g) + (Line(groups) + operands)
    ensures Meaning([g] + groups) == FlagsSeen(g.flags) + TailSeen(g.tail) + Meaning(groups)
  {
    assert ([g] + groups)[1..] == groups;
  }

  ghost predicate AllLegal(groups: seq<Group>, opts: string) {
    forall u :: 0 <= u < |groups| ==> Legal(groups[u], opts)
  }

  lemma FlagLegal(c: char, g: Group, groups: seq<Group>, opts: string)
    requires AllLegal([g] + groups, opts) && KindOf(opts, c) == Plain
    ensures AllLegal([WithFlag(c, g)] + groups, opts)
  {
    hide KindOf;
    assert Legal(([g] + groups)[0], opts);
    assert Legal(WithFlag(c, g), opts);
    forall u | 0 < u <= |groups| ensures Legal(([WithFlag(c, g)] + groups)[u], opts) {
      assert Legal(([g] + groups)[u], opts);
    }
  }

  /** The group that one call from s ends, when it does not stay in the word. */
  lemma LastOfWord(s: State, av: seq<string>, opts: string) returns (g: Group)
    requires 0 < s.optind < |av| && Valid(s, av) && !Ended(s, av) && Step(s, av, opts).1.Letter?
    requires Step(s, av, opts).0.optind != s.optind
    ensures Legal(g, opts)
    ensures var t := Step(s, av, opts).0;
            && s.optind < t.optind <= |av| && t.n == 1
            && Unread(s, av) == Words(g) + av[t.optind..]
            && [Reported(opts, Step(s, av, opts).1, t)] == FlagsSeen(g.flags) + TailSeen(g.tail)
  {
    hide KindOf, Find;
    var w := av[s.optind];
    var c := w[s.n];
    var rest := w[s.n + 1..];
    assert w[s.n..] == [c] + rest;
    assert Unread(s, av) == ["-" + ([c] + rest)] + av[s.optind + 1..];
    if KindOf(opts, c) == Plain {
      g := Group([c], NoArgument);
      assert "-" + [c] + "" == "-" + ([c] + rest);
      assert FlagsSeen([c]) == [Seen(c, None)];
    } else if rest != "" {
      g := Group("", Attached(c, rest));
      assert "-" + "" + ([c] + rest) == "-" + ([c] + rest);
    } else if KindOf(opts, c) == Optional {
      g := Group("", Bare(c));
      assert "-" + "" + [c] == "-" + ([c] + rest);
    } else {
      g := Group("", Separate(c, av[s.optind + 1]));
      assert "-" + "" + [c] == "-" + ([c] + rest);
      assert av[s.optind + 1..] == [av[s.optind + 1]] + av[s.optind + 2..];
    }
  }

  /** From any point on, what is read until EOF is what is written there. */
  lemma {:induction false} ReadMeansWritten(s: State, av: seq<string>, opts: string, seen: seq<Seen>, t: State)
    returns (groups: seq<Group>, operands: seq<string>)
    requires 0 < s.optind <= |av| && Valid(s, av)
    requires Calls(s, av, opts, seen, t) && Valid(t, av) && Step(t, av, opts).1 == Eof
    ensures Unread(s, av) == Line(groups) + operands && Meaning(groups) == seen && AllLegal(groups, opts)
    ensures NoOptions(operands) && 0 < t.optind <= |av| && operands == av[t.optind..]
    decreases |seen|
  {
    hide KindOf, Find, Words, Legal, FlagsSeen, TailSeen;
    if seen == [] {
      groups, operands := [], av[s.optind..];
      EofEnds(s, av, opts);
    } else {
      var next := Step(s, av, opts).0;
      if next.optind != s.optind {
        LetterInside(s, av, opts);
        var g := LastOfWord(s, av, opts);
        UnreadAtStart(next, av);
        groups, operands := ReadMeansWritten(next, av, opts, seen[1..], t);
        GroupInFront(g, groups, operands);
        assert seen == [seen[0]] + seen[1..];
        groups := [g] + groups;
      } else {
        var c := StayInWord(s, av, opts);
        groups, operands := ReadMeansWritten(next, av, opts, seen[1..], t);
        var first := FirstGroup(next, av, groups, operands);
        FlagLegal(c, first, groups[1..], opts);
        FlagInFront(c, av[s.optind][s.n + 1..], first, groups[1..], av[s.optind + 1..], operands);
        assert seen == [seen[0]] + seen[1..];
        groups := [WithFlag(c, first)] + groups[1..];
      }
    }
  }

  lemma EofEnds(s: State, av: seq<string>, opts: string)
    requires 0 < s.optind <= |av| && Valid(s, av) && Step(s, av, opts).1 == Eof
    ensures Ended(s, av) && NoOptions(av[s.optind..])
  {
  }

  lemma LetterInside(s: State, av: seq<string>, opts: string)
    requires 0 < s.optind <= |av| && Valid(s, av) && Step(s, av, opts).1.Letter?
    ensures s.optind < |av| && !Ended(s, av)
  {
  }

  lemma StayInWord(s: State, av: seq<string>, opts: string) returns (c: char)
    requires 0 < s.optind <= |av| && Valid(s, av) && Step(s, av, opts).1.Letter? && Step(s, av, opts).0.optind == s.optind
    ensures s.optind < |av| && !Ended(s, av) && s.n + 1 < |av[s.optind]| && c == av[s.optind][s.n]
    ensures KindOf(opts, c) == Plain && Step(s, av, opts) == (s.(n := s.n + 1), Letter(c))
    ensures Unread(s, av) == ["-" + ([c] + av[s.optind][s.n + 1..])] + av[s.optind + 1..]
  {
    hide KindOf;
    c := av[s.optind][s.n];
    assert av[s.optind][s.n..] == [c] + av[s.optind][s.n + 1..];
  }

  lemma UnreadOption(s: State, av: seq<string>)
    requires 0 < s.optind <= |av| && Valid(s, av) && !Ended(s, av)
    ensures Unread(s, av) != [] && OptionWord(Unread(s, av)[0])
  {
  }

  lemma FirstGroup(s: State, av: seq<string>, groups: seq<Group>, operands: seq<string>) returns (g: Group)
    requires 0 < s.optind <= |av| && Valid(s, av) && !Ended(s, av)
    requires Unread(s, av) == Line(groups) + operands && NoOptions(operands)
    ensures groups != [] && g == groups[0] && groups == [g] + groups[1..]
  {
    UnreadOption(s, av);
    assert groups == [] ==> Line(groups) + operands == operands;
    g := groups[0];
  }

  // ---------- the theorem ----------

  /** The first call starts at the first word. */
  lemma FirstCall(av: seq<string>, opts: string, seen: seq<Seen>, t: State)
    ensures var s := Start(Initial()); Valid(s, av) && Valid(Initial(), av) && Step(Initial(), av, opts) == Step(s, av, opts)
    ensures seen != [] ==> (Calls(Initial(), av, opts, seen, t) <==> Calls(Start(Initial()), av, opts, seen, t))
  {
  }

  lemma EndedIsEof(t: State, av: seq<string>, opts: string)
    requires 0 < t.optind && Ended(t, av)
    ensures Valid(t, av) && Step(t, av, opts) == (t, Eof)
  {
  }

  lemma RenderedIsRead(av: seq<string>, opts: string, seen: seq<Seen>, operands: seq<string>, groups: seq<Group>)
    requires RendersAs(av, opts, seen, operands, groups)
    ensures Reads(av, opts, seen, operands)
  {
    hide Legal, Meaning, Line, Step, Ended, Valid;
    var s := Start(Initial());
    var t := ReadGroups(s, av, opts, groups, operands);
    EndedIsEof(t, av, opts);
    FirstCall(av, opts, seen, t);
    assert ReadsVia(av, opts, seen, operands, if seen == [] then Initial() else t);
  }

  lemma ReadIsRendered(av: seq<string>, opts: string, seen: seq<Seen>, operands: seq<string>, t: State)
    requires av != [] && ReadsVia(av, opts, seen, operands, t)
    ensures Renders(av, opts, seen, operands)
  {
    hide Legal, Meaning, Line, Step, Ended;
    var s := Start(Initial());
    UnreadAtStart(s, av);
    if seen != [] {
      CallsAdvance(Initial(), av, opts, seen, t);
    }
    var u := if seen == [] then s else t;
    LastCall(av, opts, seen, operands, t, u);
    var groups, rest := ReadMeansWritten(s, av, opts, seen, u);
    assert RendersAs(av, opts, seen, operands, groups);
  }

  /** The state before EOF points at the first operand. */
  lemma LastCall(av: seq<string>, opts: string, seen: seq<Seen>, operands: seq<string>, t: State, u: State)
    requires ReadsVia(av, opts, seen, operands, t) && u == if seen == [] then Start(Initial()) else t
    requires av != [] && (seen != [] ==> t.optind > 0)
    ensures Calls(Start(Initial()), av, opts, seen, u)
    ensures Valid(u, av) && Step(u, av, opts).1 == Eof && u.optind <= |av| && av[u.optind..] == operands
  {
    FirstCall(av, opts, seen, t);
  }

  /** Calls only move forward. */
  lemma {:induction false} CallsAdvance(s: State, av: seq<string>, opts: string, seen: seq<Seen>, t: State)
    requires Calls(s, av, opts, seen, t) && seen != []
    ensures t.optind > 0
    decreases |seen|
  {
    var next := Step(s, av, opts).0;
    assert next.optind > 0;
    if |seen| > 1 {
      CallsAdvance(next, av, opts, seen[1..], t);
    }
  }

  /** Calls until EOF return a list of options with operands left exactly when the command line is a rendering of both. */
  lemma ReadsWhatIsRendered(av: seq<string>, opts: string, seen: seq<Seen>, operands: seq<string>)
    requires av != []
    ensures Reads(av, opts, seen, operands) <==> Renders(av, opts, seen, operands)
  {
    hide ReadsVia, RendersAs;
    if Reads(av, opts, seen, operands) {
      var t :| ReadsVia(av, opts, seen, operands, t);
      ReadIsRendered(av, opts, seen, operands, t);
    }
    if Renders(av, opts, seen, operands) {
      var groups :| RendersAs(av, opts, seen, operands, groups);
      RenderedIsRead(av, opts, seen, operands, groups);
    }
  }
}
