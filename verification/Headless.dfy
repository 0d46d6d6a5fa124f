/** The headless execution loop: how many calls it makes, when it stops, and on what outcome. */
module Headless {
  import opened Basics
  import opened Ladder

  const FIVE_SECONDS := 5000

  /** One iteration: the budget left before the call, and what the call reported. */
  datatype Call = Call(
    remaining: nat,
    failed: bool,
    doneSentinel: bool,
    blocked: Option<string>,
    limit: Option<Option<ResetAt>>,
    exited: bool,
    openSteps: nat,
    committed: bool)

  datatype Reason = ByDone | ByBlocked(why: string) | ByLimit(at: Option<ResetAt>) | ByTimeout | ByStuck | ByMaxCalls

  datatype LoopStep = Terminal(reason: Reason) | Continue(streak: nat)

  datatype LoopEnd = Ended(outcome: Outcome) | CallError

  function SignalsOf(c: Call): Signals {
    Signals(c.doneSentinel || c.openSteps == 0, c.blocked, c.limit, false, !c.exited, c.exited, false)
  }

  /** The ladder's verdict on a call as a reason to end the loop; `Stuck` alone is none. */
  function ClassifyExecCall(c: Call): Option<Reason> {
    match Classify(SignalsOf(c))
    case Limit(at) => Some(ByLimit(at))
    case Done => Some(ByDone)
    case Timeout => Some(ByTimeout)
    case Blocked(why) => Some(ByBlocked(why))
    case Stuck => None
  }

  function HeadlessStep(streak: nat, classified: Option<Reason>, committed: bool): LoopStep {
    if classified.Some? then Terminal(classified.value)
    else
      var next := if committed then 0 else streak + 1;
      if next >= 2 then Terminal(ByStuck) else Continue(next)
  }

  function ReasonToOutcome(r: Reason): Outcome {
    match r
    case ByDone => Done
    case ByBlocked(why) => Blocked(why)
    case ByLimit(at) => Limit(at)
    case ByTimeout => Timeout
    case ByStuck => Stuck
    case ByMaxCalls => Stuck
  }

  /** The calls the environment would answer, numbered from 1. */
  type Environment = nat -> Call

  function Verdict(env: Environment, i: nat): Outcome {
    Classify(SignalsOf(env(i)))
  }

  /**
   What ends a single call: a limit first, then a finished plan or the sentinel
   on an exit of its own, then a kill, then a block.
   */
  lemma CallVerdict(c: Call)
    ensures var o := Classify(SignalsOf(c));
      && (forall at :: o == Limit(at) <==> c.limit == Some(at))
      && (o == Done <==> c.limit.None? && c.exited && (c.doneSentinel || c.openSteps == 0))
      && (o == Timeout <==> c.limit.None? && !c.exited)
      && (forall why :: o == Blocked(why) <==>
          c.limit.None? && c.exited && !c.doneSentinel && c.openSteps > 0 && c.blocked == Some(why))
      && (o == Stuck <==> c.limit.None? && c.exited && !c.doneSentinel && c.openSteps > 0 && c.blocked.None?)
  {
    LadderOrder(SignalsOf(c), false);
  }

  /** Two calls in a row that end nothing and commit nothing. */
  predicate Idles(env: Environment, i: nat) {
    i > 1 && !env(i).committed && !env(i - 1).committed
  }

  /** The loop cannot go past iteration `i`. */
  predicate Stops(env: Environment, i: nat) {
    env(i).remaining <= FIVE_SECONDS || env(i).failed || Verdict(env, i) != Stuck || Idles(env, i)
  }

  /** The first iteration the loop cannot pass, `cap + 1` when it passes them all. */
  function FirstStop(env: Environment, from: nat, cap: nat): (k: nat)
    requires 1 <= from <= cap + 1
    ensures from <= k <= cap + 1 && (k <= cap ==> Stops(env, k))
    ensures forall i :: from <= i < k ==> !Stops(env, i)
    decreases cap + 1 - from
  {
    if from == cap + 1 || Stops(env, from) then from else FirstStop(env, from + 1, cap)
  }

  /** The deadline before the call, the call's own error, its ladder verdict, or `Stuck`. */
  function EndAt(env: Environment, k: nat, cap: nat): LoopEnd {
    if k > cap then Ended(Stuck)
    else if env(k).remaining <= FIVE_SECONDS then Ended(Timeout)
    else if env(k).failed then CallError
    else Ended(Verdict(env, k))
  }

  /** The loop ends at the first iteration it cannot pass, having made at most `cap` calls. */
  method ExecuteHeadless(env: Environment, cap: nat) returns (end: LoopEnd, calls: nat)
    ensures var k := FirstStop(env, 1, cap);
      && end == EndAt(env, k, cap)
      && calls == if k <= cap && env(k).remaining > FIVE_SECONDS then k else k - 1
    ensures calls <= cap
  {
    var streak := 0;
    calls := 0;
    for i := 1 to cap + 1
      invariant calls == i - 1 && FirstStop(env, i, cap) == FirstStop(env, 1, cap)
      invariant streak == if i > 1 && !env(i - 1).committed then 1 else 0
    {
      var c := env(i);
      if c.remaining <= FIVE_SECONDS {
        return Ended(ReasonToOutcome(ByTimeout)), calls;
      }
      calls := calls + 1;
      if c.failed {
        return CallError, calls;
      }
      match HeadlessStep(streak, ClassifyExecCall(c), c.committed)
      case Terminal(reason) =>
        return Ended(ReasonToOutcome(reason)), calls;
      case Continue(next) =>
        streak := next;
    }
    end := Ended(ReasonToOutcome(ByMaxCalls));
  }

  /** At the iteration the loop cannot pass, this is how it ends. */
  predicate EndsAs(c: Call, end: LoopEnd) {
    if c.remaining <= 5000 then end == Ended(Timeout)
    else if c.failed then end == CallError
    else if c.limit.Some? then end == Ended(Limit(c.limit.value))
    else if !c.exited then end == Ended(Timeout)
    else if c.doneSentinel || c.openSteps == 0 then end == Ended(Done)
    else end == Ended(if c.blocked.Some? then Blocked(c.blocked.value) else Stuck)
  }

  /**
   In this order: too little time left, the call's error, a limit with its
   reset, a kill, a finished plan or the sentinel, a block.
   */
  lemma LoopEnds(env: Environment, cap: nat)
    ensures var k := FirstStop(env, 1, cap);
      if k <= cap then EndsAs(env(k), EndAt(env, k, cap)) else EndAt(env, k, cap) == Ended(Stuck)
  {
  }

  /** `Stuck` is the end exactly at two idle calls in a row, or when every call is used up. */
  lemma StuckExactly(env: Environment, cap: nat)
    ensures var k := FirstStop(env, 1, cap);
      EndAt(env, k, cap) == Ended(Stuck) <==>
        k == cap + 1 || (env(k).remaining > FIVE_SECONDS && !env(k).failed && Verdict(env, k) == Stuck && Idles(env, k))
  {
  }

  function Commits(env: Environment, n: nat): nat {
    if n == 0 then 0 else Commits(env, n - 1) + if env(n).committed then 1 else 0
  }

  /**
   Of the calls the loop went on past, any two adjacent ones include a commit;
   so at least every second call committed.
   */
  lemma {:induction false} ContinuedCallsCommit(env: Environment, cap: nat, n: nat)
    requires n < FirstStop(env, 1, cap)
    ensures forall i :: 1 < i <= n ==> env(i).committed || env(i - 1).committed
    ensures 2 * Commits(env, n) + 1 >= n
  {
    forall i | 1 < i <= n ensures env(i).committed || env(i - 1).committed {
      assert !Stops(env, i);
    }
    if n >= 2 {
      assert !Stops(env, n);
      ContinuedCallsCommit(env, cap, n - 2);
    }
  }
}
