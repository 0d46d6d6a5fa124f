/** The shared precedence ladder: from a session's signals to one outcome. */
module Ladder {
  import opened Basics

  datatype ResetAt = ResetAt(text: string, at: Option<int>)

  datatype Outcome = Done | Blocked(reason: string) | Limit(reset: Option<ResetAt>) | Timeout | Stuck

  datatype Signals = Signals(
    done: bool,
    blocked: Option<string>,
    limit: Option<Option<ResetAt>>,
    committed: bool,
    timedOut: bool,
    exitedOk: bool,
    errored: bool)

  function Classify(s: Signals): Outcome {
    if s.limit.Some? then Limit(s.limit.value)
    else if s.done && s.exitedOk && !s.errored then Done
    else if s.timedOut then Timeout
    else if s.blocked.Some? then Blocked(s.blocked.value)
    else Stuck
  }

  /**
   The whole ladder: a limit outranks everything; `Done` takes a clean exit
   without error and never a commit; a timeout outranks a block.
   */
  lemma LadderOrder(s: Signals, committed: bool)
    ensures Classify(s.(committed := committed)) == Classify(s)
    ensures forall reset :: Classify(s) == Limit(reset) <==> s.limit == Some(reset)
    ensures Classify(s) == Done <==> s.limit.None? && s.done && s.exitedOk && !s.errored
    ensures Classify(s) == Timeout <==> s.timedOut && s.limit.None? && !(s.done && s.exitedOk && !s.errored)
    ensures forall why :: Classify(s) == Blocked(why) <==>
      s.blocked == Some(why) && !s.timedOut && s.limit.None? && !(s.done && s.exitedOk && !s.errored)
  {
  }

  /** The two states agree on every signal that ranks as high as the outcome `o`, or higher. */
  predicate AgreeDownTo(o: Outcome, s: Signals, t: Signals) {
    && s.limit == t.limit
    && (o.Limit? || (s.done == t.done && s.exitedOk == t.exitedOk && s.errored == t.errored))
    && (o.Limit? || o.Done? || s.timedOut == t.timedOut)
    && (o.Limit? || o.Done? || o.Timeout? || s.blocked == t.blocked)
  }

  /**
   No signal below the one that gave the outcome can change it, and a commit
   never can; a signal above it always does.
   */
  lemma LadderPrecedence(s: Signals, t: Signals, reset: Option<ResetAt>, why: string)
    ensures AgreeDownTo(Classify(s), s, t) ==> Classify(t) == Classify(s)
    ensures Classify(s.(limit := Some(reset))) == Limit(reset)
    ensures !Classify(s).Limit? ==> Classify(s.(done := true, exitedOk := true, errored := false)) == Done
    ensures !Classify(s).Limit? && !Classify(s).Done? ==> Classify(s.(timedOut := true)) == Timeout
    ensures Classify(s).Stuck? ==> Classify(s.(blocked := Some(why))) == Blocked(why)
  {
  }
}
