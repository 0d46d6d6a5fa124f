/** Folding Cursor's record stream, and what the outcome says about the stream. */
module CursorStream {
  import opened Basics
  import opened Ladder

  const ERROR_CLASS := "ActionRequiredError: "

  const SUCCESS := "success"

  const INTERRUPTED := 130

  /** One line of the merged log; a line that is not JSON is `Bare`, trimmed. */
  datatype Record =
    | Init(initSession: Option<string>)
    | Result(subtype: Option<string>, isError: Option<bool>, text: Option<string>, session: Option<string>)
    | TurnEnded(status: Option<string>, error: Option<string>)
    | ToolCall(failed: seq<string>, denied: seq<string>)
    | Other
    | Bare(line: string)

  /** The text detectors: a limit class named in a sentence, and the two sentinels in the final text. */
  datatype Detectors = Detectors(
    namesLimit: string -> bool,
    doneSentinel: string -> bool,
    blockedReason: string -> Option<string>)

  datatype CursorFold = CursorFold(
    finalText: string,
    sessionId: Option<string>,
    isError: bool,
    subtype: Option<string>,
    sawEnvelope: bool,
    sawTurnEnd: bool,
    vendorError: Option<string>,
    failed: seq<string>,
    denied: seq<string>)

  const NOTHING := CursorFold("", None, false, None, false, false, None, [], [])

  /** The sentence of a bare error-class line that names a limit. */
  function BareLimit(d: Detectors, line: string): (r: Option<string>)
    ensures r.Some? ==> line == "ActionRequiredError: " + r.value && d.namesLimit(r.value)
    ensures r.None? ==> forall s :: line == ERROR_CLASS + s ==> !d.namesLimit(s)
  {
    assert forall s: string :: (ERROR_CLASS + s)[|ERROR_CLASS|..] == s;
    assert ERROR_CLASS <= line ==> line == ERROR_CLASS + line[|ERROR_CLASS|..];
    if ERROR_CLASS <= line && d.namesLimit(line[|ERROR_CLASS|..]) then Some(line[|ERROR_CLASS|..]) else None
  }

  function FoldRecord(d: Detectors, f: CursorFold, r: Record): CursorFold {
    match r
    case Init(session) => f.(sessionId := session)
    case Result(subtype, isError, text, session) =>
      f.(sawEnvelope := true, subtype := subtype, isError := isError.GetOr(false),
         finalText := text.GetOr(f.finalText), sessionId := if f.sessionId.Some? then f.sessionId else session)
    case TurnEnded(status, error) =>
      if status == Some(SUCCESS) then f.(sawTurnEnd := true)
      else f.(sawTurnEnd := true, isError := true, vendorError := if error.Some? then error else f.vendorError)
    case ToolCall(failed, denied) => f.(failed := f.failed + failed, denied := f.denied + denied)
    case Other => f
    case Bare(line) =>
      var limit := BareLimit(d, line);
      if limit.None? then f
      else f.(isError := true, vendorError := if f.vendorError.Some? then f.vendorError else limit)
  }

  function Fold(d: Detectors, rs: seq<Record>): CursorFold {
    if rs == [] then NOTHING else FoldRecord(d, Fold(d, rs[..|rs| - 1]), rs[|rs| - 1])
  }

  /** The line loop, updating one fold in place. */
  method FoldCursorStream(d: Detectors, rs: seq<Record>) returns (fold: CursorFold)
    ensures fold == Fold(d, rs)
  {
    fold := NOTHING;
    for k := 0 to |rs|
      invariant fold == Fold(d, rs[..k])
    {
      assert rs[..k + 1][..k] == rs[..k];
      match rs[k]
      case Init(session) => fold := fold.(sessionId := session);
      case Result(_, _, _, _) => fold := FoldResult(fold, rs[k]);
      case TurnEnded(_, _) => fold := FoldTurnEnded(fold, rs[k]);
      case ToolCall(failed, denied) => fold := fold.(failed := fold.failed + failed, denied := fold.denied + denied);
      case Other =>
      case Bare(line) =>
        var limit := BareLimit(d, line);
        if limit.Some? {
          fold := fold.(isError := true);
          if fold.vendorError.None? {
            fold := fold.(vendorError := limit);
          }
        }
    }
    assert rs[..|rs|] == rs;
  }

  method FoldResult(before: CursorFold, r: Record) returns (fold: CursorFold)
    requires r.Result?
    ensures Succeeded(fold) <==> r.subtype == Some(SUCCESS) && r.isError != Some(true)
    ensures fold.vendorError == before.vendorError
    ensures forall d :: fold == FoldRecord(d, before, r)
  {
    fold := before.(sawEnvelope := true, subtype := r.subtype);
    fold := fold.(isError := r.isError.GetOr(false));
    if r.text.Some? {
      fold := fold.(finalText := r.text.value);
    }
    if r.session.Some? && fold.sessionId.None? {
      fold := fold.(sessionId := r.session);
    }
  }

  method FoldTurnEnded(before: CursorFold, r: Record) returns (fold: CursorFold)
    requires r.TurnEnded?
    ensures FailingTurn(r) ==> !Succeeded(fold)
    ensures !FailingTurn(r) ==> SameVerdict(before, fold)
    ensures forall d :: fold == FoldRecord(d, before, r)
  {
    fold := before.(sawTurnEnd := true);
    if r.status.GetOr("") != SUCCESS {
      fold := fold.(isError := true);
      if r.error.Some? {
        fold := fold.(vendorError := r.error);
      }
    }
  }

  // ----- the stop reason

  predicate FailingTurn(r: Record) {
    r.TurnEnded? && r.status != Some(SUCCESS)
  }

  predicate StatesError(r: Record) {
    FailingTurn(r) && r.error.Some?
  }

  predicate LimitLine(d: Detectors, r: Record) {
    r.Bare? && BareLimit(d, r.line).Some?
  }

  lemma {:induction false} NoStopReason(d: Detectors, rs: seq<Record>)
    requires forall i :: 0 <= i < |rs| ==> !StatesError(rs[i]) && !LimitLine(d, rs[i])
    ensures Fold(d, rs).vendorError.None?
  {
    if rs != [] {
      NoStopReason(d, rs[..|rs| - 1]);
    }
  }

  /** The stop reason is the error of the last failing `turn_ended` that states one. */
  lemma {:induction false} LastErrorIsReason(d: Detectors, rs: seq<Record>, i: nat)
    requires i < |rs| && StatesError(rs[i]) && forall j :: i < j < |rs| ==> !StatesError(rs[j])
    ensures Fold(d, rs).vendorError == rs[i].error
  {
    if i < |rs| - 1 {
      LastErrorIsReason(d, rs[..|rs| - 1], i);
    }
  }

  /** Without one, it is the first bare error-class line that names a limit. */
  lemma {:induction false} FirstLimitIsReason(d: Detectors, rs: seq<Record>, i: nat)
    requires i < |rs| && LimitLine(d, rs[i]) && forall j :: 0 <= j < i ==> !LimitLine(d, rs[j])
    requires forall j :: 0 <= j < |rs| ==> !StatesError(rs[j])
    ensures Fold(d, rs).vendorError == BareLimit(d, rs[i].line)
  {
    if i < |rs| - 1 {
      FirstLimitIsReason(d, rs[..|rs| - 1], i);
    } else {
      NoStopReason(d, rs[..|rs| - 1]);
    }
  }

  /** The final text is that of the last `result` that carries one, which may precede the last `result`. */
  lemma {:induction false} LastTextIsFinal(d: Detectors, rs: seq<Record>, i: nat)
    requires i < |rs| && rs[i].Result? && rs[i].text.Some?
    requires forall j :: i < j < |rs| && rs[j].Result? ==> rs[j].text.None?
    ensures Fold(d, rs).finalText == rs[i].text.value
  {
    if i < |rs| - 1 {
      LastTextIsFinal(d, rs[..|rs| - 1], i);
    }
  }

  /** Without any, it is empty. */
  lemma {:induction false} NoTextIsEmpty(d: Detectors, rs: seq<Record>)
    requires forall j :: 0 <= j < |rs| && rs[j].Result? ==> rs[j].text.None?
    ensures Fold(d, rs).finalText == ""
  {
    if rs != [] {
      NoTextIsEmpty(d, rs[..|rs| - 1]);
    }
  }

  // ----- the verdict

  /** The records that can change the verdict. */
  predicate Decisive(d: Detectors, r: Record) {
    r.Result? || FailingTurn(r) || LimitLine(d, r)
  }

  /** Record `i` is a `result` that reports success, and nothing decisive follows it. */
  ghost predicate Green(d: Detectors, rs: seq<Record>, i: nat) {
    && i < |rs| && rs[i].Result? && rs[i].subtype == Some("success") && rs[i].isError != Some(true)
    && forall j :: i < j < |rs| ==> !Decisive(d, rs[j])
  }

  predicate Succeeded(f: CursorFold) {
    f.sawEnvelope && !f.isError && f.subtype == Some(SUCCESS)
  }

  lemma {:induction false} SucceededExactly(d: Detectors, rs: seq<Record>)
    ensures Succeeded(Fold(d, rs)) <==> exists i :: Green(d, rs, i)
  {
    if rs != [] {
      var last := |rs| - 1;
      var before := rs[..last];
      SucceededExactly(d, before);
      if Decisive(d, rs[last]) {
        assert Succeeded(Fold(d, rs)) == Green(d, rs, last);
        assert forall i: nat :: Green(d, rs, i) ==> i == last;
      } else {
        assert Succeeded(Fold(d, rs)) == Succeeded(Fold(d, before));
        assert forall i: nat :: Green(d, rs, i) <==> Green(d, before, i) by {
          forall i: nat | Green(d, before, i) ensures Green(d, rs, i) {
            assert forall j :: i < j < last ==> !Decisive(d, before[j]);
          }
          forall i: nat | Green(d, rs, i) ensures Green(d, before, i) {
            assert i != last && before[i] == rs[i];
            assert forall j :: i < j < last ==> before[j] == rs[j];
          }
        }
      }
    }
  }

  predicate LimitNoted(d: Detectors, f: CursorFold) {
    f.vendorError.Some? && d.namesLimit(f.vendorError.value)
  }

  function ClassifyCursor(d: Detectors, f: CursorFold,
                          exitedCleanly: bool, timedOut: bool, committed: bool, exitCode: Option<int>): Outcome
  {
    var interrupted := exitCode == Some(INTERRUPTED);
    Classify(Signals(
      d.doneSentinel(f.finalText),
      d.blockedReason(f.finalText),
      if !Succeeded(f) && LimitNoted(d, f) then Some(None) else None,
      committed,
      timedOut || interrupted,
      exitedCleanly && !interrupted,
      !Succeeded(f)))
  }

  /**
   Each outcome exactly: `Limit`, never with a reset time, when the stream is
   not green and the stop reason names a limit; else `Done` when it is green,
   its final text carries the sentinel and the exit was clean; else `Timeout`
   when the run timed out or was interrupted; else `Blocked` for the reason in
   the final text; else `Stuck`.
   */
  lemma OutcomeExactly(d: Detectors, rs: seq<Record>,
                       exitedCleanly: bool, timedOut: bool, committed: bool, exitCode: Option<int>)
    ensures var o := ClassifyCursor(d, Fold(d, rs), exitedCleanly, timedOut, committed, exitCode);
      var text := Fold(d, rs).finalText;
      && (o == Done <==>
          (exists i :: Green(d, rs, i)) && d.doneSentinel(text) && exitedCleanly && exitCode != Some(130))
      && (o.Limit? <==> (!exists i :: Green(d, rs, i)) && LimitNoted(d, Fold(d, rs)))
      && (o.Limit? ==> o == Limit(None))
      && (!o.Limit? && !o.Done? ==>
          if timedOut || exitCode == Some(130) then o == Timeout
          else o == if d.blockedReason(text).Some? then Blocked(d.blockedReason(text).value) else Stuck)
  {
    SucceededExactly(d, rs);
  }

  // ----- the other records

  function DecisiveOnly(d: Detectors, rs: seq<Record>): seq<Record> {
    if rs == [] then []
    else DecisiveOnly(d, rs[..|rs| - 1]) + if Decisive(d, rs[|rs| - 1]) then [rs[|rs| - 1]] else []
  }

  predicate SameVerdict(f: CursorFold, g: CursorFold) {
    && f.finalText == g.finalText && f.isError == g.isError && f.subtype == g.subtype
    && f.sawEnvelope == g.sawEnvelope && f.vendorError == g.vendorError
  }

  lemma VerdictStep(d: Detectors, f: CursorFold, g: CursorFold, r: Record)
    requires SameVerdict(f, g)
    ensures SameVerdict(FoldRecord(d, f, r), FoldRecord(d, g, r))
    ensures !Decisive(d, r) ==> SameVerdict(f, FoldRecord(d, g, r))
  {
  }

  lemma {:induction false} OnlyDecisiveMatters(d: Detectors, rs: seq<Record>)
    ensures SameVerdict(Fold(d, DecisiveOnly(d, rs)), Fold(d, rs))
  {
    if rs != [] {
      var last := |rs| - 1;
      OnlyDecisiveMatters(d, rs[..last]);
      var kept := DecisiveOnly(d, rs[..last]);
      VerdictStep(d, Fold(d, kept), Fold(d, rs[..last]), rs[last]);
      if Decisive(d, rs[last]) {
        assert (kept + [rs[last]])[..|kept|] == kept;
      } else {
        assert kept + [] == kept;
      }
    }
  }

  /** Two streams with the same decisive records have the same stop reason and outcome, whatever else they carry. */
  lemma OtherRecordsIrrelevant(d: Detectors, rs: seq<Record>, rs': seq<Record>,
                               exitedCleanly: bool, timedOut: bool, committed: bool, exitCode: Option<int>)
    requires DecisiveOnly(d, rs) == DecisiveOnly(d, rs')
    ensures Fold(d, rs).vendorError == Fold(d, rs').vendorError
    ensures ClassifyCursor(d, Fold(d, rs), exitedCleanly, timedOut, committed, exitCode)
      == ClassifyCursor(d, Fold(d, rs'), exitedCleanly, timedOut, committed, exitCode)
  {
    OnlyDecisiveMatters(d, rs);
    OnlyDecisiveMatters(d, rs');
  }
}
