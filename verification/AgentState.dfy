/**
 The agent state shown to the operator, as a machine of two layers: a base
 state that never waits, and an optional wait in front of it. Every status
 line is read through a vendor's map; what is shown is the wait if there is
 one, else the base.
 */
module AgentState {
  import opened Basics

  datatype StatusLine = StatusLine(
    event: string,
    sessionId: Option<string>,
    agentId: Option<string>,
    toolName: Option<string>,
    toolUseId: Option<string>,
    question: Option<string>,
    notificationType: Option<string>,
    ts: string)

  datatype State = Working | Waiting | Done

  datatype WaitKind = Question | Permission | Elicitation

  datatype Signal =
    | Work
    | TurnStart
    | Wait(kind: WaitKind, toolUseId: Option<string>, detail: string)
    | WaitEnd(endId: Option<string>)
    | TurnEnd
    | SessionBoundary
    | Interrupt

  datatype Cause = TurnEnded | BoundaryCrossed | Interrupted

  datatype Observed = Observed(state: State, detail: Option<string>, ts: string, cause: Option<Cause>)

  datatype Shown = Shown(state: State, detail: Option<string>, cause: Option<Cause>)

  /** What the operator can tell apart. */
  type Key = (State, Option<string>)

  type SignalMap = StatusLine -> Option<Signal>

  const WORKING := Shown(Working, None, None)

  function DoneBy(cause: Cause): Shown {
    Shown(Done, None, Some(cause))
  }

  datatype Pending = Pending(kind: WaitKind, toolUseId: Option<string>, toolName: Option<string>, detail: string)
  {
    /**
     Does a wait end on this line concern the wait? Ids are compared first, then
     tool names; where one side has neither, only a tool's line and a nameless
     MCP question do not go together.
     */
    predicate EndsAt(line: StatusLine, endId: Option<string>) {
      if toolUseId.Some? && endId.Some? then toolUseId == endId
      else line.toolName.None? || (if toolName.Some? then toolName == line.toolName else kind != Elicitation)
    }
  }

  datatype Layers = Layers(lead: Option<string>, base: Option<Shown>, pending: Option<Pending>)
  {
    function View(): Option<Shown> {
      if pending.Some? then Some(Shown(Waiting, Some(pending.value.detail), None)) else base
    }

    function ViewKey(): Option<Key> {
      if View().Some? then Some((View().value.state, View().value.detail)) else None
    }

    predicate IsLead(line: StatusLine) {
      line.agentId.None? && (lead.Some? && line.sessionId.Some? ==> lead == line.sessionId)
    }

    function Adopt(line: StatusLine): Layers {
      if lead.None? && line.agentId.None? then this.(lead := line.sessionId) else this
    }

    function Settle(shown: Shown): Layers {
      this.(base := Some(shown), pending := None)
    }

    function Receive(line: StatusLine, signal: Signal): Layers {
      match signal
      case Wait(kind, id, detail) => this.(pending := Some(Pending(kind, id, line.toolName, detail)))
      case WaitEnd(id) =>
        if pending.None? then (if IsLead(line) then this.(base := Some(WORKING)) else this)
        else if pending.value.EndsAt(line, id) then Settle(if base.Some? then base.value else WORKING)
        else this
      case SessionBoundary =>
        if line.agentId.None? then this.(lead := line.sessionId).Settle(DoneBy(BoundaryCrossed)) else this
      case Work => if IsLead(line) then this.(base := Some(WORKING)) else this
      case TurnStart => if IsLead(line) then Settle(WORKING) else this
      case TurnEnd => if IsLead(line) then Settle(DoneBy(TurnEnded)) else this
      case Interrupt => if IsLead(line) then Settle(DoneBy(Interrupted)) else this
    }

    function Step(line: StatusLine, signals: SignalMap): Layers {
      match signals(line)
      case None => this
      case Some(signal) => Adopt(line).Receive(line, signal)
    }

    /** A line is news exactly when it changes what the operator can tell apart. */
    function Emit(line: StatusLine, signals: SignalMap): Option<Observed> {
      var next := Step(line, signals);
      if next.View().Some? && next.ViewKey() != ViewKey() then
        var shown := next.View().value;
        Some(Observed(shown.state, shown.detail, line.ts, shown.cause))
      else None
    }

    function Run(lines: seq<StatusLine>, signals: SignalMap): Layers
      decreases |lines|
    {
      if lines == [] then this else Step(lines[0], signals).Run(lines[1..], signals)
    }

    function Emitted(lines: seq<StatusLine>, signals: SignalMap): seq<Observed>
      decreases |lines|
    {
      if lines == [] then []
      else
        var rest := Step(lines[0], signals).Emitted(lines[1..], signals);
        match Emit(lines[0], signals)
        case None => rest
        case Some(o) => [o] + rest
    }

    predicate BaseNeverWaits() {
      base.Some? ==> base.value.state != Waiting
    }
  }

  const START := Layers(None, None, None)

  /** The line speaks for the lead: no subagent wrote it, and no session known to be another one. */
  predicate OfLead(lead: Option<string>, line: StatusLine) {
    line.agentId.None? && (lead.None? || line.sessionId.None? || line.sessionId == lead)
  }

  /**
   A wait end on this line answers the wait: tool use ids known on both sides
   agree; failing that, tool names known on both sides do, and no tool's return
   answers an MCP question that named none.
   */
  predicate Answers(p: Pending, line: StatusLine, id: Option<string>) {
    && (p.toolUseId.Some? && id.Some? ==> p.toolUseId == id)
    && (p.toolUseId.None? || id.None? ==>
        && (p.toolName.Some? && line.toolName.Some? ==> p.toolName == line.toolName)
        && !(p.kind == Elicitation && p.toolName.None? && line.toolName.Some?))
  }

  lemma {:induction false} RunAppend(l: Layers, a: seq<StatusLine>, b: seq<StatusLine>, signals: SignalMap)
    ensures l.Run(a + b, signals) == l.Run(a, signals).Run(b, signals)
    ensures l.Emitted(a + b, signals) == l.Emitted(a, signals) + l.Run(a, signals).Emitted(b, signals)
    decreases |a|
  {
    if a == [] {
      assert a + b == b;
    } else {
      assert (a + b)[1..] == a[1..] + b;
      RunAppend(l.Step(a[0], signals), a[1..], b, signals);
    }
  }

  /** In every reachable state the shown state is `Waiting` exactly when a wait is open. */
  lemma {:induction false} WaitingIffPending(l: Layers, lines: seq<StatusLine>, signals: SignalMap)
    requires l.BaseNeverWaits()
    ensures var r := l.Run(lines, signals);
      r.BaseNeverWaits() && ((r.View().Some? && r.View().value.state == Waiting) <==> r.pending.Some?)
    decreases |lines|
  {
    if lines != [] {
      WaitingIffPending(l.Step(lines[0], signals), lines[1..], signals);
    }
  }

  // ----- a chain of waits gives back the state it replaced

  predicate StaysPending(l: Layers, lines: seq<StatusLine>, signals: SignalMap)
    decreases |lines|
  {
    l.pending.Some? && (lines != [] ==> StaysPending(l.Step(lines[0], signals), lines[1..], signals))
  }

  /** Some line starts a tool of the lead. */
  predicate LeadWorked(l: Layers, lines: seq<StatusLine>, signals: SignalMap)
    decreases |lines|
  {
    lines != [] && (
      || (signals(lines[0]) == Some(Work) && OfLead(l.lead, lines[0]))
      || LeadWorked(l.Step(lines[0], signals), lines[1..], signals))
  }

  lemma {:induction false} BaseBehindWait(l: Layers, lines: seq<StatusLine>, signals: SignalMap)
    requires StaysPending(l, lines, signals)
    ensures l.Run(lines, signals).pending.Some?
    ensures l.Run(lines, signals).base == if LeadWorked(l, lines, signals) then Some(WORKING) else l.base
    decreases |lines|
  {
    if lines != [] {
      BaseBehindWait(l.Step(lines[0], signals), lines[1..], signals);
    }
  }

  /**
   The end of a chain of waits shows what was shown before the first one, or
   `working` if the lead started a tool meanwhile or nothing was shown.
   */
  lemma WaitChainRestores(l: Layers, first: StatusLine, mid: seq<StatusLine>, last: StatusLine, signals: SignalMap)
    requires l.pending.None?
    requires signals(first).Some? && signals(first).value.Wait?
    requires StaysPending(l.Step(first, signals), mid, signals)
    requires signals(last).Some? && signals(last).value.WaitEnd?
    requires l.Run([first] + mid + [last], signals).pending.None?
    ensures l.Run([first] + mid + [last], signals).View() ==
      if l.View().None? || LeadWorked(l.Step(first, signals), mid, signals) then Some(WORKING) else l.View()
  {
    var waiting := l.Step(first, signals);
    RunAppend(l, [first] + mid, [last], signals);
    RunAppend(l, [first], mid, signals);
    assert l.Run([first], signals) == waiting;
    BaseBehindWait(waiting, mid, signals);
    var before := waiting.Run(mid, signals);
    assert before.Run([last], signals) == before.Step(last, signals);
  }

  // ----- whose lines count

  /** A line of a subagent or of another session that opens and ends no wait, and starts no session anew. */
  predicate Inert(lead: Option<string>, line: StatusLine, signals: SignalMap) {
    !OfLead(lead, line) && !Boundary(line, signals)
    && (signals(line).Some? ==> !signals(line).value.Wait? && !signals(line).value.WaitEnd?)
  }

  function WithoutInert(l: Layers, lines: seq<StatusLine>, signals: SignalMap): seq<StatusLine>
    decreases |lines|
  {
    if lines == [] then []
    else
      (if Inert(l.lead, lines[0], signals) then [] else [lines[0]])
      + WithoutInert(l.Step(lines[0], signals), lines[1..], signals)
  }

  lemma InertStep(l: Layers, line: StatusLine, signals: SignalMap)
    requires Inert(l.lead, line, signals)
    ensures l.Step(line, signals) == l && l.Emit(line, signals) == None
  {
  }

  /** Deleting every such line changes neither what is emitted nor where the run ends. */
  lemma {:induction false} InertLinesErased(l: Layers, lines: seq<StatusLine>, signals: SignalMap)
    ensures l.Run(WithoutInert(l, lines, signals), signals) == l.Run(lines, signals)
    ensures l.Emitted(WithoutInert(l, lines, signals), signals) == l.Emitted(lines, signals)
    decreases |lines|
  {
    if lines != [] {
      var kept := WithoutInert(l.Step(lines[0], signals), lines[1..], signals);
      InertLinesErased(l.Step(lines[0], signals), lines[1..], signals);
      if Inert(l.lead, lines[0], signals) {
        InertStep(l, lines[0], signals);
        assert WithoutInert(l, lines, signals) == kept;
      } else {
        assert ([lines[0]] + kept)[1..] == kept;
      }
    }
  }

  predicate Boundary(line: StatusLine, signals: SignalMap) {
    line.agentId.None? && signals(line) == Some(SessionBoundary)
  }

  /** The first known session id among the mapped lines that no subagent wrote. */
  function FirstKnown(lines: seq<StatusLine>, signals: SignalMap): Option<string> {
    if lines == [] then None
    else if lines[0].agentId.None? && signals(lines[0]).Some? && lines[0].sessionId.Some? then lines[0].sessionId
    else FirstKnown(lines[1..], signals)
  }

  lemma {:induction false} LeadWithoutBoundary(l: Layers, lines: seq<StatusLine>, signals: SignalMap)
    requires forall i :: 0 <= i < |lines| ==> !Boundary(lines[i], signals)
    ensures l.Run(lines, signals).lead == if l.lead.Some? then l.lead else FirstKnown(lines, signals)
    decreases |lines|
  {
    if lines != [] {
      assert !Boundary(lines[0], signals);
      LeadWithoutBoundary(l.Step(lines[0], signals), lines[1..], signals);
    }
  }

  lemma LeadFromBoundary(l: Layers, lines: seq<StatusLine>, signals: SignalMap)
    requires lines != [] && Boundary(lines[0], signals)
    requires forall i :: 0 < i < |lines| ==> !Boundary(lines[i], signals)
    ensures l.Run(lines, signals).lead == FirstKnown(lines, signals)
  {
    LeadWithoutBoundary(l.Step(lines[0], signals), lines[1..], signals);
  }

  /** The lead is the first session known since the last boundary, or since the start when there was none. */
  lemma LeadIsFirstKnown(lines: seq<StatusLine>, k: nat, signals: SignalMap)
    requires k == 0 || (k < |lines| && Boundary(lines[k], signals))
    requires forall i :: k < i < |lines| ==> !Boundary(lines[i], signals)
    ensures START.Run(lines, signals).lead == FirstKnown(lines[k..], signals)
  {
    if k < |lines| && Boundary(lines[k], signals) {
      assert lines == lines[..k] + lines[k..];
      RunAppend(START, lines[..k], lines[k..], signals);
      LeadFromBoundary(START.Run(lines[..k], signals), lines[k..], signals);
    } else {
      assert lines[0..] == lines;
      LeadWithoutBoundary(START, lines, signals);
    }
  }

  // ----- an open wait survives what does not concern it

  /** No new wait, no agent-less boundary and no lead turn signal on this line. */
  predicate Unrelated(l: Layers, line: StatusLine, signals: SignalMap) {
    signals(line).Some? ==>
      match signals(line).value
      case Work => true
      case Wait(_, _, _) => false
      case WaitEnd(_) => true
      case SessionBoundary => line.agentId.Some?
      case _ => !OfLead(l.lead, line)
  }

  predicate AllUnrelated(l: Layers, lines: seq<StatusLine>, signals: SignalMap)
    decreases |lines|
  {
    lines != [] ==> Unrelated(l, lines[0], signals) && AllUnrelated(l.Step(lines[0], signals), lines[1..], signals)
  }

  predicate EndsWait(p: Pending, line: StatusLine, signals: SignalMap) {
    signals(line).Some? && signals(line).value.WaitEnd? && Answers(p, line, signals(line).value.endId)
  }

  lemma {:induction false} WaitSurvives(l: Layers, lines: seq<StatusLine>, signals: SignalMap)
    requires l.pending.Some? && AllUnrelated(l, lines, signals)
    requires forall i :: 0 <= i < |lines| ==> !EndsWait(l.pending.value, lines[i], signals)
    ensures l.Run(lines, signals).pending == l.pending && l.Emitted(lines, signals) == []
    decreases |lines|
  {
    if lines != [] {
      assert !EndsWait(l.pending.value, lines[0], signals);
      WaitSurvives(l.Step(lines[0], signals), lines[1..], signals);
    }
  }

  /** A wait for tool use `x` outlives every run of unrelated lines whose wait ends name other tool uses, in silence. */
  lemma NamedWaitSurvives(l: Layers, x: string, lines: seq<StatusLine>, signals: SignalMap)
    requires l.pending.Some? && l.pending.value.toolUseId == Some(x)
    requires AllUnrelated(l, lines, signals)
    requires forall i :: 0 <= i < |lines| && signals(lines[i]).Some? && signals(lines[i]).value.WaitEnd? ==>
      signals(lines[i]).value.endId.Some? && signals(lines[i]).value.endId != Some(x)
    ensures l.Run(lines, signals).pending == l.pending && l.Emitted(lines, signals) == []
  {
    WaitSurvives(l, lines, signals);
  }

  // ----- the emitted sequence

  function KeyOf(o: Observed): Key {
    (o.state, o.detail)
  }

  /** An observer of the emissions alone always knows what is shown, and never sees the same thing twice in a row. */
  lemma {:induction false} EmissionsTrackTheView(l: Layers, lines: seq<StatusLine>, signals: SignalMap)
    ensures var out := l.Emitted(lines, signals);
      && (out == [] ==> l.Run(lines, signals).ViewKey() == l.ViewKey())
      && (out != [] ==> l.Run(lines, signals).ViewKey() == Some(KeyOf(out[|out| - 1])))
      && (out != [] ==> Some(KeyOf(out[0])) != l.ViewKey())
      && forall i, j :: 0 <= i && j == i + 1 < |out| ==> KeyOf(out[i]) != KeyOf(out[j])
    decreases |lines|
  {
    if lines != [] {
      EmissionsTrackTheView(l.Step(lines[0], signals), lines[1..], signals);
    }
  }

  /** A tool call, seen from a turn that is already working, shows nothing new. */
  predicate ToolTraffic(line: StatusLine, signals: SignalMap) {
    signals(line).Some? ==> signals(line).value.Work? || signals(line).value.WaitEnd?
  }

  lemma {:induction false} WorkIsQuiet(l: Layers, lines: seq<StatusLine>, signals: SignalMap)
    requires l.base == Some(WORKING) && l.pending.None?
    requires forall i :: 0 <= i < |lines| ==> ToolTraffic(lines[i], signals)
    ensures l.Run(lines, signals).base == Some(WORKING) && l.Run(lines, signals).pending.None?
    ensures l.Emitted(lines, signals) == []
    decreases |lines|
  {
    if lines != [] {
      assert ToolTraffic(lines[0], signals);
      WorkIsQuiet(l.Step(lines[0], signals), lines[1..], signals);
    }
  }

  /** After `before`, the line counts as the lead's; with no lead known yet it makes its own session the lead. */
  predicate LeadsAfter(l: Layers, before: seq<StatusLine>, line: StatusLine, signals: SignalMap) {
    OfLead(l.Run(before, signals).lead, line)
  }

  /**
   A turn of the lead, the first turn of a fold included, emits its start and
   its end and nothing between, however many tools it and its subagents call.
   */
  lemma TurnEmitsItsEnds(
    l: Layers, prompt: StatusLine, tools: seq<StatusLine>, stop: StatusLine, signals: SignalMap)
    requires LeadsAfter(l, [], prompt, signals) && LeadsAfter(l, [prompt] + tools, stop, signals)
    requires signals(prompt) == Some(TurnStart) && signals(stop) == Some(TurnEnd)
    requires forall i :: 0 <= i < |tools| ==> ToolTraffic(tools[i], signals)
    ensures l.Emitted([prompt] + tools + [stop], signals) ==
      (if l.ViewKey() == Some((Working, None)) then [] else [Observed(Working, None, prompt.ts, None)])
      + [Observed(Done, None, stop.ts, Some(TurnEnded))]
  {
    var working := l.Step(prompt, signals);
    RunAppend(l, [prompt] + tools, [stop], signals);
    RunAppend(l, [prompt], tools, signals);
    TurnStarts(l, prompt, signals);
    WorkIsQuiet(working, tools, signals);
    TurnStops(working.Run(tools, signals), stop, signals);
  }

  lemma TurnStarts(l: Layers, prompt: StatusLine, signals: SignalMap)
    requires OfLead(l.lead, prompt) && signals(prompt) == Some(TurnStart)
    ensures var working := l.Step(prompt, signals);
      && l.Run([prompt], signals) == working && working.base == Some(WORKING) && working.pending.None?
      && l.Emitted([prompt], signals) ==
        if l.ViewKey() == Some((Working, None)) then [] else [Observed(Working, None, prompt.ts, None)]
  {
  }

  lemma TurnStops(l: Layers, stop: StatusLine, signals: SignalMap)
    requires OfLead(l.lead, stop) && signals(stop) == Some(TurnEnd)
    requires l.base == Some(WORKING) && l.pending.None?
    ensures l.Emitted([stop], signals) == [Observed(Done, None, stop.ts, Some(TurnEnded))]
  {
    assert l.Emit(stop, signals) == Some(Observed(Done, None, stop.ts, Some(TurnEnded)));
  }

  /**
   Question, permission or MCP question, then lines that do not concern it,
   then its end: one observation of the wait and one of the state it replaced.
   */
  lemma WaitRound(l: Layers, ask: StatusLine, mid: seq<StatusLine>, answer: StatusLine, signals: SignalMap)
    requires l.pending.None? && l.base.Some? && l.BaseNeverWaits()
    requires signals(ask).Some? && signals(ask).value.Wait?
    requires var w := l.Step(ask, signals);
      && AllUnrelated(w, mid, signals) && !LeadWorked(w, mid, signals)
      && (forall i :: 0 <= i < |mid| ==> !EndsWait(w.pending.value, mid[i], signals))
      && EndsWait(w.pending.value, answer, signals)
    ensures var v := l.base.value;
      && l.Emitted([ask] + mid + [answer], signals) ==
        [Observed(Waiting, Some(signals(ask).value.detail), ask.ts, None),
         Observed(v.state, v.detail, answer.ts, v.cause)]
      && l.Run([ask] + mid + [answer], signals).View() == l.View()
  {
    var w := l.Step(ask, signals);
    RunAppend(l, [ask] + mid, [answer], signals);
    RunAppend(l, [ask], mid, signals);
    WaitOpens(l, ask, signals);
    WaitSurvives(w, mid, signals);
    StaysPendingWhileUnrelated(w, mid, signals);
    BaseBehindWait(w, mid, signals);
    WaitCloses(w.Run(mid, signals), answer, signals);
  }

  lemma WaitOpens(l: Layers, ask: StatusLine, signals: SignalMap)
    requires l.pending.None? && l.BaseNeverWaits() && signals(ask).Some? && signals(ask).value.Wait?
    ensures l.Run([ask], signals) == l.Step(ask, signals) && l.Step(ask, signals).base == l.base
    ensures l.Emitted([ask], signals) == [Observed(Waiting, Some(signals(ask).value.detail), ask.ts, None)]
  {
  }

  lemma WaitCloses(l: Layers, answer: StatusLine, signals: SignalMap)
    requires l.pending.Some? && l.base.Some? && l.BaseNeverWaits() && EndsWait(l.pending.value, answer, signals)
    ensures l.Run([answer], signals).View() == l.base
    ensures var v := l.base.value;
      l.Emitted([answer], signals) == [Observed(v.state, v.detail, answer.ts, v.cause)]
  {
    var v := l.base.value;
    assert l.Emit(answer, signals) == Some(Observed(v.state, v.detail, answer.ts, v.cause));
  }

  lemma {:induction false} StaysPendingWhileUnrelated(l: Layers, lines: seq<StatusLine>, signals: SignalMap)
    requires l.pending.Some? && AllUnrelated(l, lines, signals)
    requires forall i :: 0 <= i < |lines| ==> !EndsWait(l.pending.value, lines[i], signals)
    ensures StaysPending(l, lines, signals)
    decreases |lines|
  {
    if lines != [] {
      assert !EndsWait(l.pending.value, lines[0], signals);
      StaysPendingWhileUnrelated(l.Step(lines[0], signals), lines[1..], signals);
    }
  }

  /** What a shown state may carry: a cause with a `Done` only, a detail with a `Waiting` only. */
  predicate WellShown(state: State, detail: Option<string>, cause: Option<Cause>) {
    (cause.Some? <==> state == Done) && (detail.Some? <==> state == Waiting)
  }

  /** In every run each observation says why it is done, or what it waits for, and nothing else. */
  lemma {:induction false} ObservationsWellShown(l: Layers, lines: seq<StatusLine>, signals: SignalMap)
    requires l.base.Some? ==> l.base.value.state != Waiting
    requires l.base.Some? ==> WellShown(l.base.value.state, l.base.value.detail, l.base.value.cause)
    ensures forall o :: o in l.Emitted(lines, signals) ==> WellShown(o.state, o.detail, o.cause)
    decreases |lines|
  {
    if lines != [] {
      ObservationsWellShown(l.Step(lines[0], signals), lines[1..], signals);
    }
  }

  /**
   The line makes the agent done for `cause`: the lead's turn end or interrupt,
   or a session boundary of no subagent.
   */
  predicate Earns(l: Layers, line: StatusLine, signals: SignalMap, cause: Cause) {
    var lead := OfLead(l.lead, line);
    match cause
    case TurnEnded => signals(line) == Some(TurnEnd) && lead
    case Interrupted => signals(line) == Some(Interrupt) && lead
    case BoundaryCrossed => Boundary(line, signals)
  }

  /** The line shows the lead at work: a tool or a turn starts, or a tool returns with no wait open. */
  predicate Revives(l: Layers, line: StatusLine, signals: SignalMap) {
    && signals(line).Some? && OfLead(l.lead, line)
    && (signals(line).value in {Work, TurnStart} || (signals(line).value.WaitEnd? && l.pending.None?))
  }

  /** Line `i` earned the `cause`, and no later line earned another or showed the lead at work. */
  ghost predicate DoneSince(lines: seq<StatusLine>, signals: SignalMap, i: nat, cause: Cause) {
    && i < |lines| && Earns(START.Run(lines[..i], signals), lines[i], signals, cause)
    && forall j :: i < j < |lines| ==> Undisturbed(START.Run(lines[..j], signals), lines[j], signals)
  }

  predicate Undisturbed(l: Layers, line: StatusLine, signals: SignalMap) {
    && !Revives(l, line, signals) && !Earns(l, line, signals, TurnEnded)
    && !Earns(l, line, signals, Interrupted) && !Earns(l, line, signals, BoundaryCrossed)
  }

  lemma RunSnoc(lines: seq<StatusLine>, signals: SignalMap)
    requires lines != []
    ensures START.Run(lines, signals) == START.Run(lines[..|lines| - 1], signals).Step(lines[|lines| - 1], signals)
  {
    var before, last := lines[..|lines| - 1], lines[|lines| - 1];
    assert lines == before + [last];
    RunAppend(START, before, [last], signals);
    assert START.Run(before, signals).Run([last], signals) == START.Run(before, signals).Step(last, signals);
  }

  lemma DoneStep(l: Layers, line: StatusLine, signals: SignalMap, cause: Cause)
    ensures Earns(l, line, signals, cause) ==> l.Step(line, signals).base == Some(DoneBy(cause))
    ensures Undisturbed(l, line, signals) ==>
      (l.Step(line, signals).base == Some(DoneBy(cause)) <==> l.base == Some(DoneBy(cause)))
    ensures !Undisturbed(l, line, signals) && !Earns(l, line, signals, cause) ==>
      l.Step(line, signals).base != Some(DoneBy(cause))
  {
  }

  /**
   The base is done for a cause exactly when some line earned it and the lead
   has neither worked nor been done otherwise since.
   */
  lemma {:induction false} DoneExactly(lines: seq<StatusLine>, signals: SignalMap, cause: Cause)
    ensures START.Run(lines, signals).base == Some(DoneBy(cause)) <==> exists i :: DoneSince(lines, signals, i, cause)
    decreases |lines|
  {
    if lines != [] {
      var last := |lines| - 1;
      var before := lines[..last];
      var l := START.Run(before, signals);
      DoneExactly(before, signals, cause);
      RunSnoc(lines, signals);
      DoneStep(l, lines[last], signals, cause);
      if Undisturbed(l, lines[last], signals) {
        forall i: nat ensures DoneSince(lines, signals, i, cause) <==> DoneSince(before, signals, i, cause) {
          SameDoneSince(lines, signals, i, cause);
        }
      } else {
        assert forall i: nat :: DoneSince(lines, signals, i, cause) ==> i == last;
        if Earns(l, lines[last], signals, cause) {
          assert DoneSince(lines, signals, last, cause);
        }
      }
    }
  }

  lemma SameDoneSince(lines: seq<StatusLine>, signals: SignalMap, i: nat, cause: Cause)
    requires lines != [] && Undisturbed(START.Run(lines[..|lines| - 1], signals), lines[|lines| - 1], signals)
    ensures DoneSince(lines, signals, i, cause) <==> DoneSince(lines[..|lines| - 1], signals, i, cause)
  {
    var last := |lines| - 1;
    var before := lines[..last];
    assert forall k :: 0 <= k < last ==> before[..k] == lines[..k] && before[k] == lines[k];
  }

  // ----- what the base and the wait are, over whole runs

  predicate EarnsAny(l: Layers, line: StatusLine, signals: SignalMap) {
    || Earns(l, line, signals, TurnEnded) || Earns(l, line, signals, Interrupted)
    || Earns(l, line, signals, BoundaryCrossed)
  }

  /** The end of a wait that came before anything was shown. */
  predicate Uncovers(l: Layers, line: StatusLine, signals: SignalMap) {
    l.base.None? && l.pending.Some? && EndsWait(l.pending.value, line, signals)
  }

  /** Line `i` showed the lead at work, and no later line made it done. */
  ghost predicate WorkingSince(lines: seq<StatusLine>, signals: SignalMap, i: nat) {
    && i < |lines|
    && (var l := START.Run(lines[..i], signals);
        Revives(l, lines[i], signals) || Uncovers(l, lines[i], signals))
    && forall j :: i < j < |lines| ==> !EarnsAny(START.Run(lines[..j], signals), lines[j], signals)
  }

  lemma WorkingStep(l: Layers, line: StatusLine, signals: SignalMap)
    ensures EarnsAny(l, line, signals) ==> l.Step(line, signals).base != Some(WORKING)
    ensures !EarnsAny(l, line, signals) ==>
      (l.Step(line, signals).base == Some(WORKING) <==>
        l.base == Some(WORKING) || Revives(l, line, signals) || Uncovers(l, line, signals))
  {
  }

  /** The base is at work exactly when some line showed the lead at work and none made it done since. */
  lemma {:induction false} WorkingExactly(lines: seq<StatusLine>, signals: SignalMap)
    ensures START.Run(lines, signals).base == Some(WORKING) <==> exists i :: WorkingSince(lines, signals, i)
    decreases |lines|
  {
    if lines != [] {
      var last := |lines| - 1;
      var before := lines[..last];
      WorkingExactly(before, signals);
      RunSnoc(lines, signals);
      WorkingStep(START.Run(before, signals), lines[last], signals);
      forall i: nat | i < last
        ensures WorkingSince(lines, signals, i) <==>
          WorkingSince(before, signals, i) && !EarnsAny(START.Run(before, signals), lines[last], signals)
      {
        SameWorkingSince(lines, signals, i);
      }
      if START.Run(lines, signals).base == Some(WORKING) && START.Run(before, signals).base != Some(WORKING) {
        assert WorkingSince(lines, signals, last);
      }
    }
  }

  lemma SameWorkingSince(lines: seq<StatusLine>, signals: SignalMap, i: nat)
    requires lines != [] && i < |lines| - 1
    ensures WorkingSince(lines, signals, i) <==>
      && WorkingSince(lines[..|lines| - 1], signals, i)
      && !EarnsAny(START.Run(lines[..|lines| - 1], signals), lines[|lines| - 1], signals)
  {
    var before := lines[..|lines| - 1];
    assert forall k :: 0 <= k < |before| ==> before[..k] == lines[..k] && before[k] == lines[k];
  }

  /** The line opens exactly this wait. */
  predicate Opens(line: StatusLine, signals: SignalMap, p: Pending) {
    && signals(line).Some? && signals(line).value.Wait?
    && p.kind == signals(line).value.kind && p.detail == signals(line).value.detail
    && p.toolUseId == signals(line).value.toolUseId && p.toolName == line.toolName
  }

  /** The line takes the wait away: its answer, another wait, a turn signal of the lead, or a session of no subagent. */
  predicate Closes(lead: Option<string>, p: Pending, line: StatusLine, signals: SignalMap) {
    signals(line).Some? &&
      match signals(line).value
      case Work => false
      case Wait(_, _, _) => true
      case WaitEnd(id) => Answers(p, line, id)
      case SessionBoundary => line.agentId.None?
      case _ => OfLead(lead, line)
  }

  ghost predicate OpenSince(lines: seq<StatusLine>, signals: SignalMap, i: nat, p: Pending) {
    && i < |lines| && Opens(lines[i], signals, p)
    && forall j :: i < j < |lines| ==> !Closes(START.Run(lines[..j], signals).lead, p, lines[j], signals)
  }

  lemma OpenStep(l: Layers, line: StatusLine, signals: SignalMap, p: Pending)
    ensures l.Step(line, signals).pending == Some(p) <==>
      Opens(line, signals, p) || (l.pending == Some(p) && !Closes(l.lead, p, line, signals))
  {
  }

  /** A wait is open exactly when some line opened it and no later line took it away. */
  lemma {:induction false} OpenExactly(lines: seq<StatusLine>, signals: SignalMap, p: Pending)
    ensures START.Run(lines, signals).pending == Some(p) <==> exists i :: OpenSince(lines, signals, i, p)
    decreases |lines|
  {
    if lines != [] {
      var last := |lines| - 1;
      var before := lines[..last];
      OpenExactly(before, signals, p);
      RunSnoc(lines, signals);
      OpenStep(START.Run(before, signals), lines[last], signals, p);
      forall i: nat | i < last
        ensures OpenSince(lines, signals, i, p) <==>
          OpenSince(before, signals, i, p) && !Closes(START.Run(before, signals).lead, p, lines[last], signals)
      {
        SameOpenSince(lines, signals, i, p);
      }
      if Opens(lines[last], signals, p) {
        assert OpenSince(lines, signals, last, p);
      }
    }
  }

  lemma SameOpenSince(lines: seq<StatusLine>, signals: SignalMap, i: nat, p: Pending)
    requires lines != [] && i < |lines| - 1
    ensures var before := lines[..|lines| - 1];
      OpenSince(lines, signals, i, p) <==>
        && OpenSince(before, signals, i, p)
        && !Closes(START.Run(before, signals).lead, p, lines[|lines| - 1], signals)
  {
    var before := lines[..|lines| - 1];
    assert forall k :: 0 <= k < |before| ==> before[..k] == lines[..k] && before[k] == lines[k];
  }
}
