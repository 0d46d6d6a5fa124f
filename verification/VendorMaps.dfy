/** The status maps of Claude Code and Codex, and what each one guarantees about every run of the fold. */
module VendorMaps {
  import opened Basics
  import opened Text
  import opened AgentState

  /** How a question is shown to the operator: who asks, then the trimmed words if any are left. */
  function Named(name: string, question: Option<string>): (r: string)
    ensures name <= r
  {
    if question.Some? && Trim(question.value) != [] then name + ": " + Trim(question.value) else name
  }

  /** The words of a question that reach the operator. */
  function Asked(question: Option<string>): string {
    if question.Some? then Trim(question.value) else []
  }

  /**
   Two waits of one name show alike exactly when their questions read alike: no
   other question is taken for a repeat.
   */
  lemma NamedTellsQuestions(name: string, q: Option<string>, r: Option<string>)
    ensures Named(name, q) == Named(name, r) <==> Asked(q) == Asked(r)
  {
    NamedReads(name, q);
    NamedReads(name, r);
    TellApart(name, Asked(q), Asked(r));
  }

  lemma NamedReads(name: string, question: Option<string>)
    ensures Named(name, question) == name + Colon(Asked(question))
  {
    assert name + ": " + Asked(question) == name + (": " + Asked(question));
  }

  function Colon(words: string): string {
    if words == [] then [] else ": " + words
  }

  lemma TellApart(name: string, a: string, b: string)
    ensures name + Colon(a) == name + Colon(b) <==> a == b
  {
    assert (name + Colon(a))[|name|..] == Colon(a) && (name + Colon(b))[|name|..] == Colon(b);
    assert a != [] ==> Colon(a)[2..] == a;
    assert b != [] ==> Colon(b)[2..] == b;
  }

  function PermissionDetail(tool: Option<string>): string {
    if tool.Some? then "permission: " + tool.value else "permission"
  }

  function ClaudeSignal(line: StatusLine): Option<Signal> {
    match line.event
    case "SessionStart" => Some(SessionBoundary)
    case "UserPromptSubmit" => Some(TurnStart)
    case "PreToolUse" =>
      if line.toolName == Some("AskUserQuestion")
      then Some(Wait(Question, line.toolUseId, Named("AskUserQuestion", line.question)))
      else Some(Work)
    case "PostToolUse" => Some(WaitEnd(line.toolUseId))
    case "ElicitationResult" => Some(WaitEnd(line.toolUseId))
    case "PermissionRequest" => Some(Wait(Permission, line.toolUseId, PermissionDetail(line.toolName)))
    case "Elicitation" => Some(Wait(Elicitation, None, Named("MCP question", line.question)))
    case "Stop" => Some(TurnEnd)
    case _ => None
  }

  const QUESTION_TOOL := "request_user_input"

  function CodexSignal(line: StatusLine, autoReview: bool): Option<Signal> {
    match line.event
    case "SessionStart" => Some(SessionBoundary)
    case "UserPromptSubmit" => Some(TurnStart)
    case "PreToolUse" =>
      if line.toolName == Some(QUESTION_TOOL)
      then Some(Wait(Question, line.toolUseId, Named(QUESTION_TOOL, line.question)))
      else Some(Work)
    case "PermissionRequest" =>
      if autoReview then Some(Work) else Some(Wait(Permission, line.toolUseId, PermissionDetail(line.toolName)))
    case "PostToolUse" => Some(WaitEnd(line.toolUseId))
    case "Stop" => Some(TurnEnd)
    case "Interrupt" => Some(Interrupt)
    case _ => None
  }

  function CodexAutoReviewed(line: StatusLine): Option<Signal> {
    CodexSignal(line, true)
  }

  /** The map of a run's Codex, which is launched without auto-review. */
  function CodexLaunched(line: StatusLine): Option<Signal> {
    CodexSignal(line, false)
  }

  predicate ElicitationIsAnonymous(l: Layers) {
    l.pending.Some? && l.pending.value.kind == Elicitation ==> l.pending.value.toolUseId.None?
  }

  lemma {:induction false} ClaudeElicitationsAnonymous(l: Layers, lines: seq<StatusLine>)
    requires ElicitationIsAnonymous(l)
    ensures ElicitationIsAnonymous(l.Run(lines, ClaudeSignal))
    decreases |lines|
  {
    if lines != [] {
      ClaudeElicitationsAnonymous(l.Step(lines[0], ClaudeSignal), lines[1..]);
    }
  }

  /** Under the Claude map no line that names a tool ends a nameless MCP question, in any reachable state. */
  lemma ClaudeQuestionOutlivesTools(before: seq<StatusLine>, lines: seq<StatusLine>)
    requires var l := START.Run(before, ClaudeSignal);
      && l.pending.Some? && l.pending.value.kind == Elicitation && l.pending.value.toolName.None?
      && AllUnrelated(l, lines, ClaudeSignal)
    requires forall i :: 0 <= i < |lines| ==> lines[i].toolName.Some?
    ensures var l := START.Run(before, ClaudeSignal);
      l.Run(lines, ClaudeSignal).pending == l.pending && l.Emitted(lines, ClaudeSignal) == []
  {
    ClaudeElicitationsAnonymous(START, before);
    WaitSurvives(START.Run(before, ClaudeSignal), lines, ClaudeSignal);
  }

  predicate AsksOnlyQuestions(l: Layers) {
    l.pending.Some? ==> l.pending.value.kind == Question && QUESTION_TOOL <= l.pending.value.detail
  }

  /**
   With Codex reviewing its own permission requests, no reachable state waits
   for a permission: every wait, and every waiting observation, is the question
   tool's.
   */
  lemma {:induction false} AutoReviewNeverAsksPermission(l: Layers, lines: seq<StatusLine>)
    requires AsksOnlyQuestions(l) && l.BaseNeverWaits()
    ensures AsksOnlyQuestions(l.Run(lines, CodexAutoReviewed))
    ensures forall o :: o in l.Emitted(lines, CodexAutoReviewed) && o.state == Waiting ==>
      o.detail.Some? && QUESTION_TOOL <= o.detail.value
    decreases |lines|
  {
    if lines != [] {
      AutoReviewNeverAsksPermission(l.Step(lines[0], CodexAutoReviewed), lines[1..]);
    }
  }

  predicate Starts(line: StatusLine) {
    line.event == "UserPromptSubmit"
  }

  predicate Stops(line: StatusLine) {
    line.event == "Stop"
  }

  predicate ToolCall(line: StatusLine, question: string) {
    (line.event == "PreToolUse" && line.toolName != Some(question)) || line.event == "PostToolUse"
  }

  lemma ClaudeEvents(line: StatusLine)
    ensures Starts(line) ==> ClaudeSignal(line) == Some(TurnStart)
    ensures Stops(line) ==> ClaudeSignal(line) == Some(TurnEnd)
    ensures ToolCall(line, "AskUserQuestion") ==> ToolTraffic(line, ClaudeSignal)
  {
  }

  lemma CodexEvents(line: StatusLine)
    ensures Starts(line) ==> CodexAutoReviewed(line) == CodexLaunched(line) == Some(TurnStart)
    ensures Stops(line) ==> CodexAutoReviewed(line) == CodexLaunched(line) == Some(TurnEnd)
    ensures ToolCall(line, QUESTION_TOOL) || line.event == "PermissionRequest" ==> ToolTraffic(line, CodexAutoReviewed)
    ensures ToolCall(line, QUESTION_TOOL) ==> ToolTraffic(line, CodexLaunched)
  {
  }

  /** A Claude turn whose tools ask the operator nothing emits its start and its end only. */
  lemma ClaudeTurn(l: Layers, prompt: StatusLine, tools: seq<StatusLine>, stop: StatusLine)
    requires Starts(prompt) && Stops(stop)
    requires LeadsAfter(l, [], prompt, ClaudeSignal) && LeadsAfter(l, [prompt] + tools, stop, ClaudeSignal)
    requires forall i :: 0 <= i < |tools| ==> ToolCall(tools[i], "AskUserQuestion")
    ensures l.Emitted([prompt] + tools + [stop], ClaudeSignal) ==
      (if l.ViewKey() == Some((Working, None)) then [] else [Observed(Working, None, prompt.ts, None)])
      + [Observed(Done, None, stop.ts, Some(TurnEnded))]
  {
    ClaudeEvents(prompt);
    ClaudeEvents(stop);
    forall i | 0 <= i < |tools| ensures ToolTraffic(tools[i], ClaudeSignal) { ClaudeEvents(tools[i]); }
    TurnEmitsItsEnds(l, prompt, tools, stop, ClaudeSignal);
  }

  /** A Codex turn under auto-review may also request permissions without showing a wait. */
  lemma CodexReviewedTurn(l: Layers, prompt: StatusLine, tools: seq<StatusLine>, stop: StatusLine)
    requires Starts(prompt) && Stops(stop)
    requires LeadsAfter(l, [], prompt, CodexAutoReviewed) && LeadsAfter(l, [prompt] + tools, stop, CodexAutoReviewed)
    requires forall i :: 0 <= i < |tools| ==>
      ToolCall(tools[i], QUESTION_TOOL) || tools[i].event == "PermissionRequest"
    ensures l.Emitted([prompt] + tools + [stop], CodexAutoReviewed) ==
      (if l.ViewKey() == Some((Working, None)) then [] else [Observed(Working, None, prompt.ts, None)])
      + [Observed(Done, None, stop.ts, Some(TurnEnded))]
  {
    CodexEvents(prompt);
    CodexEvents(stop);
    forall i | 0 <= i < |tools| ensures ToolTraffic(tools[i], CodexAutoReviewed) { CodexEvents(tools[i]); }
    TurnEmitsItsEnds(l, prompt, tools, stop, CodexAutoReviewed);
  }

  /** A launched Codex turn whose tools ask the operator nothing emits its start and its end only. */
  lemma CodexTurn(l: Layers, prompt: StatusLine, tools: seq<StatusLine>, stop: StatusLine)
    requires Starts(prompt) && Stops(stop)
    requires LeadsAfter(l, [], prompt, CodexLaunched) && LeadsAfter(l, [prompt] + tools, stop, CodexLaunched)
    requires forall i :: 0 <= i < |tools| ==> ToolCall(tools[i], QUESTION_TOOL)
    ensures l.Emitted([prompt] + tools + [stop], CodexLaunched) ==
      (if l.ViewKey() == Some((Working, None)) then [] else [Observed(Working, None, prompt.ts, None)])
      + [Observed(Done, None, stop.ts, Some(TurnEnded))]
  {
    CodexEvents(prompt);
    CodexEvents(stop);
    forall i | 0 <= i < |tools| ensures ToolTraffic(tools[i], CodexLaunched) { CodexEvents(tools[i]); }
    TurnEmitsItsEnds(l, prompt, tools, stop, CodexLaunched);
  }

  // ----- asking and answering

  /** The line asks the operator: a call of the tool named `asks`, or a permission request. */
  predicate Asks(asks: string, line: StatusLine, detail: string) {
    || (line.event == "PreToolUse" && line.toolName == Some(asks) && detail == Named(asks, line.question))
    || (line.event == "PermissionRequest"
        && detail == if line.toolName.Some? then "permission: " + line.toolName.value else "permission")
  }

  predicate Returns(line: StatusLine) {
    line.event == "PostToolUse"
  }

  /** As far as ids, or failing them names, are known on both lines, they tell of the same tool use. */
  predicate SameTool(ask: StatusLine, line: StatusLine) {
    if ask.toolUseId.Some? && line.toolUseId.Some? then ask.toolUseId == line.toolUseId
    else ask.toolName.None? || line.toolName.None? || ask.toolName == line.toolName
  }

  /** What a question or permission and its answer show: the wait, then the state it replaced. */
  function Round(l: Layers, ask: StatusLine, detail: string, answer: StatusLine): seq<Observed>
    requires l.base.Some?
  {
    [Observed(Waiting, Some(detail), ask.ts, None),
     Observed(l.base.value.state, l.base.value.detail, answer.ts, l.base.value.cause)]
  }

  /** A line that ends a wait and nothing else. */
  predicate OnlyEnds(line: StatusLine, signals: SignalMap) {
    signals(line) == Some(WaitEnd(line.toolUseId))
  }

  lemma AskRound(l: Layers, ask: StatusLine, mid: seq<StatusLine>, answer: StatusLine, signals: SignalMap)
    requires l.pending.None? && l.base.Some? && l.BaseNeverWaits()
    requires signals(ask).Some? && signals(ask).value.Wait?
    requires OnlyEnds(answer, signals) && forall i :: 0 <= i < |mid| ==> OnlyEnds(mid[i], signals)
    requires var p := l.Step(ask, signals).pending.value;
      Answers(p, answer, answer.toolUseId) && forall i :: 0 <= i < |mid| ==> !Answers(p, mid[i], mid[i].toolUseId)
    ensures l.Emitted([ask] + mid + [answer], signals) == Round(l, ask, signals(ask).value.detail, answer)
    ensures l.Run([ask] + mid + [answer], signals).View() == l.View()
  {
    ReturnsUnrelated(l.Step(ask, signals), mid, signals);
    WaitRound(l, ask, mid, answer, signals);
  }

  /** What the line of a question or permission opens. */
  function KindOf(ask: StatusLine): WaitKind {
    if ask.event == "PermissionRequest" then Permission else Question
  }

  lemma ClaudeAskEvents(line: StatusLine, detail: string)
    ensures Asks("AskUserQuestion", line, detail) ==>
      ClaudeSignal(line) == Some(Wait(KindOf(line), line.toolUseId, detail))
    ensures Returns(line) ==> OnlyEnds(line, ClaudeSignal)
  {
  }

  lemma CodexAskEvents(line: StatusLine, detail: string)
    ensures Asks(QUESTION_TOOL, line, detail) ==>
      CodexLaunched(line) == Some(Wait(KindOf(line), line.toolUseId, detail))
    ensures Returns(line) ==> OnlyEnds(line, CodexLaunched)
  {
  }

  lemma McpEvents(line: StatusLine)
    ensures line.event == "Elicitation" ==>
      ClaudeSignal(line) == Some(Wait(Elicitation, None, Named("MCP question", line.question)))
    ensures line.event == "ElicitationResult" ==> OnlyEnds(line, ClaudeSignal)
  {
  }

  lemma ToolRound(l: Layers, ask: StatusLine, mid: seq<StatusLine>, answer: StatusLine, detail: string,
                  signals: SignalMap)
    requires l.pending.None? && l.base.Some? && l.BaseNeverWaits()
    requires signals(ask) == Some(Wait(KindOf(ask), ask.toolUseId, detail))
    requires OnlyEnds(answer, signals) && SameTool(ask, answer)
    requires forall i :: 0 <= i < |mid| ==> OnlyEnds(mid[i], signals) && !SameTool(ask, mid[i])
    ensures l.Emitted([ask] + mid + [answer], signals) == Round(l, ask, detail, answer)
    ensures l.Run([ask] + mid + [answer], signals).View() == l.View()
  {
    var p := Pending(KindOf(ask), ask.toolUseId, ask.toolName, detail);
    assert l.Step(ask, signals).pending == Some(p);
    AskRound(l, ask, mid, answer, signals);
  }

  /**
   A Claude question or permission shows once with its detail, stays through
   the returns of other tool uses, and ends at the return of its own with the
   state it replaced.
   */
  lemma ClaudeAskRound(l: Layers, ask: StatusLine, mid: seq<StatusLine>, answer: StatusLine, detail: string)
    requires l.pending.None? && l.base.Some? && l.BaseNeverWaits()
    requires Asks("AskUserQuestion", ask, detail) && Returns(answer) && SameTool(ask, answer)
    requires forall i :: 0 <= i < |mid| ==> Returns(mid[i]) && !SameTool(ask, mid[i])
    ensures l.Emitted([ask] + mid + [answer], ClaudeSignal) == Round(l, ask, detail, answer)
    ensures l.Run([ask] + mid + [answer], ClaudeSignal).View() == l.View()
  {
    ClaudeAskEvents(ask, detail);
    ClaudeAskEvents(answer, detail);
    forall i | 0 <= i < |mid| ensures OnlyEnds(mid[i], ClaudeSignal) { ClaudeAskEvents(mid[i], detail); }
    ToolRound(l, ask, mid, answer, detail, ClaudeSignal);
  }

  /** The same of Codex as it is launched, where a permission request asks a human. */
  lemma CodexAskRound(l: Layers, ask: StatusLine, mid: seq<StatusLine>, answer: StatusLine, detail: string)
    requires l.pending.None? && l.base.Some? && l.BaseNeverWaits()
    requires Asks("request_user_input", ask, detail) && Returns(answer) && SameTool(ask, answer)
    requires forall i :: 0 <= i < |mid| ==> Returns(mid[i]) && !SameTool(ask, mid[i])
    ensures l.Emitted([ask] + mid + [answer], CodexLaunched) == Round(l, ask, detail, answer)
    ensures l.Run([ask] + mid + [answer], CodexLaunched).View() == l.View()
  {
    CodexAskEvents(ask, detail);
    CodexAskEvents(answer, detail);
    forall i | 0 <= i < |mid| ensures OnlyEnds(mid[i], CodexLaunched) { CodexAskEvents(mid[i], detail); }
    ToolRound(l, ask, mid, answer, detail, CodexLaunched);
  }

  /**
   A question of an MCP server shows once, stays through the returns of tools
   it does not name, and ends at a result that names no tool.
   */
  lemma ClaudeElicitationRound(l: Layers, ask: StatusLine, mid: seq<StatusLine>, answer: StatusLine)
    requires l.pending.None? && l.base.Some? && l.BaseNeverWaits()
    requires ask.event == "Elicitation" && answer.event == "ElicitationResult" && answer.toolName.None?
    requires forall i :: 0 <= i < |mid| ==>
      Returns(mid[i]) && mid[i].toolName.Some? && mid[i].toolName != ask.toolName
    ensures l.Emitted([ask] + mid + [answer], ClaudeSignal) ==
      Round(l, ask, Named("MCP question", ask.question), answer)
    ensures l.Run([ask] + mid + [answer], ClaudeSignal).View() == l.View()
  {
    var detail := Named("MCP question", ask.question);
    McpEvents(ask);
    McpEvents(answer);
    forall i | 0 <= i < |mid| ensures OnlyEnds(mid[i], ClaudeSignal) { ClaudeAskEvents(mid[i], detail); }
    assert l.Step(ask, ClaudeSignal).pending == Some(Pending(Elicitation, None, ask.toolName, detail));
    AskRound(l, ask, mid, answer, ClaudeSignal);
  }

  /** Wait ends start no turn, no wait and no tool. */
  lemma {:induction false} ReturnsUnrelated(l: Layers, lines: seq<StatusLine>, signals: SignalMap)
    requires forall i :: 0 <= i < |lines| ==> OnlyEnds(lines[i], signals)
    ensures AllUnrelated(l, lines, signals) && !LeadWorked(l, lines, signals)
    decreases |lines|
  {
    if lines != [] {
      assert OnlyEnds(lines[0], signals);
      ReturnsUnrelated(l.Step(lines[0], signals), lines[1..], signals);
    }
  }

  // ----- single events

  const COMMON := {"SessionStart", "UserPromptSubmit", "PreToolUse", "PostToolUse", "PermissionRequest", "Stop"}

  /** What every vendor's events do to the state: sessions, turns and tool calls. */
  predicate CommonEffects(asks: string, l: Layers, line: StatusLine, next: Layers) {
    && (line.event == "SessionStart" && line.agentId.None? ==>
        next == Layers(line.sessionId, Some(DoneBy(BoundaryCrossed)), None))
    && (Starts(line) && OfLead(l.lead, line) ==> next.View() == Some(WORKING) && next.pending.None?)
    && (Stops(line) && OfLead(l.lead, line) ==> next.View() == Some(DoneBy(TurnEnded)))
    && (ToolCall(line, asks) && OfLead(l.lead, line) && l.pending.None? ==> next.View() == Some(WORKING))
    && (line.event == "PreToolUse" && line.toolName != Some(asks) ==> next.pending == l.pending)
  }

  /** Claude's events act so, and an event outside its table, an interrupt included, changes nothing. */
  lemma ClaudeEventEffects(l: Layers, line: StatusLine)
    ensures CommonEffects("AskUserQuestion", l, line, l.Step(line, ClaudeSignal))
    ensures line.event !in COMMON + {"ElicitationResult", "Elicitation"} ==> l.Step(line, ClaudeSignal) == l
  {
  }

  /** So do those of a launched Codex, which also tells of interrupts. */
  lemma CodexEventEffects(l: Layers, line: StatusLine)
    ensures CommonEffects(QUESTION_TOOL, l, line, l.Step(line, CodexLaunched))
    ensures line.event == "Interrupt" && OfLead(l.lead, line) ==>
      l.Step(line, CodexLaunched).View() == Some(DoneBy(Interrupted))
    ensures line.event !in COMMON + {"Interrupt"} ==> l.Step(line, CodexLaunched) == l
  {
  }

  /** Auto-review takes a permission request for a tool call and reads every other event alike. */
  lemma AutoReviewEffects(l: Layers, line: StatusLine)
    ensures line.event != "PermissionRequest" ==> l.Step(line, CodexAutoReviewed) == l.Step(line, CodexLaunched)
    ensures line.event == "PermissionRequest" && OfLead(l.lead, line) && l.pending.None? ==>
      l.Step(line, CodexAutoReviewed).View() == Some(WORKING)
  {
  }
}
