# Ralphy, verified

Ralphy drives coding agents over a queue of GitHub issues. This project models the decision logic that the rest of the program trusts, and proves what it promises over every input and every run:

- **The board's queue order** (`IssueGraph`, `QueueOrder`, `OrderGraph`). A walk over blockers finds which queued issues must precede which; a smallest-ready-first placement orders the queue. The order is stated without the algorithm: members that reach no dependency cycle come first in a topological order, the others follow, and of all such listings the lexicographically least one is meant. What must precede what is told by the issues alone. The code is proved to compute exactly that listing, on every graph.
- **The agent state** (`AgentState`, `StatusFold`, `StatusTail`, `VendorMaps`). The status fold is proved, line by line, to refine a two-layer machine (a base state that never waits, and an optional wait in front of it), for any vendor map; what that machine shows after any run is told by the lines alone. The tail over a growing file is proved equal to one read at the end.
- **The liveness clocks** (`ApiWatch`, `SessionPump`). The degraded-API watch, its headless sibling and the idle watchdog, read as functions of whole poll histories, up to which check ends a session and when.
- **Stream accounting** (`TranscriptUsage`, `CursorStream`, `Ladder`). First-sight token accounting, and the Cursor record fold with its outcome ladder.
- **Resume, model families, the headless loop** (`PlanResume`, `ModelFamily`, `Headless`).

Source that updates state in place is modelled by classes and loops, whose contracts tie the new state to functions of the old one; the theorems are lemmas about those functions. Times are milliseconds, with one clock reading per poll. Detectors of vendor text (banner, limit, sentinel, JSON and UTF-8 decoding) are arbitrary functions handed in, so every theorem holds for all of them. Token counts, issue numbers and streaks are unbounded integers. `dafny verify dfyconfig.toml` checks the whole project.

Three places where the proofs say more, or other, than the comments in the source:

- The comment on the idle default (`crates/ralphy-agent-claude/src/api_watch.rs:247-265`) takes "idle window above the kill" to mean that the idle watchdog never ends a session before the API watch asks for a respawn. The code meets that exactly when the window is at least the kill plus the time between the last transcript growth and the banner (`IdleBoundIsTight`); with the shipped 45 and 17 minutes, when the banner appears within 28 minutes of the last growth (`DefaultWindowCovers`).
- The headless clock mirrors the terminal watch, but not on every history (`VanishedBannerParts`): the two part exactly where the banner is gone without growth after a stretch in the ping window, or where a stretch has reached the kill (`ClocksAgreeExactly`).
- Model-family normalisation is not idempotent on every id (`NotAlwaysIdempotent`): it is, exactly when no whitespace stands right before the id's run of decorations (`IdempotentExactly`).

## Model

| member | source | states |
|---|---|---|
| `IssueGraph.NumbersExactly` | mocks/workbench-shell/wb-kanban.js:123-124 | a number is queued, or open, exactly when some issue of that number is in the list, or is open in it |
| `IssueGraph.PrecedesInQueue` | mocks/workbench-shell/wb-kanban.js:146-153 | whatever must precede an issue is another queue member, never the issue itself |
| `IssueGraph.ReachesInside` | mocks/workbench-shell/wb-kanban.js:142-149 | a set closed under transparent blockers that holds the issue holds all it reaches, so the walk may stop when its stack is empty |
| `OrderGraph.BlockedTable` | mocks/workbench-shell/wb-kanban.js:125-127 | the blocked-by table: the project's last issue of a number counts, else the queue's first |
| `IssueGraph.LastIsLast` | mocks/workbench-shell/wb-kanban.js:126 | of several issues of one number the lookup in the project finds the last |
| `IssueGraph.FirstIsFirst` | mocks/workbench-shell/wb-kanban.js:127 | and the lookup in the queue the first |
| `OrderGraph.ChildrenTable` | mocks/workbench-shell/wb-kanban.js:130-135 | each declared parent maps to its queue children in queue order |
| `OrderGraph.Expand` | mocks/workbench-shell/wb-kanban.js:146-154 | one expanded node pushes exactly its transparent blockers and adds exactly what its blockers yield |
| `OrderGraph.Walk` | mocks/workbench-shell/wb-kanban.js:138-157 | the walk ends on every graph and its result is exactly the members reached over open out-of-queue issues, or standing in for a closed bundle |
| `OrderGraph.FindReady` | mocks/workbench-shell/wb-kanban.js:164-165 | the smallest member whose dependencies are all placed, or none is ready |
| `OrderGraph.Place` | mocks/workbench-shell/wb-kanban.js:160-174 | for every closed dependency relation the placement yields the one listing `IsQueueOrder` asks for |
| `OrderGraph.Order` | mocks/workbench-shell/wb-kanban.js:122-175 | the returned issues are the queue in that order for the dependencies of the issue graph |
| `OrderGraph.PrecedesExactly` | mocks/workbench-shell/wb-kanban.js:117-157 | told by the issues alone: a member must precede another exactly when a blocker at the end of a chain through open issues outside the queue asks for it, a queued blocker for itself, a closed or unknown one for its queued children |
| `QueueOrder.GreedyIsQueueOrder` | mocks/workbench-shell/wb-kanban.js:163-173 | a greedy topological listing with the unready rest ascending is lexicographically least among all listings that settle the relation |
| `QueueOrder.ExhaustedIsSettled` | mocks/workbench-shell/wb-kanban.js:166-169 | when nothing is ready, the placed members are exactly those that reach no cycle |
| `QueueOrder.AcyclicSettled` | mocks/workbench-shell/wb-kanban.js:158-159 | no cycle exists if and only if every member is settled, so the fallback is not taken |
| `QueueOrder.QueueOrderUnique` | mocks/workbench-shell/wb-kanban.js:158-174 | the dependency relation alone fixes the order |
| `OrderGraph.AcyclicOrder` | mocks/workbench-shell/wb-kanban.js:158-174 | without cycles the result is a topological order of the whole queue, least by number among all of them |
| `OrderGraph.GraphOrderShape` | mocks/workbench-shell/wb-kanban.js:158-174 | with cycles: the well-founded members with every dependency earlier, then exactly the others, ascending, none repeated |
| `OrderGraph.OrderIsPermutation` | mocks/workbench-shell/wb-kanban.js:160-174 | with distinct numbers the result is a permutation of the queue |
| `OrderGraph.OrderIgnoresArrangement` | mocks/workbench-shell/wb-kanban.js:122-175 | reordering the queue, the project's issues or any blocked-by list leaves the order unchanged |
| `OrderGraph.OpenBlockers` | mocks/workbench-shell/wb-kanban.js:112-115 | the issue's blockers that are still open, in declared order and each as often as declared, and no others |
| `OrderGraph.TurnIsUnblocked` | mocks/workbench-shell/wb-kanban.js:117-121 | closing issues in the returned order, at each settled issue's turn all that its blockers ask for, directly or through open issues outside the queue, is closed, the queued children of its closed bundles included, and its open blockers, itself aside, lie outside the queue |
| `StatusFold.Fold.Apply` | crates/ralphy-adapter-support/src/agent_state.rs:224-241 | folding a line is one step of the two-layer machine, and it is news exactly when the shown state or detail changed |
| `StatusFold.Fold.Next` | crates/ralphy-adapter-support/src/agent_state.rs:255-280 | each signal moves the lead, the wait and the shown state as the two-layer machine does |
| `StatusFold.Fold.BeginWait` | crates/ralphy-adapter-support/src/agent_state.rs:283-306 | a wait, also a second one, leaves the base state alone |
| `StatusFold.Fold.EndWait` | crates/ralphy-adapter-support/src/agent_state.rs:308-318 | a wait end that matches uncovers the base, one that does not changes nothing |
| `StatusFold.Fold.StartTool` | crates/ralphy-adapter-support/src/agent_state.rs:322-330 | a tool start makes the base `working`, in front of or behind a wait |
| `AgentState.WaitingIffPending` | crates/ralphy-adapter-support/src/agent_state.rs:176-209 | in every reachable state the shown state is `waiting` if and only if a wait is open |
| `AgentState.WaitChainRestores` | crates/ralphy-adapter-support/src/agent_state.rs:283-330 | the end of a chain of waits shows what was shown before the first, or `working` if the lead started a tool meanwhile or nothing was shown |
| `AgentState.InertLinesErased` | crates/ralphy-adapter-support/src/agent_state.rs:243-275 | deleting every line of a subagent or of another session that neither opens nor ends a wait nor starts a session anew changes neither the emissions nor the final state |
| `AgentState.LeadIsFirstKnown` | crates/ralphy-adapter-support/src/agent_state.rs:224-275 | the lead is the first known session id of the mapped agent-less lines since the last agent-less boundary |
| `AgentState.WaitSurvives` | crates/ralphy-adapter-support/src/agent_state.rs:187-203 | an open wait outlives every run of unrelated lines that do not match it, in silence |
| `AgentState.NamedWaitSurvives` | crates/ralphy-adapter-support/src/agent_state.rs:187-203 | a wait for a tool use outlives wait ends that name other tool uses |
| `AgentState.EmissionsTrackTheView` | crates/ralphy-adapter-support/src/agent_state.rs:222-241 | consecutive emissions differ in state or detail, and the last one is always what is shown |
| `AgentState.ObservationsWellShown` | crates/ralphy-adapter-support/src/agent_state.rs:139-147 | in every run an observation carries a cause exactly when it is done and a detail exactly when it waits |
| `AgentState.DoneExactly` | crates/ralphy-adapter-support/src/agent_state.rs:255-280 | in every run the base is done for a cause exactly when a line earned it and the lead has neither worked nor been done otherwise since |
| `AgentState.WorkingExactly` | crates/ralphy-adapter-support/src/agent_state.rs:255-330 | in every run the base is at work exactly when a line showed the lead at work, or ended a wait before anything was shown, and none made it done since |
| `AgentState.OpenExactly` | crates/ralphy-adapter-support/src/agent_state.rs:187-318 | in every run a wait is open exactly when a line opened it and no later line answered it, opened another, was a turn signal of the lead or a session start of no subagent; ids decide whether it is answered, else names, and no tool answers a nameless MCP question |
| `AgentState.WaitRound` | crates/ralphy-adapter-support/src/agent_state.rs:255-330 | a wait, lines that do not concern it, and its end emit exactly the wait and the state it replaced |
| `AgentState.TurnEmitsItsEnds` | crates/ralphy-adapter-support/src/agent_state.rs:255-275 | a turn of the lead, the first of a fold included, emits its start and its end and nothing between, however many tools it calls |
| `StatusTail.LinesAndRest` | crates/ralphy-adapter-support/src/agent_state.rs:386-393 | the lines and the carried rest are the text cut after each newline, nothing lost |
| `StatusTail.LinesAppend` | crates/ralphy-adapter-support/src/agent_state.rs:386-393 | cutting before and after a read with the rest carried over gives the lines of the whole |
| `StatusTail.Tail.ReadLines` | crates/ralphy-adapter-support/src/agent_state.rs:373-394 | reads what was appended, returns its complete lines and keeps the bytes after the last newline |
| `StatusTail.Tail.Poll` | crates/ralphy-adapter-support/src/agent_state.rs:358-366 | one poll folds exactly the complete lines appended since the last one |
| `StatusTail.IncrementalIsBatch` | crates/ralphy-adapter-support/src/agent_state.rs:358-394 | however an append-only file's growth is split into polls, failed reads included, the observations, the offset and the carry are those of one poll at the end |
| `StatusTail.WrittenIsSeen` | crates/ralphy-adapter-support/src/agent_state.rs:358-394 | lines written to the file and read in any number of polls show what the lines show; an incomplete last line is carried |
| `StatusTail.UndecodableSkipped` | crates/ralphy-adapter-support/src/agent_state.rs:358-394 | a complete line that does not decode goes unnoticed wherever it stands |
| `StatusTail.EmptyPoll` | crates/ralphy-adapter-support/src/agent_state.rs:373-385 | a poll that fails, or finds the file no longer than what was read, changes nothing |
| `VendorMaps.ClaudeQuestionOutlivesTools` | crates/ralphy-agent-claude/src/status.rs:36-69 | under the Claude map, in every reachable state, a nameless MCP question outlives every run of lines that name a tool, as long as none of them is a new wait, a turn signal of the lead or a session boundary of no subagent |
| `VendorMaps.ClaudeAskRound` | crates/ralphy-agent-claude/src/status.rs:36-77 | a Claude question or permission shows once with its detail, stays through the returns of other tool uses, told apart by id or else by name, and ends at the return of its own, also when that names no tool |
| `VendorMaps.ClaudeElicitationRound` | crates/ralphy-agent-claude/src/status.rs:36-69 | an MCP question shows once with its detail, stays through the returns of tools it does not name, and ends at a result without a tool with the state it replaced |
| `VendorMaps.ClaudeEventEffects` | crates/ralphy-agent-claude/src/status.rs:36-69 | what session starts, prompts, stops and tool calls of the lead make of the state; any event outside the table changes nothing |
| `VendorMaps.ClaudeTurn` | crates/ralphy-agent-claude/src/status.rs:36-69 | a Claude turn whose tools ask nothing, the first one included, emits exactly its start and its end |
| `VendorMaps.AutoReviewNeverAsksPermission` | crates/ralphy-agent-codex/src/status.rs:39-70 | with auto-review no reachable state waits for a permission, and every waiting observation is the question tool's |
| `VendorMaps.CodexReviewedTurn` | crates/ralphy-agent-codex/src/status.rs:39-70 | a reviewed Codex turn, the first one included, may request permissions and still emits exactly its start and its end |
| `VendorMaps.CodexTurn` | crates/ralphy-agent-codex/src/status.rs:39-75 | a turn of Codex as launched, whose tools ask nothing, emits exactly its start and its end |
| `VendorMaps.CodexAskRound` | crates/ralphy-agent-codex/src/status.rs:39-75 | as launched, a question or a permission request shows once with its detail and ends at the return of its own tool use |
| `VendorMaps.CodexEventEffects` | crates/ralphy-agent-codex/src/status.rs:39-75 | the effects of session starts, prompts, stops, tool calls and interrupts; any event outside the table changes nothing |
| `VendorMaps.AutoReviewEffects` | crates/ralphy-agent-codex/src/status.rs:39-70 | auto-review takes a permission request for work and reads every other event alike |
| `VendorMaps.NamedTellsQuestions` | crates/ralphy-agent-claude/src/status.rs:72-77 | two waits of one name show alike exactly when their questions read alike, so a new question is never taken for a repeat |
| `ApiWatch.ElapsedAtLeast` | crates/ralphy-agent-claude/src/api_watch.rs:124-127 | at least `d` has elapsed exactly when the clock reads `d` or more past the start, and always when `d` is zero |
| `ApiWatch.TerminalWatch.Feed` | crates/ralphy-agent-claude/src/api_watch.rs:84-90 | the buffer becomes the end of the old bytes and the chunk, all of it or its last 32 KiB, and nothing else changes |
| `ApiWatch.TerminalWatch.Poll` | crates/ralphy-agent-claude/src/api_watch.rs:101-134 | one poll's answer and new clock as functions of the old clock |
| `ApiWatch.BufferIsRecentBytes` | crates/ralphy-agent-claude/src/api_watch.rs:84-107 | over every history the inspected bytes are the end of what was fed since the last advance, all of it or its last 32 KiB, however chunked |
| `ApiWatch.Alternation` | crates/ralphy-agent-claude/src/api_watch.rs:101-131 | over every history a `Degraded` finds none outstanding, and `Recovered` is answered exactly at an advance that finds one |
| `ApiWatch.RespawnExactly` | crates/ralphy-agent-claude/src/api_watch.rs:114-127 | `Respawn` is answered exactly at polls that end an unbroken no-advance banner stretch at least `kill` long |
| `ApiWatch.DegradedExactly` | crates/ralphy-agent-claude/src/api_watch.rs:114-130 | `Degraded` is answered exactly when none is outstanding and the stretch is at least `ping` and under `kill` |
| `ApiWatch.OutstandingExactly` | crates/ralphy-agent-claude/src/api_watch.rs:101-131 | a degrade is outstanding exactly when some poll ended a stretch at least `ping` and under `kill` long and the transcript has not advanced since |
| `ApiWatch.StretchOf` | crates/ralphy-agent-claude/src/api_watch.rs:114-125 | a banner poll ends exactly one stretch and the clock measures from that stretch's first poll |
| `ApiWatch.DegradedWatch.Poll` | crates/ralphy-adapter-support/src/degraded.rs:67-87 | the headless clock's answer and new state as functions of the old one |
| `ApiWatch.HeadlessExactly` | crates/ralphy-adapter-support/src/degraded.rs:67-87 | `Degraded` exactly at the first poll of a stretch that comes `ping` after its beginning, `Recovered` exactly at the first poll without banner after a stretch that got so far |
| `ApiWatch.ClocksAgreeExactly` | crates/ralphy-adapter-support/src/degraded.rs:1-12 | the two clocks answer alike at every poll if and only if no poll finds the banner gone without growth after an unrecovered stretch in the ping window, and no stretch is at least `kill` long |
| `ApiWatch.ClocksAgree` | crates/ralphy-adapter-support/src/degraded.rs:67-87 | they agree on every history whose polls advance or show the banner and whose stretches are all shorter than `kill` |
| `ApiWatch.VanishedBannerParts` | crates/ralphy-agent-claude/src/api_watch.rs:114-123 | for every detector and every `ping` below `kill`, a banner that pings and is pushed out by other bytes leaves the terminal watch silent while the headless clock reports recovery |
| `SessionPump.ProgressBeat.Beat` | crates/ralphy-adapter-support/src/idle.rs:61-64 | progress is recorded at `now`, never before the base |
| `SessionPump.Pump.PollTranscript` | crates/ralphy-agent-claude/src/interactive.rs:375-417 | one poll's exit and new state as functions of the old state: early exits, progress, API watch, idle watchdog, in this order |
| `SessionPump.ExitExactly` | crates/ralphy-agent-claude/src/interactive.rs:375-417 | when each exit is taken over any run of polls: limit and login first; a respawn exactly at a banner stretch at least `kill` long in what the polls told the watch; else idle exactly when the transcript has not grown for a whole window |
| `SessionPump.GrowthKeepsAlive` | crates/ralphy-agent-claude/src/interactive.rs:397-414 | a session whose transcript grows at gaps below the window is never ended as idle |
| `SessionPump.MinutesTolerated` | crates/ralphy-adapter-support/src/idle.rs:86-111 | a window of zero minutes tolerates any silence, any other exactly its length |
| `SessionPump.IdleWaitsForRespawn` | crates/ralphy-agent-claude/src/interactive.rs:394-414 | with the banner from `b` on and no growth since `g`, a window of at least `kill + (b - g)` never lets the watchdog end the session first |
| `SessionPump.IdleBoundIsTight` | crates/ralphy-agent-claude/src/interactive.rs:394-414 | that bound is exact over all poll schedules |
| `SessionPump.DefaultWindowCovers` | crates/ralphy-agent-claude/src/api_watch.rs:18-24 | with a 17 minute kill and the 45 minute default window the bound is a banner within 28 minutes of the last growth |
| `SessionPump.RespawnLoop` | crates/ralphy-agent-claude/src/interactive.rs:83-92 | one child, or two when the first asks for a respawn; a second request settles on `Timeout` |
| `TranscriptUsage.ParseTranscriptUsage` | crates/ralphy-agent-claude/src/usage.rs:217-249 | usage is the first usage of each message id plus every id-less usage; the model dominates the per-model tally, and its tally times the number of models covers all that is attributed |
| `TranscriptUsage.DominantModel` | crates/ralphy-agent-claude/src/usage.rs:288-290 | the greatest name among the models with the largest tally |
| `TranscriptUsage.NameLeExactly` | crates/ralphy-agent-claude/src/usage.rs:285-290 | names are ordered as words: a prefix first, otherwise by the first difference |
| `TranscriptUsage.LedgerIsFirstSights` | crates/ralphy-agent-claude/src/usage.rs:217-269 | the running ledger holds exactly the first sights, in total and per model |
| `TranscriptUsage.TokensConserved` | crates/ralphy-agent-claude/src/usage.rs:238-245 | each of the four totals is the sum of that figure over the counted usage blocks, cache creation by its flat figure or else its tiers; and what is counted splits into the lines that name a model and those that do not |
| `TranscriptUsage.BlockReading` | crates/ralphy-agent-claude/src/usage.rs:193-283 | raising one count of a block, cache creation included, raises that count of its usage and no other; the tiers, each optional, count only without a flat figure, and then like a flat figure of their sum |
| `TranscriptUsage.TotalsAdd` | crates/ralphy-agent-claude/src/usage.rs:238-245 | every token counts once in a total, whichever of the four counts it is in |
| `TranscriptUsage.ReplayIgnored` | crates/ralphy-agent-claude/src/usage.rs:211-236 | a replayed line, or one without usage, changes nothing wherever it is inserted |
| `TranscriptUsage.OrderDoesNotMatter` | crates/ralphy-agent-claude/src/usage.rs:217-249 | when equal ids carry equal usage and model, any reordering of the lines gives the same ledger |
| `TranscriptUsage.ReorderedTranscript` | crates/ralphy-agent-claude/src/usage.rs:217-290 | so the total and the one model that can be chosen are the same for the reordered transcript |
| `TranscriptUsage.ReplayedTranscript` | crates/ralphy-agent-claude/src/usage.rs:211-249 | and a replayed or usage-less line, wherever it stands, changes neither of them |
| `CursorStream.FoldCursorStream` | crates/ralphy-agent-cursor/src/outcome.rs:183-221 | the line loop computes the fold the lemmas are about |
| `CursorStream.LastErrorIsReason` | crates/ralphy-agent-cursor/src/outcome.rs:257-269 | the stop reason is the error of the last failing `turn_ended` that states one |
| `CursorStream.FirstLimitIsReason` | crates/ralphy-agent-cursor/src/outcome.rs:166-231 | without one it is the first bare error-class line that names a limit |
| `CursorStream.NoStopReason` | crates/ralphy-agent-cursor/src/outcome.rs:226-269 | and without either there is none |
| `CursorStream.LastTextIsFinal` | crates/ralphy-agent-cursor/src/outcome.rs:234-250 | the final text is that of the last `result` that carries one |
| `CursorStream.NoTextIsEmpty` | crates/ralphy-agent-cursor/src/outcome.rs:234-250 | and empty when none does |
| `CursorStream.BareLimit` | crates/ralphy-agent-cursor/src/outcome.rs:166-173 | a bare line is a limit exactly when it is the error class followed by a sentence that names a limit, and that sentence is the reason |
| `CursorStream.SucceededExactly` | crates/ralphy-agent-cursor/src/outcome.rs:311-333 | the fold has succeeded exactly when some `result` reports success and no `result`, failing `turn_ended` or bare limit line follows it |
| `CursorStream.OutcomeExactly` | crates/ralphy-agent-cursor/src/outcome.rs:324-351 | each outcome exactly: `Limit` without a reset time, `Done`, `Timeout` on a timeout or an interrupt, `Blocked` with its reason, `Stuck` |
| `CursorStream.OtherRecordsIrrelevant` | crates/ralphy-agent-cursor/src/outcome.rs:183-221 | rewriting or removing any other records changes neither the stop reason nor the outcome |
| `Ladder.LadderPrecedence` | crates/ralphy-adapter-support/src/classify.rs:39-53 | no signal below the one that gave the outcome can change it, a signal above it always does, and a commit never matters |
| `PlanResume.TrailerInjective` | crates/ralphy-adapter-support/src/resume.rs:26-28 | different issues have different trailers |
| `PlanResume.FinalizedExactly` | crates/ralphy-adapter-support/src/resume.rs:41-49 | a plan is finalized exactly when it ends in the issue's trailer on a line of its own, whitespace aside |
| `PlanResume.StampPlanTrailer` | crates/ralphy-adapter-support/src/scaffold.rs:146-159 | the written text is the plan, trailing whitespace aside, followed by the trailer, and is finalized for this issue and for no other, whatever the plan held before |
| `PlanResume.StampFinalizes` | crates/ralphy-adapter-support/src/scaffold.rs:146-159 | a stamped plan is finalized for its issue and for no other |
| `PlanResume.CutsExactly` | crates/ralphy-adapter-support/src/resume.rs:30-40 | no cut of a stamped plan before the trailer is complete is finalized, exactly when no cut of the plan itself already was |
| `PlanResume.CutIsNotFinalized` | crates/ralphy-adapter-support/src/resume.rs:30-40 | so no such cut is finalized when the plan did not hold the trailer |
| `PlanResume.PlanShell.RunPlanSession` | crates/ralphy-adapter-support/src/scaffold.rs:82-139 | when a session resumes, what it leaves on disk, and which ending each failure takes |
| `PlanResume.PlanLeft` | crates/ralphy-adapter-support/src/scaffold.rs:88-139 | a resumed plan stays as it was; else the planner's text stays byte for byte, unless a clean exit left it without this issue's trailer, which is then appended and nothing else changed |
| `PlanResume.EndingExactly` | crates/ralphy-adapter-support/src/scaffold.rs:100-139 | when a session that ran its planner ends in each of the five ways |
| `PlanResume.CleanSessionResumes` | crates/ralphy-adapter-support/src/scaffold.rs:88-139 | after a clean planning session the same issue resumes the plan untouched and any other issue plans afresh |
| `PlanResume.ResumesExactly` | crates/ralphy-adapter-support/src/scaffold.rs:128-138 | over every history of sessions, a session resumes exactly when the last planner that ran exited cleanly with a plan for its issue, or ended otherwise and left a text that already ends in that issue's trailer |
| `ModelFamily.FamilyOf` | crates/ralphy-agent-cursor/src/model.rs:31-40 | the loop ends on a prefix of the bare id that no decoration shortens |
| `ModelFamily.Clash` | crates/ralphy-agent-cursor/src/model.rs:14-24 | two decorations end the same id only as `-high` inside `-extra-high` |
| `ModelFamily.RoundTripExactly` | crates/ralphy-agent-cursor/src/model.rs:1-40 | every decorated and bracketed spelling normalises back to the base exactly when the base is non-empty, trimmed, bracket-free, shortened by no decoration and does not end in `-extra` |
| `ModelFamily.PaddedRoundTrip` | crates/ralphy-agent-cursor/src/model.rs:31-40 | whitespace around the decorated id, also before the bracket, makes no difference |
| `ModelFamily.IdempotentExactly` | crates/ralphy-agent-cursor/src/model.rs:31-40 | normalising twice is normalising once exactly when no whitespace stands right before the run of decorations that ends the trimmed, bracket-free id |
| `ModelFamily.IdempotentOnIds` | crates/ralphy-agent-cursor/src/model.rs:31-40 | on ids without whitespace normalisation is idempotent and returns a prefix |
| `ModelFamily.NotAlwaysIdempotent` | crates/ralphy-agent-cursor/src/model.rs:31-40 | the id `x -low` is normalised to text that a second pass still changes |
| `Headless.ExecuteHeadless` | crates/ralphy-agent-claude/src/headless.rs:142-193 | the loop ends at the first iteration it cannot pass, on the deadline, the call's error, its ladder verdict or `Stuck`, after at most the cap's calls |
| `Headless.CallVerdict` | crates/ralphy-agent-claude/src/headless.rs:263-284 | when a single call ends on a limit, is done, timed out, is blocked, or goes on |
| `Headless.LoopEnds` | crates/ralphy-agent-claude/src/headless.rs:142-193 | how the loop ends at the iteration it cannot pass: a spent deadline, the call's error, a limit with its reset, a kill, a finished plan, a block, else `Stuck` |
| `Headless.StuckExactly` | crates/ralphy-agent-claude/src/headless.rs:301-325 | `Stuck` is the end exactly at two consecutive non-terminal calls without a commit, or when the calls are used up |
| `Headless.ContinuedCallsCommit` | crates/ralphy-agent-claude/src/headless.rs:297-312 | any two adjacent calls the loop went on past include a commit, so at least every second one committed |

## Left out

- The rest of the board (columns, labels, filters, sorting, seed data) and of `mocks/workbench-shell`: user interface.
- Process spawning, pipes, terminals, tree kills, threads and atomics: a poll or a beat is one step here, and races between reader threads are not modelled.
- JSON and UTF-8 decoding, escape stripping, case folding and the vendors' text detectors: arbitrary functions in the model.
- 64-bit and 32-bit overflow of token counts, offsets and streaks: all counts are unbounded.
- `ralphy-core/src/blocked.rs` and the daemon's copy of the fold: not modelled, and no equality with them is claimed.
- The checks of a session's poll loop outside the transcript checks (stop flag, child exit, wall deadline, hook proof), and the gate that paces them by `next_transcript_poll`: easy members beside the clocks. A schedule of polls is arbitrary here.
- The login watch inside the pump: its verdict is an input of each poll.
- `parse_plan_usage`, `fold_exec_usage`, usage of subagent transcripts: the same accounting with simpler rules.
- Tool-call descriptions, the session id, the degraded note and `saw_no_records` of the Cursor fold: folded as in the code, but they never reach the outcome and no theorem is about them.
- `model_refusal_stop` and `is_first_party`: text matching on one line.
- `failed_run_stop`, argv builders, settings, skills, assets, budgets, effort clamping and reset-hint calendars: thin or easy next to the rest.
- File writes that fail, and plan files that are not UTF-8: the stamp is then skipped by the code; the model always writes it.
- PlanResume.CutIsNotFinalized: speaks of the issue being stamped; a plan text that already held another issue's trailer can be cut back to that trailer.
