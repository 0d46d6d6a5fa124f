/**
 The fold as the program keeps it, with the covered state stored inside the
 wait. Each method refines a step of the two-layer machine of `AgentState`.
 */
module StatusFold {
  import opened Basics
  import opened AgentState

  datatype OpenWait = OpenWait(
    kind: WaitKind,
    toolUseId: Option<string>,
    toolName: Option<string>,
    replaced: Option<Shown>)
  {
    predicate EndsAt(line: StatusLine, endId: Option<string>) {
      if toolUseId.Some? && endId.Some? then toolUseId == endId
      else
        match (toolName, line.toolName)
        case (Some(mine), Some(theirs)) => mine == theirs
        case (None, Some(_)) => kind != Elicitation
        case (_, None) => true
    }
  }

  class Fold {
    var lead: Option<string>
    var current: Option<Shown>
    var wait: Option<OpenWait>

    /** `shown` is what the fold shows: waiting with a detail in front of a calm state, or itself calm. */
    ghost predicate Shows(shown: Option<Shown>)
      reads this
    {
      if wait.Some? then
        && shown.Some? && shown.value.state == Waiting && shown.value.detail.Some? && shown.value.cause.None?
        && (wait.value.replaced.Some? ==> wait.value.replaced.value.state != Waiting)
      else shown.Some? ==> shown.value.state != Waiting
    }

    ghost predicate Valid()
      reads this
    {
      Shows(current)
    }

    ghost function LayersShowing(shown: Option<Shown>): Layers
      requires Shows(shown)
      reads this
    {
      match wait
      case None => Layers(lead, shown, None)
      case Some(w) => Layers(lead, w.replaced, Some(Pending(w.kind, w.toolUseId, w.toolName, shown.value.detail.value)))
    }

    ghost function Abs(): (l: Layers)
      requires Valid()
      reads this
      ensures l.View() == current
    {
      LayersShowing(current)
    }

    constructor ()
      ensures Valid() && Abs() == START
    {
      lead, current, wait := None, None, None;
    }

    predicate IsLead(line: StatusLine)
      reads this
    {
      if line.agentId.Some? then false
      else
        match (lead, line.sessionId)
        case (Some(mine), Some(theirs)) => mine == theirs
        case _ => true
    }

    /** Fold one line: the step of the two-layer machine, and news exactly when the view changed. */
    method Apply(line: StatusLine, signals: SignalMap) returns (out: Option<Observed>)
      requires Valid()
      modifies this
      ensures Valid() && Abs() == old(Abs()).Step(line, signals)
      ensures out == old(Abs()).Emit(line, signals)
    {
      var signal := signals(line);
      if signal.None? {
        return None;
      }
      if lead.None? && line.agentId.None? {
        lead := line.sessionId;
      }
      var next := Next(line, signal.value);
      if next.None? {
        return None;
      }
      var same := current.Some? && current.value.state == next.value.state && current.value.detail == next.value.detail;
      current := next;
      out := if same then None else Some(Observed(next.value.state, next.value.detail, line.ts, next.value.cause));
    }

    method Next(line: StatusLine, signal: Signal) returns (next: Option<Shown>)
      requires Valid()
      modifies this`lead, this`wait
      ensures var shown := if next.Some? then next else current;
        Shows(shown) && LayersShowing(shown) == old(Abs()).Receive(line, signal)
    {
      if signal.Wait? {
        var shown := BeginWait(line, signal.kind, signal.toolUseId, signal.detail);
        return Some(shown);
      } else if signal.WaitEnd? {
        next := EndWait(line, signal.endId);
      } else if signal.SessionBoundary? && line.agentId.None? {
        lead := line.sessionId;
        wait := None;
        return Some(DoneBy(BoundaryCrossed));
      } else if !IsLead(line) {
        return None;
      } else {
        match signal
        case Work => next := StartTool();
        case TurnStart => wait := None; next := Some(WORKING);
        case TurnEnd => wait := None; next := Some(DoneBy(TurnEnded));
        case Interrupt => wait := None; next := Some(DoneBy(Interrupted));
      }
    }

    /** The base behind an earlier wait is handed on to this one. */
    method BeginWait(line: StatusLine, kind: WaitKind, toolUseId: Option<string>, detail: string) returns (shown: Shown)
      requires Valid()
      modifies this`wait
      ensures Shows(Some(shown))
      ensures LayersShowing(Some(shown)) == old(Abs()).Receive(line, Wait(kind, toolUseId, detail))
    {
      var replaced := if wait.Some? then wait.value.replaced else current;
      wait := Some(OpenWait(kind, toolUseId, line.toolName, replaced));
      shown := Shown(Waiting, Some(detail), None);
    }

    method EndWait(line: StatusLine, endId: Option<string>) returns (next: Option<Shown>)
      requires Valid()
      modifies this`wait
      ensures var shown := if next.Some? then next else current;
        Shows(shown) && LayersShowing(shown) == old(Abs()).Receive(line, WaitEnd(endId))
    {
      if wait.None? {
        next := if IsLead(line) then Some(WORKING) else None;
      } else if wait.value.EndsAt(line, endId) {
        var replaced := wait.value.replaced;
        wait := None;
        next := Some(if replaced.Some? then replaced.value else WORKING);
      } else {
        next := None;
      }
    }

    /** The base becomes `working`; an open wait goes on covering it. */
    method StartTool() returns (next: Option<Shown>)
      requires Valid()
      modifies this`wait
      ensures var shown := if next.Some? then next else current;
        Shows(shown) && LayersShowing(shown) == old(Abs()).(base := Some(WORKING))
    {
      if wait.Some? {
        wait := Some(wait.value.(replaced := Some(WORKING)));
        next := None;
      } else {
        next := Some(WORKING);
      }
    }
  }
}
