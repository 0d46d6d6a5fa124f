/** The finalized-plan trailer: stamping it, detecting it, and resuming on it. */
module PlanResume {
  import opened Basics
  import opened Text

  // ----- the trailer

  function Digits(n: nat): (s: string)
    ensures s != [] && forall i :: 0 <= i < |s| ==> '0' <= s[i] <= '9'
  {
    var last := [('0' as int + n % 10) as char];
    if n < 10 then last else Digits(n / 10) + last
  }

  function Value(s: string): int {
    if s == [] then 0 else 10 * Value(s[..|s| - 1]) + (s[|s| - 1] as int - '0' as int)
  }

  lemma {:induction false} DigitsValue(n: nat)
    ensures Value(Digits(n)) == n
  {
    var s := Digits(n);
    if n >= 10 {
      DigitsValue(n / 10);
      assert s[..|s| - 1] == Digits(n / 10);
    } else {
      assert s[..|s| - 1] == [];
    }
  }

  const HEAD := "<!-- ralphy-plan: issue="

  const FOOT := " -->"

  function Trailer(n: nat): string {
    HEAD + Digits(n) + FOOT
  }

  lemma TrailerInjective(m: nat, n: nat)
    requires Trailer(m) == Trailer(n)
    ensures m == n
  {
    var a, b := Trailer(m), Trailer(n);
    assert a[|HEAD|..|a| - |FOOT|] == Digits(m) && b[|HEAD|..|b| - |FOOT|] == Digits(n);
    DigitsValue(m);
    DigitsValue(n);
  }

  /** Text that starts and ends in ink, on one line. */
  predicate Solid(t: string) {
    t != [] && OneLine(t) && !IsSpace(t[0]) && !IsSpace(t[|t| - 1])
  }

  lemma TrailerSolid(n: nat)
    ensures Solid(Trailer(n))
  {
    var t := Trailer(n);
    assert t[0] == HEAD[0] && t[|t| - 1] == FOOT[|FOOT| - 1];
    assert OneLine(HEAD) && OneLine(FOOT) && OneLine(Digits(n));
  }

  // ----- lines

  /** The pieces between newlines. */
  function Pieces(s: string): seq<string>
    decreases |s|
  {
    var i := LineStart(s, |s|);
    if i == 0 then [s] else Pieces(s[..i - 1]) + [s[i..]]
  }

  function StripCr(s: string): string {
    if s != [] && s[|s| - 1] == '\r' then s[..|s| - 1] else s
  }

  /** The lines of a text: a final newline opens no line, and a carriage return before a newline is dropped. */
  function Lines(s: string): seq<string> {
    var pieces := Pieces(s);
    var n := |pieces|;
    if n == 0 then []
    else Stripped(pieces[..n - 1]) + if pieces[n - 1] == [] then [] else [pieces[n - 1]]
  }

  function Stripped(pieces: seq<string>): (r: seq<string>)
    ensures |r| == |pieces|
  {
    seq(|pieces|, i requires 0 <= i < |pieces| => StripCr(pieces[i]))
  }

  /** The last line that is not blank, trimmed; empty when there is none. */
  function LastContent(lines: seq<string>): string {
    if lines == [] then []
    else if Trim(lines[|lines| - 1]) != [] then Trim(lines[|lines| - 1])
    else LastContent(lines[..|lines| - 1])
  }

  predicate Finalized(md: string, n: nat) {
    LastContent(Lines(md)) == Trailer(n)
  }

  // ----- what the last content is

  lemma TrimStripCr(s: string)
    ensures Trim(StripCr(s)) == Trim(s)
  {
    if s != [] && s[|s| - 1] == '\r' {
      var e := TrimEnd(StripCr(s));
      var tail := s[|e|..];
      assert s == e + tail && Blank(tail);
      TrimEndIs(e, tail);
    }
  }

  /** The last line of the text once its trailing whitespace is gone, trimmed. */
  function LastWords(md: string): string {
    Trim(LastLine(TrimEnd(md)))
  }

  lemma LastContentSnoc(lines: seq<string>, line: string)
    ensures LastContent(lines + [line]) == if Trim(line) != [] then Trim(line) else LastContent(lines)
  {
    assert (lines + [line])[..|lines|] == lines;
  }

  lemma StrippedSnoc(pieces: seq<string>, piece: string)
    ensures Stripped(pieces + [piece]) == Stripped(pieces) + [StripCr(piece)]
  {
  }

  /** A further line decides the last content, or is blank and leaves it as it was. */
  lemma LastContentStep(before: string, lines: seq<string>, after: string)
    requires OneLine(after) && (before == [] || before[|before| - 1] == '\n')
    requires LastContent(Stripped(lines)) == LastWords(before)
    ensures LastContent(Stripped(lines + [after])) == LastWords(before + after)
  {
    StrippedSnoc(lines, after);
    LastContentSnoc(Stripped(lines), StripCr(after));
    TrimStripCr(after);
    TrimBlank(after);
    if Blank(after) {
      BlankTailSkipped(before, after);
    } else {
      LastLineCarries(before, after);
    }
  }

  lemma PiecesSplit(md: string) returns (before: string, after: string)
    ensures md == before + after && OneLine(after) && (before == [] || before[|before| - 1] == '\n')
    ensures before == [] ==> Pieces(md) == [after]
    ensures before != [] ==> before == before[..|before| - 1] + "\n"
    ensures before != [] ==> Pieces(md) == Pieces(before[..|before| - 1]) + [after]
  {
    var i := LineStart(md, |md|);
    before, after := md[..i], md[i..];
    if i == 0 {
      assert after == md;
    } else {
      assert before[..i - 1] == md[..i - 1];
    }
  }

  lemma {:induction false} LastContentOfPieces(md: string)
    ensures LastContent(Stripped(Pieces(md))) == LastWords(md)
    decreases |md|
  {
    var before, after := PiecesSplit(md);
    if before == [] {
      FirstLine(after);
      assert md == after;
    } else {
      var shorter := before[..|before| - 1];
      LastContentOfPieces(shorter);
      FurtherLine(shorter, Pieces(shorter), after);
    }
  }

  lemma FirstLine(after: string)
    requires OneLine(after)
    ensures LastContent(Stripped([after])) == LastWords(after)
  {
    var none: seq<string> := [];
    assert none + [after] == [after] && [] + after == after;
    NoWords();
    LastContentStep([], none, after);
  }

  lemma FurtherLine(shorter: string, lines: seq<string>, after: string)
    requires OneLine(after) && LastContent(Stripped(lines)) == LastWords(shorter)
    ensures LastContent(Stripped(lines + [after])) == LastWords(shorter + "\n" + after)
  {
    BlankTailSkipped(shorter, "\n");
    LastContentStep(shorter + "\n", lines, after);
  }

  lemma NoWords()
    ensures LastWords([]) == [] && LastContent(Stripped([])) == []
  {
  }

  lemma LastLineCarries(before: string, after: string)
    requires (before == [] || before[|before| - 1] == '\n') && OneLine(after) && !Blank(after)
    ensures LastWords(before + after) == Trim(after)
  {
    var e := TrimEnd(after);
    var tail := after[|e|..];
    assert e != [] by { assert e == [] ==> Blank(after); }
    assert before + after == (before + e) + tail;
    TrimEndIs(before + e, tail);
    LastLineIs(before, e);
    TrimTrimEnd(after);
  }

  lemma BlankTailSkipped(md: string, tail: string)
    requires Blank(tail)
    ensures LastWords(md + tail) == LastWords(md)
  {
    var e := TrimEnd(md);
    var rest := md[|e|..] + tail;
    assert md + tail == e + rest;
    TrimEndIs(e, rest);
  }

  lemma LastContentIsLastWords(md: string)
    ensures LastContent(Lines(md)) == LastWords(md)
  {
    LastContentOfPieces(md);
    var pieces := Pieces(md);
    var n := |pieces|;
    if n > 0 {
      assert pieces == pieces[..n - 1] + [pieces[n - 1]];
      LastPieceUnstripped(pieces[..n - 1], pieces[n - 1]);
    }
  }

  /** Keeping the last piece's carriage return, or leaving an empty last piece out, changes no content. */
  lemma LastPieceUnstripped(pieces: seq<string>, last: string)
    ensures LastContent(Stripped(pieces + [last])) == LastContent(Stripped(pieces) + if last == [] then [] else [last])
  {
    StrippedSnoc(pieces, last);
    TrimStripCr(last);
    LastContentSnoc(Stripped(pieces), StripCr(last));
    LastContentSnoc(Stripped(pieces), last);
    assert Stripped(pieces) + [] == Stripped(pieces);
  }

  /** The text ends in `t` on a line of its own, whitespace aside. */
  ghost predicate EndsIn(md: string, t: string, pre: string, mid: string, post: string) {
    && md == pre + mid + t + post
    && (pre == [] || pre[|pre| - 1] == '\n') && OneLine(mid) && Blank(mid) && Blank(post)
  }

  lemma TrimParts(s: string) returns (a: string, b: string)
    ensures s == a + Trim(s) + b && Blank(a) && Blank(b)
  {
    var kept := TrimEnd(s);
    var k := ContentStart(kept, 0);
    a, b := kept[..k], s[|kept|..];
    assert kept == a + Trim(s) && s == kept + b;
  }

  lemma LastLineSplit(t: string) returns (pre: string)
    ensures t == pre + LastLine(t) && OneLine(LastLine(t)) && (pre == [] || pre[|pre| - 1] == '\n')
  {
    pre := t[..LineStart(t, |t|)];
  }

  lemma TrimEndSplit(s: string) returns (tail: string)
    ensures s == TrimEnd(s) + tail && Blank(tail)
  {
    tail := s[|TrimEnd(s)|..];
  }

  lemma Regroup(pre: string, mid: string, w: string, rest: string, tail: string)
    ensures pre + (mid + w + rest) + tail == pre + mid + w + (rest + tail)
    ensures Blank(rest) && Blank(tail) ==> Blank(rest + tail)
    ensures OneLine(mid + w + rest) ==> OneLine(mid)
  {
    var line := mid + w + rest;
    assert forall k :: 0 <= k < |mid| ==> mid[k] == line[k];
  }

  lemma LastWordsEnd(md: string) returns (pre: string, mid: string, post: string)
    ensures EndsIn(md, LastWords(md), pre, mid, post)
  {
    var tail := TrimEndSplit(md);
    pre := LastLineSplit(TrimEnd(md));
    var rest;
    mid, rest := TrimParts(LastLine(TrimEnd(md)));
    post := rest + tail;
    Regroup(pre, mid, LastWords(md), rest, tail);
  }

  lemma EndLine(pre: string, line: string, post: string)
    requires OneLine(line) && line != [] && !IsSpace(line[|line| - 1])
    requires (pre == [] || pre[|pre| - 1] == '\n') && Blank(post)
    ensures LastLine(TrimEnd(pre + line + post)) == line
  {
    TrimEndIs(pre + line, post);
    LastLineIs(pre, line);
  }

  lemma EndIsLastWords(md: string, t: string, pre: string, mid: string, post: string)
    requires Solid(t) && EndsIn(md, t, pre, mid, post)
    ensures LastWords(md) == t
  {
    Ungroup(pre, mid, t, post);
    EndLine(pre, mid + t, post);
    TrimIs(mid, t, []);
  }

  lemma Ungroup(pre: string, mid: string, t: string, post: string)
    requires Solid(t) && OneLine(mid)
    ensures pre + mid + t + post == pre + (mid + t) + post && mid + t + [] == mid + t
    ensures OneLine(mid + t) && mid + t != [] && !IsSpace((mid + t)[|mid + t| - 1])
  {
  }

  /** A text is finalized for `n` exactly when it ends in the trailer of `n` on a line of its own. */
  lemma FinalizedExactly(md: string, n: nat)
    ensures Finalized(md, n) <==> exists pre, mid, post :: EndsIn(md, Trailer(n), pre, mid, post)
  {
    LastContentIsLastWords(md);
    TrailerSolid(n);
    if Finalized(md, n) {
      var pre, mid, post := LastWordsEnd(md);
    }
    forall pre, mid, post | EndsIn(md, Trailer(n), pre, mid, post) ensures Finalized(md, n) {
      EndIsLastWords(md, Trailer(n), pre, mid, post);
    }
  }

  // ----- stamping

  function Stamp(md: string, n: nat): string {
    TrimEnd(md) + "\n\n" + Trailer(n) + "\n"
  }

  /** A stamped text is finalized for its issue and for no other. */
  lemma StampFinalizes(md: string, n: nat, m: nat)
    ensures Finalized(Stamp(md, n), m) <==> m == n
  {
    StampEnds(TrimEnd(md), Trailer(n));
    assert EndsIn(Stamp(md, n), Trailer(n), TrimEnd(md) + "\n\n", [], "\n");
    FinalizedExactly(Stamp(md, n), n);
    if Finalized(Stamp(md, n), m) {
      TrailerInjective(m, n);
    }
  }

  /** The stamped text keeps the plan up to its trailing whitespace, and is finalized for this issue alone. */
  method StampPlanTrailer(md: string, n: nat) returns (out: string)
    ensures TrimEnd(md) <= out && forall m: nat :: Finalized(out, m) <==> m == n
    ensures exists kept :: out == kept + Trailer(n) + "\n" && TrimEnd(kept) == TrimEnd(md)
    ensures out == Stamp(md, n)
  {
    out := TrimEnd(md);
    out := out + "\n\n";
    out := out + Trailer(n);
    out := out + "\n";
    forall m: nat ensures Finalized(out, m) <==> m == n { StampFinalizes(md, n, m); }
    StampKeepsPlan(md, n);
  }

  /** Without its trailer, a stamped text is the plan again, trailing whitespace aside. */
  lemma StampKeepsPlan(md: string, n: nat)
    ensures exists kept :: Stamp(md, n) == kept + Trailer(n) + "\n" && TrimEnd(kept) == TrimEnd(md)
  {
    TrimEndIs(TrimEnd(md), "\n\n");
    assert Stamp(md, n) == (TrimEnd(md) + "\n\n") + Trailer(n) + "\n";
  }

  lemma StampEnds(body: string, t: string)
    ensures EndsIn(body + "\n\n" + t + "\n", t, body + "\n\n", [], "\n")
  {
    assert body + "\n\n" + [] == body + "\n\n";
  }

  /** `t` stands in `s` at position `i`. */
  predicate OccursAt(s: string, t: string, i: nat) {
    i + |t| <= |s| && s[i..i + |t|] == t
  }

  /** Cuts that lose part of the trailer are not finalized exactly when no cut of the plan itself already was. */
  lemma CutsExactly(md: string, n: nat)
    ensures (forall cut: nat :: cut < |TrimEnd(md)| + 2 + |Trailer(n)| ==> !Finalized(Stamp(md, n)[..cut], n))
      <==> (forall cut: nat :: cut <= |TrimEnd(md)| ==> !Finalized(md[..cut], n))
  {
    var body, t := TrimEnd(md), Trailer(n);
    forall cut: nat | cut <= |body| ensures Stamp(md, n)[..cut] == md[..cut] {
      CutInBody(md, body, t, cut);
    }
    if forall cut: nat :: cut <= |body| ==> !Finalized(md[..cut], n) {
      forall cut: nat | |body| < cut < |body| + 2 + |t| ensures !Finalized(Stamp(md, n)[..cut], n) {
        assert !Finalized(md[..|body|], n);
        CutPastBody(body, n, cut);
      }
    }
  }

  lemma CutInBody(md: string, body: string, t: string, cut: nat)
    requires body <= md && cut <= |body|
    ensures (body + "\n\n" + t + "\n")[..cut] == md[..cut]
  {
  }

  lemma CutPastBody(body: string, n: nat, cut: nat)
    requires !Finalized(body, n) && |body| < cut < |body| + 2 + |Trailer(n)|
    ensures !Finalized((body + "\n\n" + Trailer(n) + "\n")[..cut], n)
  {
    var t, j := Trailer(n), cut - |body| - 2;
    var p := (body + "\n\n" + t + "\n")[..cut];
    LastContentIsLastWords(body);
    LastContentIsLastWords(p);
    TrailerSolid(n);
    if j <= 0 {
      CutInGap(body, t, cut);
    } else {
      CutInTrailer(body, t, j);
    }
  }

  lemma CutInGap(body: string, t: string, cut: nat)
    requires |body| < cut <= |body| + 2
    ensures LastWords((body + "\n\n" + t + "\n")[..cut]) == LastWords(body)
  {
    var gap := "\n\n";
    var tail := gap[..cut - |body|];
    assert (body + "\n\n" + t + "\n")[..cut] == body + tail;
    BlankTailSkipped(body, tail);
  }

  lemma CutInTrailer(body: string, t: string, j: nat)
    requires Solid(t) && 0 < j < |t|
    ensures LastWords((body + "\n\n" + t + "\n")[..|body| + 2 + j]) != t
  {
    var part := t[..j];
    assert (body + "\n\n" + t + "\n")[..|body| + 2 + j] == (body + "\n\n") + part;
    assert part[0] == t[0];
    LastLineCarries(body + "\n\n", part);
    TrimShortens(part);
  }

  lemma TrimShortens(s: string)
    ensures |Trim(s)| <= |s|
  {
    var a, b := TrimParts(s);
  }

  /** In particular no such cut is finalized when the plan does not hold the trailer at all. */
  lemma CutIsNotFinalized(md: string, n: nat, cut: nat)
    requires forall i: nat :: !OccursAt(md, Trailer(n), i)
    requires cut < |TrimEnd(md)| + 2 + |Trailer(n)|
    ensures !Finalized(Stamp(md, n)[..cut], n)
  {
    forall c: nat | c <= |TrimEnd(md)| ensures !Finalized(md[..c], n) {
      FinalizedExactly(md[..c], n);
      forall pre, mid, post ensures !EndsIn(md[..c], Trailer(n), pre, mid, post) {
        NoTrailerInside(md, Trailer(n), c, pre + mid, post);
      }
    }
    CutsExactly(md, n);
  }

  lemma NoTrailerInside(md: string, t: string, c: nat, before: string, post: string)
    requires c <= |md| && !OccursAt(md, t, |before|)
    ensures md[..c] != before + t + post
  {
    var p := before + t + post;
    var i := |before|;
    assert p[i..i + |t|] == t;
    if i + |t| <= c {
      assert md[..c][i..i + |t|] == md[i..i + |t|];
    }
  }

  // ----- the plan session

  /** One run of a planner: the plan file it left, and how it ended. */
  datatype Planner = Planner(left: Option<string>, crashed: bool, cleanExit: bool, limited: bool, authError: bool)

  datatype Ending = Resumed | Planned | Crashed | PlanLimit | AuthFailure | NoPlan

  function PlanAfter(plan: Option<string>, n: nat, run: Planner): Option<string> {
    if plan.Some? && Finalized(plan.value, n) then plan
    else if run.left.Some? && !run.crashed && run.cleanExit && !Finalized(run.left.value, n)
      then Some(Stamp(run.left.value, n))
      else run.left
  }

  /** How a session that ran its planner ends: without a plan, a typed limit comes before the login error. */
  function EndingOf(run: Planner): Ending {
    if run.crashed then Crashed
    else if run.left.Some? then Planned
    else if run.limited then PlanLimit
    else if run.authError then AuthFailure
    else NoPlan
  }

  class PlanShell {
    var plan: Option<string>
    var charter: Option<string>

    /** Resume on a finalized plan without running; else plan afresh, and stamp a plan left by a clean exit. */
    method RunPlanSession(n: nat, charterBody: string, run: Planner) returns (ending: Ending)
      modifies this
      ensures plan == PlanAfter(old(plan), n, run)
      ensures ending == Resumed <==> old(plan).Some? && Finalized(old(plan).value, n)
      ensures charter == if ending == Resumed then old(charter) else Some(charterBody)
      ensures ending != Resumed ==> ending == EndingOf(run)
    {
      if plan.Some? && Finalized(plan.value, n) {
        return Resumed;
      }
      plan := None;
      charter := Some(charterBody);
      plan := run.left;
      if run.crashed {
        return Crashed;
      }
      if plan.None? {
        if run.limited {
          return PlanLimit;
        } else if run.authError {
          return AuthFailure;
        }
        return NoPlan;
      }
      if run.cleanExit && !Finalized(plan.value, n) {
        var stamped := StampPlanTrailer(plan.value, n);
        plan := Some(stamped);
      }
      return Planned;
    }
  }

  /** The session for `n` resumes instead of running. */
  predicate Resumes(plan: Option<string>, n: nat) {
    plan.Some? && Finalized(plan.value, n)
  }

  datatype Session = Session(issue: nat, run: Planner)

  function PlanOf(sessions: seq<Session>): Option<string> {
    if sessions == [] then None
    else
      var last := sessions[|sessions| - 1];
      PlanAfter(PlanOf(sessions[..|sessions| - 1]), last.issue, last.run)
  }

  /** The last session that ran its planner. */
  function LastRun(sessions: seq<Session>): Option<Session> {
    if sessions == [] then None
    else
      var before, last := sessions[..|sessions| - 1], sessions[|sessions| - 1];
      if Resumes(PlanOf(before), last.issue) then LastRun(before) else Some(last)
  }

  predicate Delivers(run: Planner) {
    run.left.Some? && !run.crashed && run.cleanExit
  }

  /**
   A session resumes exactly when the last planner that ran delivered for the
   same issue, or left, undelivered, a text that already ends in its trailer.
   */
  lemma {:induction false} ResumesExactly(sessions: seq<Session>, n: nat)
    ensures Resumes(PlanOf(sessions), n) <==> LastRun(sessions).Some? && LeavesPlanFor(LastRun(sessions).value, n)
  {
    if sessions != [] {
      var before, last := sessions[..|sessions| - 1], sessions[|sessions| - 1];
      ResumesExactly(before, n);
      if !Resumes(PlanOf(before), last.issue) {
        RunLeaves(PlanOf(before), last, n);
      }
    }
  }

  /** A clean exit with a plan counts for the session's issue alone; any other ending only through the text it left. */
  predicate LeavesPlanFor(session: Session, n: nat) {
    if Delivers(session.run) then n == session.issue
    else session.run.left.Some? && Finalized(session.run.left.value, n)
  }

  lemma RunLeaves(plan: Option<string>, session: Session, n: nat)
    requires !Resumes(plan, session.issue)
    ensures Resumes(PlanAfter(plan, session.issue, session.run), n) <==> LeavesPlanFor(session, n)
  {
    var run := session.run;
    if Delivers(run) {
      if Finalized(run.left.value, session.issue) {
        FinalizedForOne(run.left.value, session.issue, n);
      } else {
        StampFinalizes(run.left.value, session.issue, n);
      }
    }
  }

  lemma FinalizedForOne(md: string, n: nat, m: nat)
    requires Finalized(md, n)
    ensures Finalized(md, m) <==> m == n
  {
    if Finalized(md, m) {
      TrailerInjective(m, n);
    }
  }

  /**
   What a session leaves: a resumed plan as it was; else what its planner left,
   byte for byte unless it delivered a plan without this issue's trailer, which
   then has it appended and nothing else changed but trailing whitespace.
   */
  lemma PlanLeft(plan: Option<string>, n: nat, run: Planner)
    ensures var after := PlanAfter(plan, n, run);
      && (Resumes(plan, n) ==> after == plan)
      && (!Resumes(plan, n) ==> (after.Some? <==> run.left.Some?))
      && (!Resumes(plan, n) && !(Delivers(run) && !Finalized(run.left.value, n)) ==> after == run.left)
      && (!Resumes(plan, n) && Delivers(run) && !Finalized(run.left.value, n) ==>
          exists kept :: after.value == kept + Trailer(n) + "\n" && TrimEnd(kept) == TrimEnd(run.left.value))
  {
    if run.left.Some? {
      StampKeepsPlan(run.left.value, n);
    }
  }

  /** How a session that ran its planner ends, as its outcome alone decides. */
  lemma EndingExactly(run: Planner)
    ensures EndingOf(run) == Crashed <==> run.crashed
    ensures EndingOf(run) == Planned <==> !run.crashed && run.left.Some?
    ensures EndingOf(run) == PlanLimit <==> !run.crashed && run.left.None? && run.limited
    ensures EndingOf(run) == AuthFailure <==> !run.crashed && run.left.None? && !run.limited && run.authError
    ensures EndingOf(run) == NoPlan <==> !run.crashed && run.left.None? && !run.limited && !run.authError
  {
  }

  /** A clean planning session leaves a plan that the same issue resumes untouched, whatever was on disk or written. */
  lemma CleanSessionResumes(plan: Option<string>, n: nat, run: Planner, again: Planner)
    requires Resumes(plan, n) || Delivers(run)
    ensures var after := PlanAfter(plan, n, run);
      Resumes(after, n) && PlanAfter(after, n, again) == after && forall m: nat :: m != n ==> !Resumes(after, m)
  {
    var after := PlanAfter(plan, n, run);
    if !Resumes(plan, n) && !Finalized(run.left.value, n) {
      StampFinalizes(run.left.value, n, n);
    }
    forall m: nat | Resumes(after, m) ensures m == n { TrailerInjective(m, n); }
  }
}
