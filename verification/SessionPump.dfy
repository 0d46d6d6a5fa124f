/**
 The transcript-paced checks of a live session: the API watch and the idle
 watchdog read the same polls, in that order, and the question is which of the
 two ends a session stuck behind the retry banner.
 */
module SessionPump {
  import opened Basics
  import opened ApiWatch
  import Ladder

  // ----- the idle clock

  class ProgressBeat {
    const base: nat
    var sinceBase: nat

    constructor (base: nat)
      ensures this.base == base && LastBeat() == base
    {
      this.base := base;
      sinceBase := 0;
    }

    function LastBeat(): nat
      reads this
    {
      base + sinceBase
    }

    method Beat(now: nat)
      modifies this
      ensures LastBeat() == if now >= base then now else base
    {
      sinceBase := Elapsed(now, base);
    }

    function IdleFor(now: nat): nat
      reads this
    {
      Elapsed(now, LastBeat())
    }
  }

  /** How much silence is tolerated; `None` tolerates any. */
  datatype IdleWatch = IdleWatch(window: Option<nat>)
  {
    static function FromMinutes(minutes: nat): IdleWatch {
      IdleWatch(if minutes > 0 then Some(minutes * MINUTE) else None)
    }

    predicate Expired(idleFor: nat) {
      window.Some? && idleFor >= window.value && window.value != 0
    }
  }

  const MINUTE := 60 * 1000

  // ----- one poll

  /**
   What a poll reads: the clock, the transcript's length if there is one, and
   the two detectors that end a session.
   */
  datatype Sample = Sample(now: nat, transcript: Option<nat>, limited: bool, loggedOut: bool)

  datatype Exit = Limited | LoggedOut | AskRespawn | TimedOut

  datatype PumpState = PumpState(watch: Watch, base: nat, lastBeat: nat, lastLen: nat)

  predicate Advanced(lastLen: nat, s: Sample) {
    s.transcript.Some? && s.transcript.value > lastLen
  }

  /** The exits that come before either clock is read. */
  function EarlyExit(s: Sample): Option<Exit> {
    if s.transcript.Some? then (if s.limited then Some(Limited) else None)
    else if s.loggedOut then Some(LoggedOut) else None
  }

  function BeatAfter(st: PumpState, s: Sample): nat {
    if Advanced(st.lastLen, s) then (if s.now >= st.base then s.now else st.base) else st.lastBeat
  }

  function Polled(cfg: Config, st: PumpState, s: Sample): PumpState {
    var len := s.transcript.GetOr(st.lastLen);
    if EarlyExit(s).Some? then st.(lastLen := len)
    else st.(
      watch := ApiState(cfg, st.watch, s.now, Advanced(st.lastLen, s)),
      lastBeat := BeatAfter(st, s),
      lastLen := len)
  }

  function ExitOf(cfg: Config, idle: IdleWatch, st: PumpState, s: Sample): Option<Exit> {
    if EarlyExit(s).Some? then EarlyExit(s)
    else if ApiAnswer(cfg, st.watch, s.now, Advanced(st.lastLen, s)) == Respawn then Some(AskRespawn)
    else if idle.Expired(Elapsed(s.now, BeatAfter(st, s))) then Some(TimedOut)
    else None
  }

  class Pump {
    const idle: IdleWatch
    const beat: ProgressBeat
    const api: TerminalWatch
    var lastLen: nat
    var nextPoll: nat

    ghost function Abs(): PumpState
      reads this, beat, api
    {
      PumpState(api.Abs(), beat.base, beat.LastBeat(), lastLen)
    }

    constructor (cfg: Config, idle: IdleWatch, now: nat)
      ensures this.idle == idle && fresh(beat) && fresh(api) && api.cfg == cfg
      ensures Abs() == PumpState(FRESH, now, now, 0) && nextPoll == now
    {
      this.idle := idle;
      beat := new ProgressBeat(now);
      api := new TerminalWatch(cfg);
      lastLen, nextPoll := 0, now;
    }

    /** The checks in their order: usage limit or login, progress, API watch, idle watchdog. */
    method PollTranscript(s: Sample) returns (exit: Option<Exit>)
      modifies this, beat, api
      ensures Abs() == Polled(api.cfg, old(Abs()), s)
      ensures exit == ExitOf(api.cfg, idle, old(Abs()), s)
      ensures nextPoll == if exit.None? then s.now + 2000 else old(nextPoll)
    {
      var advanced := false;
      if s.transcript.Some? {
        advanced := s.transcript.value > lastLen;
        lastLen := s.transcript.value;
        if s.limited {
          return Some(Limited);
        }
      } else if s.loggedOut {
        return Some(LoggedOut);
      }
      if advanced {
        beat.Beat(s.now);
      }
      var action := api.Poll(s.now, advanced);
      if action == Respawn {
        return Some(AskRespawn);
      }
      if idle.Expired(beat.IdleFor(s.now)) {
        return Some(TimedOut);
      }
      nextPoll := s.now + 2000;
      return None;
    }
  }

  // ----- runs

  /** One turn of the loop: the bytes drained from the terminal, then a poll. */
  datatype Turn = Turn(drained: Bytes, sample: Sample)

  function Drained(st: PumpState, t: Turn): PumpState {
    st.(watch := st.watch.(buf := LastBytes(st.watch.buf + t.drained)))
  }

  function AfterTurn(cfg: Config, st: PumpState, t: Turn): PumpState {
    Polled(cfg, Drained(st, t), t.sample)
  }

  /** How the session ends, `None` while it goes on. */
  function FirstExit(cfg: Config, idle: IdleWatch, st: PumpState, turns: seq<Turn>): Option<Exit>
    decreases |turns|
  {
    if turns == [] then None
    else
      match ExitOf(cfg, idle, Drained(st, turns[0]), turns[0].sample)
      case Some(e) => Some(e)
      case None => FirstExit(cfg, idle, AfterTurn(cfg, st, turns[0]), turns[1..])
  }

  /** No transcript growth and neither early exit on any turn. */
  predicate Quiet(lastLen: nat, turns: seq<Turn>)
    decreases |turns|
  {
    turns != [] ==>
      var s := turns[0].sample;
      !Advanced(lastLen, s) && EarlyExit(s).None? && Quiet(s.transcript.GetOr(lastLen), turns[1..])
  }

  /** Every poll finds the banner in the bytes kept so far. */
  predicate ShowsBanner(cfg: Config, buf: Bytes, turns: seq<Turn>)
    decreases |turns|
  {
    turns != [] ==>
      var kept := LastBytes(buf + turns[0].drained);
      cfg.banner(kept) && ShowsBanner(cfg, kept, turns[1..])
  }

  function BufferAfter(buf: Bytes, turns: seq<Turn>): Bytes
    decreases |turns|
  {
    if turns == [] then buf else BufferAfter(LastBytes(buf + turns[0].drained), turns[1..])
  }

  /** The transcript length read last. */
  function LengthAfter(lastLen: nat, turns: seq<Turn>): nat
    decreases |turns|
  {
    if turns == [] then lastLen else LengthAfter(turns[0].sample.transcript.GetOr(lastLen), turns[1..])
  }

  /**
   Since the progress recorded in `st` nothing grew. The polls of `before` come
   no later than `b`; from the poll at `b` on, every poll finds the banner.
   */
  ghost predicate StuckFrom(cfg: Config, st: PumpState, b: nat, before: seq<Turn>, from: seq<Turn>) {
    && st.lastBeat <= b && (st.watch.since.Some? ==> st.watch.since.value <= b)
    && Quiet(st.lastLen, before) && Quiet(LengthAfter(st.lastLen, before), from)
    && (forall i :: 0 <= i < |before| ==> before[i].sample.now <= b)
    && from != [] && from[0].sample.now == b && (forall i :: 0 <= i < |from| ==> b <= from[i].sample.now)
    && ShowsBanner(cfg, BufferAfter(st.watch.buf, before), from)
  }

  /** The watchdog cannot fire before the watch has run `kill` from `b`. */
  predicate Patient(cfg: Config, idle: IdleWatch, g: nat, b: nat) {
    idle.window.Some? && idle.window.value != 0 ==> idle.window.value + g >= cfg.kill + b
  }

  lemma {:induction false} BannerPhase(cfg: Config, idle: IdleWatch, st: PumpState, b: nat, turns: seq<Turn>)
    requires Patient(cfg, idle, st.lastBeat, b) && st.lastBeat <= b
    requires if st.watch.since.Some? then st.watch.since.value <= b else turns != [] ==> turns[0].sample.now == b
    requires Quiet(st.lastLen, turns) && ShowsBanner(cfg, st.watch.buf, turns)
    requires forall i :: 0 <= i < |turns| ==> b <= turns[i].sample.now
    ensures FirstExit(cfg, idle, st, turns) in {None, Some(AskRespawn)}
    decreases |turns|
  {
    if turns != [] && ExitOf(cfg, idle, Drained(st, turns[0]), turns[0].sample).None? {
      BannerPhase(cfg, idle, AfterTurn(cfg, st, turns[0]), b, turns[1..]);
    }
  }

  /** While the watch has a chance to ask for a respawn, the idle watchdog never ends the session first. */
  lemma {:induction false} IdleWaitsForRespawn(cfg: Config, idle: IdleWatch, st: PumpState, b: nat,
                                                 before: seq<Turn>, from: seq<Turn>)
    requires cfg.kill > 0 && Patient(cfg, idle, st.lastBeat, b) && StuckFrom(cfg, st, b, before, from)
    ensures FirstExit(cfg, idle, st, before + from) in {None, Some(AskRespawn)}
    decreases |before|
  {
    if before == [] {
      assert before + from == from;
      BannerPhase(cfg, idle, st, b, from);
    } else {
      assert (before + from)[1..] == before[1..] + from;
      if ExitOf(cfg, idle, Drained(st, before[0]), before[0].sample).None? {
        IdleWaitsForRespawn(cfg, idle, AfterTurn(cfg, st, before[0]), b, before[1..], from);
      }
    }
  }

  /** An impatient window is beaten by some schedule: one poll at `b`, and one when the window closes. */
  lemma ImpatientIsReaped(cfg: Config, idle: IdleWatch, st: PumpState, b: nat, banner: Bytes) returns (from: seq<Turn>)
    requires cfg.kill > 0 && !Patient(cfg, idle, st.lastBeat, b)
    requires st.watch == FRESH && st.lastBeat <= b && |banner| <= MAX_BUF && cfg.banner(banner)
    ensures StuckFrom(cfg, st, b, [], from) && FirstExit(cfg, idle, st, [] + from) == Some(TimedOut)
  {
    var w := idle.window.value;
    var first := Turn(banner, Sample(b, None, false, false));
    assert LastBytes([] + banner) == banner;
    if st.lastBeat + w <= b {
      from := [first];
    } else {
      from := [first, Turn([], Sample(st.lastBeat + w, None, false, false))];
      assert from[1..] == [from[1]];
      WindowCloses(cfg, idle, AfterTurn(cfg, st, first), b, banner, from[1]);
    }
    assert [] + from == from;
  }

  /** The poll at which the window closes, while the stretch begun at `b` is still short of `kill`. */
  lemma WindowCloses(cfg: Config, idle: IdleWatch, st: PumpState, b: nat, banner: Bytes, t: Turn)
    requires idle.window.Some? && idle.window.value != 0
    requires |banner| <= MAX_BUF && cfg.banner(banner) && st.watch.buf == banner && st.watch.since == Some(b)
    requires b <= st.lastBeat + idle.window.value < cfg.kill + b
    requires t == Turn([], Sample(st.lastBeat + idle.window.value, None, false, false))
    ensures ShowsBanner(cfg, banner, [t]) && Quiet(st.lastLen, [t])
    ensures FirstExit(cfg, idle, st, [t]) == Some(TimedOut)
  {
    assert LastBytes(banner + []) == banner;
    assert [t][1..] == [];
  }

  /**
   After progress at `g`, no schedule with the banner from `b` on is reaped
   before the respawn, exactly when the window is at least `kill + (b - g)` or
   the watchdog is off.
   */
  lemma IdleBoundIsTight(cfg: Config, idle: IdleWatch, st: PumpState, b: nat, banner: Bytes)
    requires cfg.kill > 0 && st.watch == FRESH && st.lastBeat <= b
    requires |banner| <= MAX_BUF && cfg.banner(banner)
    ensures (forall before, from :: StuckFrom(cfg, st, b, before, from) ==>
        FirstExit(cfg, idle, st, before + from) != Some(TimedOut))
      <==> Patient(cfg, idle, st.lastBeat, b)
  {
    if Patient(cfg, idle, st.lastBeat, b) {
      forall before, from | StuckFrom(cfg, st, b, before, from)
        ensures FirstExit(cfg, idle, st, before + from) != Some(TimedOut)
      {
        IdleWaitsForRespawn(cfg, idle, st, b, before, from);
      }
    } else {
      var from := ImpatientIsReaped(cfg, idle, st, b, banner);
    }
  }

  const KILL_MINUTES := 17

  const DEFAULT_IDLE_MINUTES := 45

  /**
   With the shipped thresholds that leaves the banner 28 minutes to appear:
   past that the default window preempts the respawn, although it is longer
   than the kill.
   */
  lemma DefaultWindowCovers(cfg: Config, g: nat, b: nat)
    requires cfg.kill == KILL_MINUTES * MINUTE && g <= b
    ensures Patient(cfg, IdleWatch.FromMinutes(DEFAULT_IDLE_MINUTES), g, b) <==> b - g <= 28 * MINUTE
  {
  }

  // ----- how a session ends, told by its polls alone

  function StateAfter(cfg: Config, st: PumpState, turns: seq<Turn>): PumpState {
    if turns == [] then st
    else AfterTurn(cfg, StateAfter(cfg, st, turns[..|turns| - 1]), turns[|turns| - 1])
  }

  /** The exit turn `k` would take, were the session still going. */
  function ExitAt(cfg: Config, idle: IdleWatch, st: PumpState, turns: seq<Turn>, k: nat): Option<Exit>
    requires k < |turns|
  {
    ExitOf(cfg, idle, Drained(StateAfter(cfg, st, turns[..k]), turns[k]), turns[k].sample)
  }

  /** No turn before `k` ends the session. */
  predicate Reaches(cfg: Config, idle: IdleWatch, st: PumpState, turns: seq<Turn>, k: nat) {
    forall j: nat :: j < k && j < |turns| ==> ExitAt(cfg, idle, st, turns, j).None?
  }

  ghost predicate EndsAt(cfg: Config, idle: IdleWatch, st: PumpState, turns: seq<Turn>, k: nat, e: Exit) {
    k < |turns| && Reaches(cfg, idle, st, turns, k) && ExitAt(cfg, idle, st, turns, k) == Some(e)
  }

  lemma {:induction false} StateFromFirst(cfg: Config, st: PumpState, turns: seq<Turn>)
    requires turns != []
    ensures StateAfter(cfg, st, turns) == StateAfter(cfg, AfterTurn(cfg, st, turns[0]), turns[1..])
  {
    var last := |turns| - 1;
    if last > 0 {
      StateFromFirst(cfg, st, turns[..last]);
      assert turns[..last][1..] == turns[1..][..last - 1];
    } else {
      assert turns[..0] == [];
    }
  }

  lemma ExitFromFirst(cfg: Config, idle: IdleWatch, st: PumpState, turns: seq<Turn>, k: nat)
    requires 0 < k < |turns|
    ensures ExitAt(cfg, idle, st, turns, k) == ExitAt(cfg, idle, AfterTurn(cfg, st, turns[0]), turns[1..], k - 1)
  {
    StateFromFirst(cfg, st, turns[..k]);
    assert turns[..k][1..] == turns[1..][..k - 1];
  }

  /** The session ends at the first turn that takes an exit. */
  lemma {:induction false} FirstExitAt(cfg: Config, idle: IdleWatch, st: PumpState, turns: seq<Turn>, e: Exit)
    ensures FirstExit(cfg, idle, st, turns) == Some(e) <==> exists k: nat :: EndsAt(cfg, idle, st, turns, k, e)
    decreases |turns|
  {
    if turns != [] {
      assert turns[..0] == [];
      var next, rest := AfterTurn(cfg, st, turns[0]), turns[1..];
      FirstExitAt(cfg, idle, next, rest, e);
      forall k: nat | 0 < k < |turns|
        ensures EndsAt(cfg, idle, st, turns, k, e) <==>
          ExitAt(cfg, idle, st, turns, 0).None? && EndsAt(cfg, idle, next, rest, k - 1, e)
      {
        EndsFromFirst(cfg, idle, st, turns, k, e);
      }
      if k: nat :| EndsAt(cfg, idle, next, rest, k, e) && ExitAt(cfg, idle, st, turns, 0).None? {
        assert EndsAt(cfg, idle, st, turns, k + 1, e);
      }
      if ExitAt(cfg, idle, st, turns, 0) == Some(e) {
        assert EndsAt(cfg, idle, st, turns, 0, e);
      }
    }
  }

  lemma EndsFromFirst(cfg: Config, idle: IdleWatch, st: PumpState, turns: seq<Turn>, k: nat, e: Exit)
    requires 0 < k < |turns|
    ensures EndsAt(cfg, idle, st, turns, k, e) <==>
      && ExitAt(cfg, idle, st, turns, 0).None?
      && EndsAt(cfg, idle, AfterTurn(cfg, st, turns[0]), turns[1..], k - 1, e)
  {
    var next, rest := AfterTurn(cfg, st, turns[0]), turns[1..];
    forall j: nat | 0 < j <= k ensures ExitAt(cfg, idle, st, turns, j) == ExitAt(cfg, idle, next, rest, j - 1) {
      ExitFromFirst(cfg, idle, st, turns, j);
    }
    if Reaches(cfg, idle, next, rest, k - 1) && ExitAt(cfg, idle, st, turns, 0).None? {
      forall j: nat | j < k ensures ExitAt(cfg, idle, st, turns, j).None? {
        assert j == 0 || ExitAt(cfg, idle, next, rest, j - 1).None?;
      }
    }
    if Reaches(cfg, idle, st, turns, k) {
      forall j: nat | j < k - 1 ensures ExitAt(cfg, idle, next, rest, j).None? {
        assert ExitAt(cfg, idle, st, turns, j + 1).None?;
      }
    }
  }

  lemma {:induction false} LengthSnoc(lastLen: nat, turns: seq<Turn>)
    requires turns != []
    ensures var last := |turns| - 1;
      LengthAfter(lastLen, turns) == turns[last].sample.transcript.GetOr(LengthAfter(lastLen, turns[..last]))
    decreases |turns|
  {
    var last := |turns| - 1;
    if last > 0 {
      LengthSnoc(turns[0].sample.transcript.GetOr(lastLen), turns[1..]);
      assert turns[1..][..last - 1] == turns[..last][1..];
    }
  }

  /** The transcript is longer at turn `k` than when it was last read. */
  predicate Grows(lastLen: nat, turns: seq<Turn>, k: nat)
    requires k < |turns|
  {
    turns[k].sample.transcript.Some? && turns[k].sample.transcript.value > LengthAfter(lastLen, turns[..k])
  }

  /** The turns as the API watch hears of them. */
  function Events(lastLen: nat, turns: seq<Turn>): (h: History)
    ensures |h| == 2 * |turns|
  {
    if turns == [] then []
    else
      var last := |turns| - 1;
      Events(lastLen, turns[..last])
      + [Feed(turns[last].drained), Poll(turns[last].sample.now, Grows(lastLen, turns, last))]
  }

  predicate Early(s: Sample) {
    if s.transcript.Some? then s.limited else s.loggedOut
  }

  /** While the session goes on, the pump holds the length read last and the watch has heard every turn. */
  lemma {:induction false} PumpFollows(cfg: Config, idle: IdleWatch, st: PumpState, turns: seq<Turn>)
    requires st.watch == FRESH && Reaches(cfg, idle, st, turns, |turns|)
    ensures var now := StateAfter(cfg, st, turns);
      && now.base == st.base && now.lastLen == LengthAfter(st.lastLen, turns)
      && now.watch == After(cfg, Events(st.lastLen, turns))
  {
    if turns != [] {
      var last := |turns| - 1;
      var before := turns[..last];
      ReachesBefore(cfg, idle, st, turns, last);
      PumpFollows(cfg, idle, st, before);
      assert ExitAt(cfg, idle, st, turns, last).None?;
      LengthSnoc(st.lastLen, turns);
      FollowsTurn(cfg, idle, StateAfter(cfg, st, before), turns[last], Events(st.lastLen, before));
    }
  }

  lemma FollowsTurn(cfg: Config, idle: IdleWatch, st: PumpState, t: Turn, h: History)
    requires st.watch == After(cfg, h) && ExitOf(cfg, idle, Drained(st, t), t.sample).None?
    ensures var now := AfterTurn(cfg, st, t);
      var grows := t.sample.transcript.Some? && t.sample.transcript.value > st.lastLen;
      && now.base == st.base && now.lastLen == t.sample.transcript.GetOr(st.lastLen)
      && now.watch == After(cfg, h + [Feed(t.drained), Poll(t.sample.now, grows)])
  {
    HearsTurn(cfg, h, t, Advanced(st.lastLen, t.sample));
  }

  lemma ReachesBefore(cfg: Config, idle: IdleWatch, st: PumpState, turns: seq<Turn>, k: nat)
    requires k <= |turns| && Reaches(cfg, idle, st, turns, k)
    ensures Reaches(cfg, idle, st, turns[..k], k)
  {
    forall j: nat | j < k ensures ExitAt(cfg, idle, st, turns[..k], j).None? {
      assert turns[..k][..j] == turns[..j];
      assert ExitAt(cfg, idle, st, turns, j).None?;
    }
  }

  lemma HearsTurn(cfg: Config, h: History, t: Turn, grows: bool)
    ensures After(cfg, h + [Feed(t.drained), Poll(t.sample.now, grows)]) ==
      ApiState(cfg, After(cfg, h).(buf := LastBytes(After(cfg, h).buf + t.drained)), t.sample.now, grows)
    ensures AnswerAt(cfg, h + [Feed(t.drained), Poll(t.sample.now, grows)], |h| + 1) ==
      ApiAnswer(cfg, After(cfg, h).(buf := LastBytes(After(cfg, h).buf + t.drained)), t.sample.now, grows)
  {
    var fed := h + [Feed(t.drained)];
    var all := h + [Feed(t.drained), Poll(t.sample.now, grows)];
    assert all == fed + [Poll(t.sample.now, grows)] && all[..|h| + 1] == fed;
    AfterSnoc(cfg, h, Feed(t.drained));
    AfterSnoc(cfg, fed, Poll(t.sample.now, grows));
  }

  /** The clock never runs backwards. */
  predicate Ticking(st: PumpState, turns: seq<Turn>) {
    && st.base <= st.lastBeat
    && (forall i :: 0 <= i < |turns| ==> st.lastBeat <= turns[i].sample.now)
    && forall i, j :: 0 <= i < j < |turns| ==> turns[i].sample.now <= turns[j].sample.now
  }

  /** Nothing has grown for `window` when turn `k` polls. */
  predicate SilentFor(st: PumpState, turns: seq<Turn>, k: nat, window: nat)
    requires k < |turns|
  {
    && turns[k].sample.now >= st.lastBeat + window
    && forall j: nat :: j <= k && Grows(st.lastLen, turns, j) ==> turns[k].sample.now >= turns[j].sample.now + window
  }

  /** The watchdog is on and its whole window was silent. */
  predicate Overdue(idle: IdleWatch, st: PumpState, turns: seq<Turn>, k: nat)
    requires k < |turns|
  {
    idle.window.Some? && idle.window.value > 0 && SilentFor(st, turns, k, idle.window.value)
  }

  /** Of the growths before turn `k`, or the progress at the start, `beat` is the latest. */
  ghost predicate LatestGrowth(st: PumpState, turns: seq<Turn>, k: nat, beat: nat)
    requires k <= |turns|
  {
    && st.lastBeat <= beat
    && (forall j: nat :: j < k && Grows(st.lastLen, turns, j) ==> turns[j].sample.now <= beat)
    && (beat == st.lastBeat || exists j: nat :: j < k && GrewAt(st.lastLen, turns, j, beat))
  }

  predicate GrewAt(lastLen: nat, turns: seq<Turn>, j: nat, now: nat) {
    j < |turns| && Grows(lastLen, turns, j) && turns[j].sample.now == now
  }

  /** The recorded progress is the latest growth. */
  lemma {:induction false} BeatIsLatestGrowth(cfg: Config, idle: IdleWatch, st: PumpState, turns: seq<Turn>, k: nat)
    requires st.watch == FRESH && k <= |turns| && Reaches(cfg, idle, st, turns, k) && Ticking(st, turns)
    ensures LatestGrowth(st, turns, k, StateAfter(cfg, st, turns[..k]).lastBeat)
  {
    if k > 0 {
      BeatIsLatestGrowth(cfg, idle, st, turns, k - 1);
      BeatStep(cfg, idle, st, turns, k - 1);
      LatestGrowthStep(st, turns, k - 1, StateAfter(cfg, st, turns[..k - 1]).lastBeat);
    }
  }

  lemma LatestGrowthStep(st: PumpState, turns: seq<Turn>, k: nat, beat: nat)
    requires k < |turns| && Ticking(st, turns) && LatestGrowth(st, turns, k, beat)
    ensures LatestGrowth(st, turns, k + 1, if Grows(st.lastLen, turns, k) then turns[k].sample.now else beat)
  {
    if Grows(st.lastLen, turns, k) {
      assert GrewAt(st.lastLen, turns, k, turns[k].sample.now);
    }
  }

  lemma BeatStep(cfg: Config, idle: IdleWatch, st: PumpState, turns: seq<Turn>, k: nat)
    requires st.watch == FRESH && k < |turns| && Reaches(cfg, idle, st, turns, k + 1) && Ticking(st, turns)
    ensures StateAfter(cfg, st, turns[..k + 1]).lastBeat ==
      if Grows(st.lastLen, turns, k) then turns[k].sample.now else StateAfter(cfg, st, turns[..k]).lastBeat
  {
    assert turns[..k + 1][..k] == turns[..k];
    ReachesBefore(cfg, idle, st, turns, k);
    PumpFollows(cfg, idle, st, turns[..k]);
    assert ExitAt(cfg, idle, st, turns, k).None?;
  }

  lemma RespawnsWhenStuck(cfg: Config, st: PumpState, turns: seq<Turn>, k: nat)
    requires k < |turns|
    ensures var w := After(cfg, Events(st.lastLen, turns[..k]));
      ApiAnswer(cfg, w.(buf := LastBytes(w.buf + turns[k].drained)), turns[k].sample.now, Grows(st.lastLen, turns, k))
        == Respawn
      <==> Kills(cfg, Events(st.lastLen, turns[..k + 1]), 2 * k + 1)
  {
    EventsSnoc(st.lastLen, turns, k);
    TurnRespawns(cfg, Events(st.lastLen, turns[..k]), turns[k], Grows(st.lastLen, turns, k));
  }

  lemma TurnRespawns(cfg: Config, h: History, t: Turn, grows: bool)
    ensures var w := After(cfg, h);
      ApiAnswer(cfg, w.(buf := LastBytes(w.buf + t.drained)), t.sample.now, grows) == Respawn
      <==> Kills(cfg, h + [Feed(t.drained), Poll(t.sample.now, grows)], |h| + 1)
  {
    HearsTurn(cfg, h, t, grows);
    RespawnIsKill(cfg, h + [Feed(t.drained), Poll(t.sample.now, grows)], |h| + 1);
  }

  lemma EventsSnoc(lastLen: nat, turns: seq<Turn>, k: nat)
    requires k < |turns|
    ensures Events(lastLen, turns[..k + 1]) ==
      Events(lastLen, turns[..k]) + [Feed(turns[k].drained), Poll(turns[k].sample.now, Grows(lastLen, turns, k))]
  {
    assert turns[..k + 1][..k] == turns[..k];
  }

  lemma RespawnIsKill(cfg: Config, h: History, j: nat)
    requires j < |h| && h[j].Poll?
    ensures AnswerAt(cfg, h, j) == Respawn <==> Kills(cfg, h, j)
  {
    RespawnExactly(cfg, h, j);
  }

  lemma IdleWhenSilent(st: PumpState, turns: seq<Turn>, k: nat, before: nat, window: nat)
    requires k < |turns| && Ticking(st, turns) && window > 0 && LatestGrowth(st, turns, k, before)
    ensures var beat := if Grows(st.lastLen, turns, k) then turns[k].sample.now else before;
      Elapsed(turns[k].sample.now, beat) >= window <==> SilentFor(st, turns, k, window)
  {
  }

  lemma ExitOfTurn(cfg: Config, idle: IdleWatch, st: PumpState, s: Sample, grows: bool)
    requires grows <==> s.transcript.Some? && s.transcript.value > st.lastLen
    requires st.base <= s.now
    ensures var exit, beat := ExitOf(cfg, idle, st, s), if grows then s.now else st.lastBeat;
      var respawn := ApiAnswer(cfg, st.watch, s.now, grows) == Respawn;
      && (exit == Some(Limited) <==> s.transcript.Some? && s.limited)
      && (exit == Some(LoggedOut) <==> s.transcript.None? && s.loggedOut)
      && (exit == Some(AskRespawn) <==> !Early(s) && respawn)
      && (exit == Some(TimedOut) <==> !Early(s) && !respawn && idle.Expired(Elapsed(s.now, beat)))
  {
  }

  /**
   When each exit is taken, at any turn the session reaches: the limit and the
   login come first; then a banner stretch at least `kill` long in what the
   turns told the watch; then a window without growth.
   */
  lemma ExitExactly(cfg: Config, idle: IdleWatch, st: PumpState, turns: seq<Turn>, k: nat)
    requires st.watch == FRESH && Ticking(st, turns)
    requires k < |turns| && Reaches(cfg, idle, st, turns, k)
    ensures var s, exit := turns[k].sample, ExitAt(cfg, idle, st, turns, k);
      var stuck := Kills(cfg, Events(st.lastLen, turns[..k + 1]), 2 * k + 1);
      && (exit == Some(Limited) <==> s.transcript.Some? && s.limited)
      && (exit == Some(LoggedOut) <==> s.transcript.None? && s.loggedOut)
      && (exit == Some(AskRespawn) <==> !Early(s) && stuck)
      && (exit == Some(TimedOut) <==> !Early(s) && !stuck && Overdue(idle, st, turns, k))
  {
    var before := turns[..k];
    ReachesBefore(cfg, idle, st, turns, k);
    PumpFollows(cfg, idle, st, before);
    RespawnsWhenStuck(cfg, st, turns, k);
    ExitOfTurn(cfg, idle, Drained(StateAfter(cfg, st, before), turns[k]), turns[k].sample, Grows(st.lastLen, turns, k));
    if idle.window.Some? && idle.window.value > 0 {
      BeatIsLatestGrowth(cfg, idle, st, turns, k);
      IdleWhenSilent(st, turns, k, StateAfter(cfg, st, before).lastBeat, idle.window.value);
    }
  }

  /** A session whose transcript keeps growing, at gaps below the window, is never ended as idle. */
  lemma GrowthKeepsAlive(cfg: Config, idle: IdleWatch, st: PumpState, turns: seq<Turn>)
    requires st.watch == FRESH && Ticking(st, turns)
    requires forall k: nat :: k < |turns| ==> !Overdue(idle, st, turns, k)
    ensures FirstExit(cfg, idle, st, turns) != Some(TimedOut)
  {
    FirstExitAt(cfg, idle, st, turns, TimedOut);
    if k: nat :| EndsAt(cfg, idle, st, turns, k, TimedOut) {
      ExitExactly(cfg, idle, st, turns, k);
    }
  }

  /** Without a window, or with one of no length, no silence is too long; otherwise exactly the window is. */
  lemma MinutesTolerated(minutes: nat, silence: nat)
    ensures IdleWatch.FromMinutes(minutes).Expired(silence) <==> minutes > 0 && silence >= minutes * MINUTE
  {
  }

  // ----- the respawn budget

  datatype DriveEnd = Ended(outcome: Ladder.Outcome) | WantsRespawn

  /** One child, or two when the first asks for a respawn; a second request settles on `Timeout`. */
  method RespawnLoop(drive: nat -> DriveEnd) returns (outcome: Ladder.Outcome, children: nat)
    ensures children == if drive(0).Ended? then 1 else 2
    ensures outcome == if drive(children - 1).Ended? then drive(children - 1).outcome else Ladder.Timeout
  {
    var respawned := false;
    children := 0;
    while true
      invariant children == if respawned then 1 else 0
      invariant respawned ==> drive(0).WantsRespawn?
      decreases !respawned
    {
      var end := drive(children);
      children := children + 1;
      if end.Ended? {
        return end.outcome, children;
      } else if respawned {
        return Ladder.Timeout, children;
      }
      respawned := true;
    }
  }
}
