/**
 The degraded-API clocks: the watch over a live terminal and its headless
 sibling. Both are read as functions of the whole history of feeds and polls.
 Times are milliseconds; one poll reads the clock once.
 */
module ApiWatch {
  import opened Basics

  const MAX_BUF := 32 * 1024

  /** The banner detector and the two thresholds. */
  datatype Config = Config(banner: Bytes -> bool, ping: nat, kill: nat)

  datatype Action = Nothing | Degraded | Recovered | Respawn

  /** The time since `since`; none has passed when the clock reads earlier. */
  function Elapsed(now: nat, since: nat): nat {
    if now >= since then now - since else 0
  }

  lemma ElapsedAtLeast(now: nat, since: nat, d: nat)
    ensures Elapsed(now, since) >= d <==> d == 0 || now >= since + d
  {
  }

  /** `r` is the end of `s`: all of it, or its last 32 KiB when it is longer. */
  predicate IsWindow(r: Bytes, s: Bytes) {
    |r| == (if |s| <= 32 * 1024 then |s| else 32 * 1024) && r == s[|s| - |r|..]
  }

  /** The most recent `MAX_BUF` bytes. */
  function LastBytes(s: Bytes): (r: Bytes)
    ensures IsWindow(r, s)
  {
    if |s| > MAX_BUF then s[|s| - MAX_BUF..] else s
  }

  datatype Watch = Watch(buf: Bytes, since: Option<nat>, emitted: bool)

  const FRESH := Watch([], None, false)

  function ApiState(cfg: Config, w: Watch, now: nat, advanced: bool): Watch {
    if advanced then FRESH
    else if !cfg.banner(w.buf) then w.(since := None)
    else w.(
      since := Some(w.since.GetOr(now)),
      emitted := w.emitted || ApiAnswer(cfg, w, now, advanced) == Degraded)
  }

  function ApiAnswer(cfg: Config, w: Watch, now: nat, advanced: bool): Action {
    if advanced then (if w.emitted then Recovered else Nothing)
    else if !cfg.banner(w.buf) then Nothing
    else
      var elapsed := Elapsed(now, w.since.GetOr(now));
      if elapsed >= cfg.kill then Respawn
      else if elapsed >= cfg.ping && !w.emitted then Degraded
      else Nothing
  }

  class TerminalWatch {
    const cfg: Config
    var buf: Bytes
    var degradedSince: Option<nat>
    var degradedEmitted: bool

    ghost function Abs(): Watch
      reads this
    {
      Watch(buf, degradedSince, degradedEmitted)
    }

    constructor (cfg: Config)
      ensures this.cfg == cfg && Abs() == FRESH
    {
      this.cfg := cfg;
      buf, degradedSince, degradedEmitted := [], None, false;
    }

    /** New bytes push old ones out of the window. */
    method Feed(chunk: Bytes)
      modifies this
      ensures Abs() == old(Abs()).(buf := LastBytes(old(buf) + chunk)) && IsWindow(buf, old(buf) + chunk)
    {
      buf := buf + chunk;
      if |buf| > MAX_BUF {
        var cut := |buf| - MAX_BUF;
        buf := buf[cut..];
      }
    }

    method Poll(now: nat, advanced: bool) returns (action: Action)
      modifies this
      ensures Abs() == ApiState(cfg, old(Abs()), now, advanced)
      ensures action == ApiAnswer(cfg, old(Abs()), now, advanced)
    {
      if advanced {
        var was := degradedEmitted;
        degradedSince, degradedEmitted, buf := None, false, [];
        return if was then Recovered else Nothing;
      }
      if !cfg.banner(buf) {
        degradedSince := None;
        return Nothing;
      }
      if degradedSince.None? {
        degradedSince := Some(now);
      }
      var elapsed := Elapsed(now, degradedSince.value);
      if elapsed >= cfg.kill {
        return Respawn;
      } else if elapsed >= cfg.ping && !degradedEmitted {
        degradedEmitted := true;
        return Degraded;
      } else {
        return Nothing;
      }
    }
  }

  // ----- histories

  datatype Event = Feed(chunk: Bytes) | Poll(now: nat, advanced: bool)

  type History = seq<Event>

  function Next(cfg: Config, w: Watch, e: Event): Watch {
    match e
    case Feed(chunk) => w.(buf := LastBytes(w.buf + chunk))
    case Poll(now, advanced) => ApiState(cfg, w, now, advanced)
  }

  function After(cfg: Config, h: History): Watch {
    if h == [] then FRESH else Next(cfg, After(cfg, h[..|h| - 1]), h[|h| - 1])
  }

  /** What the watch answers at event `i`. */
  function AnswerAt(cfg: Config, h: History, i: nat): Action
    requires i < |h|
  {
    match h[i]
    case Feed(_) => Nothing
    case Poll(now, advanced) => ApiAnswer(cfg, After(cfg, h[..i]), now, advanced)
  }

  // ----- the inspected bytes

  function Chunks(h: History): Bytes {
    if h == [] then []
    else Chunks(h[..|h| - 1]) + if h[|h| - 1].Feed? then h[|h| - 1].chunk else []
  }

  predicate Advance(e: Event) {
    e.Poll? && e.advanced
  }

  lemma LastBytesAppend(a: Bytes, b: Bytes)
    ensures LastBytes(LastBytes(a) + b) == LastBytes(a + b)
  {
    if |a| > MAX_BUF {
      var cut := |a| - MAX_BUF;
      assert LastBytes(a) + b == (a + b)[cut..];
    }
  }

  /**
   The watch always inspects the end of what was fed since the last transcript
   advance, up to `MAX_BUF` bytes, however it was chunked.
   */
  lemma BufferIsRecentBytes(cfg: Config, earlier: History, recent: History)
    requires earlier == [] || Advance(earlier[|earlier| - 1])
    requires forall i :: 0 <= i < |recent| ==> !Advance(recent[i])
    ensures IsWindow(After(cfg, earlier + recent).buf, Chunks(recent))
  {
    BufferIsLastBytes(cfg, earlier, recent);
  }

  lemma {:induction false} BufferIsLastBytes(cfg: Config, earlier: History, recent: History)
    requires earlier == [] || Advance(earlier[|earlier| - 1])
    requires forall i :: 0 <= i < |recent| ==> !Advance(recent[i])
    ensures After(cfg, earlier + recent).buf == LastBytes(Chunks(recent))
  {
    var h := earlier + recent;
    if recent == [] {
      assert h == earlier;
    } else {
      var before, last := recent[..|recent| - 1], recent[|recent| - 1];
      BufferIsLastBytes(cfg, earlier, before);
      assert h == (earlier + before) + [last];
      AfterSnoc(cfg, earlier + before, last);
      BufferStep(cfg, After(cfg, earlier + before), Chunks(before), last);
    }
  }

  lemma AfterSnoc(cfg: Config, h: History, e: Event)
    ensures After(cfg, h + [e]) == Next(cfg, After(cfg, h), e)
  {
    assert (h + [e])[..|h|] == h;
  }

  lemma BufferStep(cfg: Config, w: Watch, fed: Bytes, e: Event)
    requires w.buf == LastBytes(fed) && !Advance(e)
    ensures Next(cfg, w, e).buf == LastBytes(fed + if e.Feed? then e.chunk else [])
  {
    if e.Feed? {
      LastBytesAppend(fed, e.chunk);
    } else {
      assert fed + [] == fed;
    }
  }

  // ----- degraded and recovered alternate

  /** A `Degraded` with no `Recovered` after it. */
  predicate Outstanding(cfg: Config, h: History) {
    h != [] && (
      var last := AnswerAt(cfg, h, |h| - 1);
      last == Degraded || (last != Recovered && Outstanding(cfg, h[..|h| - 1])))
  }

  lemma {:induction false} EmittedIsOutstanding(cfg: Config, h: History)
    ensures After(cfg, h).emitted == Outstanding(cfg, h)
  {
    if h != [] {
      EmittedIsOutstanding(cfg, h[..|h| - 1]);
    }
  }

  /** Over every history `Degraded` and `Recovered` alternate, starting with `Degraded`. */
  lemma Alternation(cfg: Config, h: History, i: nat)
    requires i < |h|
    ensures AnswerAt(cfg, h, i) == Degraded ==> !Outstanding(cfg, h[..i])
    ensures AnswerAt(cfg, h, i) == Recovered <==> Advance(h[i]) && Outstanding(cfg, h[..i])
  {
    EmittedIsOutstanding(cfg, h[..i]);
  }

  // ----- respawn

  /** Poll `i` finds the banner and no transcript growth. */
  predicate BannerPoll(cfg: Config, h: History, i: nat)
    requires i < |h|
  {
    h[i].Poll? && !h[i].advanced && cfg.banner(After(cfg, h[..i]).buf)
  }

  /** Every poll from `i` to `j` finds the banner. */
  ghost predicate Unbroken(cfg: Config, h: History, i: nat, j: nat)
    requires i <= j < |h|
  {
    BannerPoll(cfg, h, i) && forall k :: i <= k <= j && h[k].Poll? ==> BannerPoll(cfg, h, k)
  }

  /** A stretch begins at `i`: the poll before it, if any, found no banner. */
  ghost predicate Begins(cfg: Config, h: History, i: nat)
    requires i < |h|
  {
    BannerPoll(cfg, h, i) && forall p :: LastPollBefore(h, i, p) ==> !BannerPoll(cfg, h, p)
  }

  ghost predicate LastPollBefore(h: History, i: nat, p: nat)
    requires i <= |h|
  {
    p < i && h[p].Poll? && forall k :: p < k < i ==> h[k].Feed?
  }

  /** The poll that began the stretch still open at the end of `h`. */
  function StretchAt(cfg: Config, h: History): (r: Option<nat>)
    ensures r.Some? ==> r.value < |h|
  {
    if h == [] then None
    else
      var last := |h| - 1;
      if h[last].Feed? then StretchAt(cfg, h[..last])
      else if !BannerPoll(cfg, h, last) then None
      else Some(StretchAt(cfg, h[..last]).GetOr(last))
  }

  lemma {:induction false} ClockIsStretch(cfg: Config, h: History)
    ensures match StretchAt(cfg, h)
      case None => After(cfg, h).since.None?
      case Some(i) => h[i].Poll? && After(cfg, h).since == Some(h[i].now)
  {
    if h != [] {
      ClockIsStretch(cfg, h[..|h| - 1]);
    }
  }

  lemma SamePolls(cfg: Config, h: History, i: nat)
    requires 0 < |h| && i < |h| - 1
    ensures BannerPoll(cfg, h[..|h| - 1], i) == BannerPoll(cfg, h, i)
  {
    assert h[..|h| - 1][..i] == h[..i];
  }

  /** The last poll, if any, found no banner. */
  ghost predicate LastPollBare(cfg: Config, h: History) {
    forall p: nat :: LastPollBefore(h, |h|, p) ==> !BannerPoll(cfg, h, p)
  }

  lemma SameBegins(cfg: Config, h: History, i: nat)
    requires 0 < |h| && i < |h| - 1
    ensures Begins(cfg, h[..|h| - 1], i) <==> Begins(cfg, h, i)
  {
    var g := h[..|h| - 1];
    forall k: nat | k <= i ensures BannerPoll(cfg, g, k) == BannerPoll(cfg, h, k) { SamePolls(cfg, h, k); }
    assert forall p: nat :: LastPollBefore(g, i, p) <==> LastPollBefore(h, i, p);
  }

  lemma UnbrokenStep(cfg: Config, h: History, i: nat)
    requires 0 < |h| && i < |h| - 1
    ensures var last := |h| - 1;
      Unbroken(cfg, h, i, last) <==>
        Unbroken(cfg, h[..last], i, last - 1) && (h[last].Poll? ==> BannerPoll(cfg, h, last))
  {
    var g := h[..|h| - 1];
    forall k: nat | k < |g| ensures BannerPoll(cfg, g, k) == BannerPoll(cfg, h, k) { SamePolls(cfg, h, k); }
    assert forall k: nat :: k < |g| ==> g[k] == h[k];
  }

  lemma BareAfterFeed(cfg: Config, h: History)
    requires 0 < |h| && h[|h| - 1].Feed?
    ensures LastPollBare(cfg, h) <==> LastPollBare(cfg, h[..|h| - 1])
  {
    var g := h[..|h| - 1];
    assert forall p: nat :: LastPollBefore(h, |h|, p) <==> LastPollBefore(g, |g|, p);
    forall k: nat | k < |g| ensures BannerPoll(cfg, g, k) == BannerPoll(cfg, h, k) { SamePolls(cfg, h, k); }
  }

  lemma BareAfterPoll(cfg: Config, h: History)
    requires 0 < |h| && h[|h| - 1].Poll?
    ensures LastPollBare(cfg, h) <==> !BannerPoll(cfg, h, |h| - 1)
  {
    assert forall p: nat :: LastPollBefore(h, |h|, p) <==> p == |h| - 1;
  }

  lemma BeginsLast(cfg: Config, h: History)
    requires 0 < |h|
    ensures Begins(cfg, h, |h| - 1) <==> BannerPoll(cfg, h, |h| - 1) && LastPollBare(cfg, h[..|h| - 1])
  {
    var last := |h| - 1;
    var g := h[..last];
    assert forall p: nat :: LastPollBefore(h, last, p) <==> LastPollBefore(g, last, p);
    forall k: nat | k < last ensures BannerPoll(cfg, g, k) == BannerPoll(cfg, h, k) { SamePolls(cfg, h, k); }
  }

  /** An open stretch is unbroken to the end and began at its index; without one the last poll found no banner. */
  lemma {:induction false} StretchMeans(cfg: Config, h: History)
    ensures match StretchAt(cfg, h)
      case None => LastPollBare(cfg, h)
      case Some(i) => Begins(cfg, h, i) && Unbroken(cfg, h, i, |h| - 1)
  {
    if h != [] {
      var last := |h| - 1;
      var open := StretchAt(cfg, h[..last]);
      StretchMeans(cfg, h[..last]);
      BeginsLast(cfg, h);
      if h[last].Feed? {
        BareAfterFeed(cfg, h);
      } else {
        BareAfterPoll(cfg, h);
      }
      if open.Some? {
        SameBegins(cfg, h, open.value);
        UnbrokenStep(cfg, h, open.value);
      }
    }
  }

  lemma {:induction false} StretchUnique(cfg: Config, h: History, i: nat)
    requires i < |h| && Begins(cfg, h, i) && Unbroken(cfg, h, i, |h| - 1)
    ensures StretchAt(cfg, h) == Some(i)
  {
    var last := |h| - 1;
    if i < last {
      SameBegins(cfg, h, i);
      UnbrokenStep(cfg, h, i);
      StretchUnique(cfg, h[..last], i);
    } else {
      BeginsLast(cfg, h);
      StretchMeans(cfg, h[..last]);
      if StretchAt(cfg, h[..last]).Some? {
        NotBareInside(cfg, h[..last], StretchAt(cfg, h[..last]).value);
      }
    }
  }

  /** An open stretch ends in a banner poll. */
  lemma NotBareInside(cfg: Config, h: History, i: nat)
    requires LastPollBare(cfg, h) && i < |h|
    ensures !Unbroken(cfg, h, i, |h| - 1)
  {
    if h[i].Poll? {
      var p := LatestPoll(h, i);
    }
  }

  lemma LatestPoll(h: History, i: nat) returns (p: nat)
    requires i < |h| && h[i].Poll?
    ensures i <= p && LastPollBefore(h, |h|, p)
  {
    p := |h| - 1;
    while h[p].Feed?
      invariant i <= p < |h| && forall k :: p < k < |h| ==> h[k].Feed?
      decreases p
    {
      p := p - 1;
    }
  }

  /** A stretch of banner polls from its beginning `i` to poll `j`. */
  ghost predicate Stretch(cfg: Config, h: History, i: nat, j: nat)
    requires j < |h|
  {
    i <= j && h[j].Poll? && Begins(cfg, h, i) && Unbroken(cfg, h, i, j)
  }

  /** A banner poll ends exactly one stretch, and the clock measures from its beginning. */
  lemma StretchOf(cfg: Config, h: History, j: nat) returns (i: nat)
    requires j < |h| && BannerPoll(cfg, h, j)
    ensures Stretch(cfg, h, i, j) && forall k: nat :: Stretch(cfg, h, k, j) ==> k == i
    ensures After(cfg, h[..j]).since.GetOr(h[j].now) == h[i].now && StretchAt(cfg, h[..j]).GetOr(j) == i
  {
    var g := h[..j + 1];
    OpenAtBanner(cfg, h, j);
    StretchMeans(cfg, g);
    ClockIsStretch(cfg, h[..j]);
    i := StretchAt(cfg, g).value;
    SamePast(cfg, h, i, j);
    forall k: nat | Stretch(cfg, h, k, j) ensures k == i {
      SamePast(cfg, h, k, j);
      StretchUnique(cfg, g, k);
    }
  }

  lemma OpenAtBanner(cfg: Config, h: History, j: nat)
    requires j < |h| && BannerPoll(cfg, h, j)
    ensures StretchAt(cfg, h[..j + 1]) == Some(StretchAt(cfg, h[..j]).GetOr(j))
  {
    assert h[..j + 1][..j] == h[..j];
  }

  /** Whether a stretch ends at `j` does not depend on what comes later. */
  lemma SamePast(cfg: Config, h: History, i: nat, j: nat)
    requires j < |h|
    ensures Stretch(cfg, h[..j + 1], i, j) <==> Stretch(cfg, h, i, j)
  {
    var g := h[..j + 1];
    forall k: nat | k <= j ensures BannerPoll(cfg, g, k) == BannerPoll(cfg, h, k) { assert g[..k] == h[..k]; }
    assert forall p: nat :: i <= j ==> (LastPollBefore(g, i, p) <==> LastPollBefore(h, i, p));
  }

  /** `Respawn` is answered exactly at the polls that end an unbroken no-advance banner stretch at least `kill` long. */
  lemma RespawnExactly(cfg: Config, h: History, j: nat)
    requires j < |h| && h[j].Poll?
    ensures AnswerAt(cfg, h, j) == Respawn <==>
      exists i: nat :: Stretch(cfg, h, i, j) && Elapsed(h[j].now, h[i].now) >= cfg.kill
  {
    if BannerPoll(cfg, h, j) {
      var i := StretchOf(cfg, h, j);
    }
  }

  /**
   `Degraded` is answered exactly when none is outstanding and the stretch is
   at least `ping` but not yet `kill` long.
   */
  lemma DegradedExactly(cfg: Config, h: History, j: nat)
    requires j < |h| && h[j].Poll?
    ensures AnswerAt(cfg, h, j) == Degraded <==>
      && !Outstanding(cfg, h[..j])
      && exists i: nat :: Stretch(cfg, h, i, j) && cfg.ping <= Elapsed(h[j].now, h[i].now) < cfg.kill
  {
    EmittedIsOutstanding(cfg, h[..j]);
    if BannerPoll(cfg, h, j) {
      var i := StretchOf(cfg, h, j);
    }
  }

  /** Poll `j` ends a stretch at least `ping` but not yet `kill` long. */
  ghost predicate Pings(cfg: Config, h: History, j: nat) {
    j < |h| && exists i: nat :: Stretch(cfg, h, i, j) && cfg.ping <= Elapsed(h[j].now, h[i].now) < cfg.kill
  }

  /** Poll `j` ends a stretch at least `kill` long. */
  ghost predicate Kills(cfg: Config, h: History, j: nat) {
    j < |h| && exists i: nat :: Stretch(cfg, h, i, j) && Elapsed(h[j].now, h[i].now) >= cfg.kill
  }

  /** Since poll `j` pinged, the transcript has not advanced. */
  ghost predicate PingedSince(cfg: Config, h: History, j: nat) {
    Pings(cfg, h, j) && NoAdvanceAfter(h, j)
  }

  predicate NoAdvanceAfter(h: History, j: nat) {
    forall k :: j < k < |h| ==> !Advance(h[k])
  }

  lemma NoAdvanceStep(h: History, j: nat)
    requires h != [] && j < |h| - 1
    ensures NoAdvanceAfter(h, j) <==> !Advance(h[|h| - 1]) && NoAdvanceAfter(h[..|h| - 1], j)
  {
    assert forall k :: 0 <= k < |h| - 1 ==> h[..|h| - 1][k] == h[k];
  }

  lemma SameStretch(cfg: Config, h: History, i: nat, j: nat)
    requires h != [] && j < |h| - 1
    ensures Stretch(cfg, h[..|h| - 1], i, j) <==> Stretch(cfg, h, i, j)
  {
    var g := h[..|h| - 1];
    forall k: nat | k <= j ensures BannerPoll(cfg, g, k) == BannerPoll(cfg, h, k) { SamePolls(cfg, h, k); }
    assert forall k: nat, p: nat :: k <= j ==> (LastPollBefore(g, k, p) <==> LastPollBefore(h, k, p));
  }

  lemma SamePings(cfg: Config, h: History, j: nat)
    requires h != [] && j < |h| - 1
    ensures Pings(cfg, h[..|h| - 1], j) <==> Pings(cfg, h, j)
  {
    forall i: nat ensures Stretch(cfg, h[..|h| - 1], i, j) <==> Stretch(cfg, h, i, j) { SameStretch(cfg, h, i, j); }
  }

  /** Some poll ended a stretch in the ping window, and nothing advanced since. */
  ghost predicate Unrecovered(cfg: Config, h: History) {
    exists j: nat :: PingedSince(cfg, h, j)
  }

  lemma PingsAreQuiet(cfg: Config, h: History, j: nat)
    requires Pings(cfg, h, j)
    ensures h[j].Poll? && !Advance(h[j])
  {
  }

  lemma PingedEarlier(cfg: Config, h: History, j: nat)
    requires h != [] && j < |h| - 1
    ensures PingedSince(cfg, h, j) <==> !Advance(h[|h| - 1]) && PingedSince(cfg, h[..|h| - 1], j)
  {
    SamePings(cfg, h, j);
    NoAdvanceStep(h, j);
  }

  /** One more event: it pings itself, or advances and clears, or leaves an earlier ping as it was. */
  lemma UnrecoveredStep(cfg: Config, h: History)
    requires h != []
    ensures Unrecovered(cfg, h) <==>
      Pings(cfg, h, |h| - 1) || (!Advance(h[|h| - 1]) && Unrecovered(cfg, h[..|h| - 1]))
  {
    var last := |h| - 1;
    if Pings(cfg, h, last) {
      assert PingedSince(cfg, h, last);
    }
    forall j: nat | j < last
      ensures PingedSince(cfg, h, j) <==> !Advance(h[last]) && PingedSince(cfg, h[..last], j)
    {
      PingedEarlier(cfg, h, j);
    }
  }

  /** A degrade is outstanding exactly when some poll ended a stretch in the ping window and nothing advanced since. */
  lemma {:induction false} OutstandingExactly(cfg: Config, h: History)
    ensures Outstanding(cfg, h) <==> Unrecovered(cfg, h)
  {
    if h != [] {
      var last := |h| - 1;
      OutstandingExactly(cfg, h[..last]);
      UnrecoveredStep(cfg, h);
      Alternation(cfg, h, last);
      if Pings(cfg, h, last) {
        PingsAreQuiet(cfg, h, last);
      }
      if h[last].Poll? {
        DegradedIsPing(cfg, h, last);
      }
    }
  }

  lemma DegradedIsPing(cfg: Config, h: History, j: nat)
    requires j < |h| && h[j].Poll?
    ensures AnswerAt(cfg, h, j) == Degraded <==> !Outstanding(cfg, h[..j]) && Pings(cfg, h, j)
  {
    DegradedExactly(cfg, h, j);
  }

  // ----- the headless clock

  datatype Clock = Clock(since: Option<nat>, emitted: bool)

  function HeadlessState(ping: nat, c: Clock, now: nat, degraded: bool): Clock {
    if !degraded then Clock(None, false)
    else Clock(Some(c.since.GetOr(now)), c.emitted || Elapsed(now, c.since.GetOr(now)) >= ping)
  }

  function HeadlessAnswer(ping: nat, c: Clock, now: nat, degraded: bool): (a: Action)
    ensures a != Respawn
  {
    if !degraded then (if c.emitted then Recovered else Nothing)
    else if Elapsed(now, c.since.GetOr(now)) >= ping && !c.emitted then Degraded
    else Nothing
  }

  class DegradedWatch {
    const ping: nat
    var degradedSince: Option<nat>
    var emitted: bool

    ghost function Abs(): Clock
      reads this
    {
      Clock(degradedSince, emitted)
    }

    constructor (ping: nat)
      ensures this.ping == ping && Abs() == Clock(None, false)
    {
      this.ping := ping;
      degradedSince, emitted := None, false;
    }

    method Poll(now: nat, degraded: bool) returns (action: Action)
      modifies this
      ensures Abs() == HeadlessState(ping, old(Abs()), now, degraded)
      ensures action == HeadlessAnswer(ping, old(Abs()), now, degraded)
    {
      if !degraded {
        degradedSince := None;
        if emitted {
          emitted := false;
          return Recovered;
        }
        return Nothing;
      }
      if degradedSince.None? {
        degradedSince := Some(now);
      }
      if Elapsed(now, degradedSince.value) >= ping && !emitted {
        emitted := true;
        return Degraded;
      }
      return Nothing;
    }
  }

  /** The headless clock over the same history: a poll is degraded when it finds the banner and no growth. */
  function HeadlessAfter(cfg: Config, h: History): Clock {
    if h == [] then Clock(None, false)
    else
      var last := |h| - 1;
      var c := HeadlessAfter(cfg, h[..last]);
      if h[last].Feed? then c else HeadlessState(cfg.ping, c, h[last].now, BannerPoll(cfg, h, last))
  }

  function HeadlessAt(cfg: Config, h: History, i: nat): Action
    requires i < |h|
  {
    if h[i].Feed? then Nothing
    else HeadlessAnswer(cfg.ping, HeadlessAfter(cfg, h[..i]), h[i].now, BannerPoll(cfg, h, i))
  }

  /** In the stretch still open at the end of `h`, some poll came at least `ping` after the first. */
  ghost predicate HeadlessPinged(cfg: Config, h: History) {
    StretchAt(cfg, h).Some? && exists k: nat :: Late(cfg, h, StretchAt(cfg, h).value, k)
  }

  /** Poll `k` comes at least `ping` after poll `i`. */
  ghost predicate Late(cfg: Config, h: History, i: nat, k: nat) {
    i <= k < |h| && h[i].Poll? && h[k].Poll? && Elapsed(h[k].now, h[i].now) >= cfg.ping
  }

  lemma {:induction false} HeadlessClockIsStretch(cfg: Config, h: History)
    ensures match StretchAt(cfg, h)
      case None => HeadlessAfter(cfg, h).since.None?
      case Some(i) => h[i].Poll? && HeadlessAfter(cfg, h).since == Some(h[i].now)
  {
    if h != [] {
      HeadlessClockIsStretch(cfg, h[..|h| - 1]);
    }
  }

  lemma {:induction false} HeadlessEmittedIsPinged(cfg: Config, h: History)
    ensures HeadlessAfter(cfg, h).emitted <==> HeadlessPinged(cfg, h)
  {
    if h != [] {
      var last := |h| - 1;
      var g := h[..last];
      HeadlessEmittedIsPinged(cfg, g);
      HeadlessClockIsStretch(cfg, g);
      forall i: nat, k: nat | k < last ensures Late(cfg, h, i, k) <==> Late(cfg, g, i, k) {}
      if StretchAt(cfg, h).Some? {
        var i := StretchAt(cfg, h).value;
        HeadlessClockIsStretch(cfg, h);
        assert h[last].Poll? ==> (Late(cfg, h, i, last) <==> Elapsed(h[last].now, h[i].now) >= cfg.ping);
      }
    }
  }

  /**
   The headless clock, told by stretches: `Degraded` at the first poll of a
   stretch that comes `ping` after its beginning, `Recovered` at the first poll
   without banner after a stretch that got so far.
   */
  lemma HeadlessExactly(cfg: Config, h: History, j: nat)
    requires j < |h| && h[j].Poll?
    ensures HeadlessAt(cfg, h, j) == Degraded <==>
      exists i: nat :: Stretch(cfg, h, i, j) && Late(cfg, h, i, j) && forall k: nat :: k < j ==> !Late(cfg, h, i, k)
    ensures HeadlessAt(cfg, h, j) == Recovered <==> !BannerPoll(cfg, h, j) && HeadlessPinged(cfg, h[..j])
  {
    var g := h[..j];
    HeadlessEmittedIsPinged(cfg, g);
    HeadlessClockIsStretch(cfg, g);
    forall i: nat, k: nat | k < j ensures Late(cfg, h, i, k) <==> Late(cfg, g, i, k) {}
    if BannerPoll(cfg, h, j) {
      var i := StretchOf(cfg, h, j);
      assert HeadlessAfter(cfg, g).since.GetOr(h[j].now) == h[i].now;
      assert HeadlessPinged(cfg, g) <==> exists k: nat :: k < j && Late(cfg, h, i, k);
    }
  }

  /**
   Where the two clocks part: the banner is gone without growth although a
   stretch in the ping window went before, or a stretch has reached `kill`.
   */
  ghost predicate Parts(cfg: Config, h: History, i: nat)
    requires i < |h|
  {
    || (h[i].Poll? && !h[i].advanced && !BannerPoll(cfg, h, i) && Unrecovered(cfg, h[..i]))
    || Kills(cfg, h, i)
  }

  /** The same, read off the terminal watch. */
  lemma PartsInside(cfg: Config, h: History, i: nat)
    requires i < |h|
    ensures Parts(cfg, h, i) <==>
      h[i].Poll? && (
        || (!h[i].advanced && !BannerPoll(cfg, h, i) && After(cfg, h[..i]).emitted)
        || AnswerAt(cfg, h, i) == Respawn)
  {
    EmittedIsOutstanding(cfg, h[..i]);
    OutstandingExactly(cfg, h[..i]);
    if h[i].Poll? {
      RespawnExactly(cfg, h, i);
    }
  }

  lemma SameParting(cfg: Config, h: History, n: nat, i: nat)
    requires i < n <= |h|
    ensures Parts(cfg, h[..n], i) <==> Parts(cfg, h, i)
  {
    assert h[..n][..i] == h[..i];
    PartsInside(cfg, h[..n], i);
    PartsInside(cfg, h, i);
  }

  lemma {:induction false} SameClock(cfg: Config, h: History)
    requires forall i: nat :: i < |h| ==> !Parts(cfg, h, i)
    ensures HeadlessAfter(cfg, h) == Clock(After(cfg, h).since, After(cfg, h).emitted)
  {
    if h != [] {
      var last := |h| - 1;
      var g := h[..last];
      forall i: nat | i < last ensures !Parts(cfg, g, i) {
        SameParting(cfg, h, last, i);
        assert !Parts(cfg, h, i);
      }
      SameClock(cfg, g);
      assert !Parts(cfg, h, last);
      PartsInside(cfg, h, last);
    }
  }

  lemma SameAnswer(cfg: Config, h: History, i: nat)
    requires i < |h| && forall k: nat :: k < i ==> !Parts(cfg, h, k)
    ensures AnswerAt(cfg, h, i) == HeadlessAt(cfg, h, i) <==> !Parts(cfg, h, i)
  {
    var g := h[..i];
    forall k: nat | k < i ensures !Parts(cfg, g, k) {
      SameParting(cfg, h, i, k);
      assert !Parts(cfg, h, k);
    }
    SameClock(cfg, g);
    PartsInside(cfg, h, i);
  }

  /** The terminal watch and the headless clock answer alike at every poll exactly when they never part. */
  lemma ClocksAgreeExactly(cfg: Config, h: History)
    ensures (forall i: nat :: i < |h| ==> AnswerAt(cfg, h, i) == HeadlessAt(cfg, h, i))
      <==> (forall i: nat :: i < |h| ==> !Parts(cfg, h, i))
  {
    if forall i: nat :: i < |h| ==> !Parts(cfg, h, i) {
      forall i: nat | i < |h| ensures AnswerAt(cfg, h, i) == HeadlessAt(cfg, h, i) { SameAnswer(cfg, h, i); }
    } else {
      var i: nat :| i < |h| && Parts(cfg, h, i);
      var first := FirstParting(cfg, h, i);
      SameAnswer(cfg, h, first);
    }
  }

  lemma {:induction false} FirstParting(cfg: Config, h: History, i: nat) returns (first: nat)
    requires i < |h| && Parts(cfg, h, i)
    ensures first < |h| && Parts(cfg, h, first) && forall k: nat :: k < first ==> !Parts(cfg, h, k)
    decreases i
  {
    first := i;
    if k: nat :| k < i && Parts(cfg, h, k) {
      first := FirstParting(cfg, h, k);
    }
  }

  /**
   In particular they agree when each poll either advances the transcript or
   shows the banner and no stretch reaches `kill`.
   */
  lemma ClocksAgree(cfg: Config, h: History, i: nat)
    requires forall k: nat :: k < |h| && h[k].Poll? ==> h[k].advanced || BannerPoll(cfg, h, k)
    requires forall a: nat, k: nat :: k < |h| && Stretch(cfg, h, a, k) ==> Elapsed(h[k].now, h[a].now) < cfg.kill
    requires i < |h|
    ensures AnswerAt(cfg, h, i) == HeadlessAt(cfg, h, i)
  {
    ClocksAgreeExactly(cfg, h);
  }

  /**
   A banner that pings and is then pushed out by other bytes parts them, for
   every detector and every `ping` below `kill`.
   */
  lemma VanishedBannerParts(cfg: Config, banner: Bytes, noise: Bytes)
    requires cfg.ping < cfg.kill && |banner| <= MAX_BUF && cfg.banner(banner) && !cfg.banner(LastBytes(banner + noise))
    ensures var h := [Feed(banner), Poll(0, false), Poll(cfg.ping, false), Feed(noise), Poll(cfg.ping, false)];
      AnswerAt(cfg, h, 4) == Nothing && HeadlessAt(cfg, h, 4) == Recovered
  {
    var h := [Feed(banner), Poll(0, false), Poll(cfg.ping, false), Feed(noise), Poll(cfg.ping, false)];
    assert [] + banner == banner;
    FirstEvents(cfg, h);
    var w1 := Watch(banner, None, false);
    assert After(cfg, h[..1]) == w1 && HeadlessAfter(cfg, h[..1]) == Clock(None, false);
    assert After(cfg, h[..2]).buf == banner && After(cfg, h[..2]).since == Some(0);
    assert HeadlessAfter(cfg, h[..2]) == Clock(Some(0), cfg.ping == 0);
    assert After(cfg, h[..3]) == Watch(banner, Some(0), true) && HeadlessAfter(cfg, h[..3]) == Clock(Some(0), true);
    assert After(cfg, h[..4]) == Watch(LastBytes(banner + noise), Some(0), true);
    assert HeadlessAfter(cfg, h[..4]) == Clock(Some(0), true);
  }

  /** The state before each of the first events is one step behind. */
  lemma FirstEvents(cfg: Config, h: History)
    requires |h| >= 4
    ensures After(cfg, h[..1]) == Next(cfg, FRESH, h[0])
    ensures forall k: nat :: 1 <= k <= 4 ==> h[..k][..k - 1] == h[..k - 1] && h[..k][k - 1] == h[k - 1]
  {
    assert h[..1][..0] == [];
  }
}
