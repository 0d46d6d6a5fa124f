/**
 Following a status file as it grows: bytes come in at arbitrary cuts, the fold
 sees whole lines, and polling often or once makes no difference.
 */
module StatusTail {
  import opened Basics
  import opened AgentState
  import opened StatusFold

  const NEWLINE: Byte := 10

  /** From the bytes of one line to a status line; `None` for text that is not UTF-8 or not a JSON object. */
  type Decoder = Bytes -> Option<StatusLine>

  /** The position of the first newline at or after `k`, or the length when there is none. */
  function NewlineFrom(s: Bytes, k: nat): (i: nat)
    requires k <= |s|
    ensures k <= i <= |s| && (forall j :: k <= j < i ==> s[j] != NEWLINE) && (i < |s| ==> s[i] == NEWLINE)
    decreases |s| - k
  {
    if k == |s| || s[k] == NEWLINE then k else NewlineFrom(s, k + 1)
  }

  /** The bytes after the last newline. */
  function Rest(s: Bytes): Bytes {
    if s == [] || s[|s| - 1] == NEWLINE then [] else Rest(s[..|s| - 1]) + [s[|s| - 1]]
  }

  /** The complete lines, each with its newline. */
  function LinesIn(s: Bytes): seq<Bytes> {
    if s == [] then []
    else
      var before := s[..|s| - 1];
      LinesIn(before) + if s[|s| - 1] == NEWLINE then [Rest(before) + [NEWLINE]] else []
  }

  predicate NoNewline(s: Bytes) {
    forall i :: 0 <= i < |s| ==> s[i] != NEWLINE
  }

  lemma {:induction false} NoNewlineNoLine(s: Bytes)
    requires NoNewline(s)
    ensures LinesIn(s) == [] && Rest(s) == s
  {
    if s != [] {
      NoNewlineNoLine(s[..|s| - 1]);
    }
  }

  lemma {:induction false} RestHasNoNewline(s: Bytes)
    ensures NoNewline(Rest(s))
  {
    if s != [] {
      RestHasNoNewline(s[..|s| - 1]);
    }
  }

  function Concat(lines: seq<Bytes>): Bytes {
    if lines == [] then [] else Concat(lines[..|lines| - 1]) + lines[|lines| - 1]
  }

  predicate CompleteLine(line: Bytes) {
    line != [] && line[|line| - 1] == NEWLINE && NoNewline(line[..|line| - 1])
  }

  /** The lines and the rest are the text cut after each newline: nothing is lost, added or cut elsewhere. */
  lemma LinesAndRest(s: Bytes)
    ensures Concat(LinesIn(s)) + Rest(s) == s && NoNewline(Rest(s))
    ensures forall i :: 0 <= i < |LinesIn(s)| ==> CompleteLine(LinesIn(s)[i])
  {
    LinesJoin(s);
    LinesComplete(s);
    RestHasNoNewline(s);
  }

  lemma {:induction false} LinesJoin(s: Bytes)
    ensures Concat(LinesIn(s)) + Rest(s) == s
  {
    if s != [] {
      var before, last := s[..|s| - 1], s[|s| - 1];
      assert s == before + [last];
      LinesJoin(before);
      if last == NEWLINE {
        JoinAtNewline(before);
      } else {
        JoinAtByte(before, last);
      }
    }
  }

  lemma SplitSnoc(s: Bytes, last: Byte)
    ensures Rest(s + [last]) == if last == NEWLINE then [] else Rest(s) + [last]
    ensures LinesIn(s + [last]) == if last == NEWLINE then LinesIn(s) + [Rest(s) + [NEWLINE]] else LinesIn(s)
  {
    assert (s + [last])[..|s|] == s;
  }

  lemma JoinAtNewline(s: Bytes)
    requires Concat(LinesIn(s)) + Rest(s) == s
    ensures Concat(LinesIn(s + [NEWLINE])) + Rest(s + [NEWLINE]) == s + [NEWLINE]
  {
    SplitSnoc(s, NEWLINE);
    ConcatSnoc(LinesIn(s), Rest(s) + [NEWLINE]);
    Regroup(Concat(LinesIn(s)), Rest(s), NEWLINE);
  }

  lemma JoinAtByte(s: Bytes, last: Byte)
    requires Concat(LinesIn(s)) + Rest(s) == s && last != NEWLINE
    ensures Concat(LinesIn(s + [last])) + Rest(s + [last]) == s + [last]
  {
    SplitSnoc(s, last);
    Regroup(Concat(LinesIn(s)), Rest(s), last);
  }

  lemma Regroup(a: Bytes, b: Bytes, last: Byte)
    ensures a + (b + [last]) == a + b + [last] && a + (b + [last]) + [] == a + b + [last]
  {
  }

  lemma {:induction false} LinesComplete(s: Bytes)
    ensures forall i :: 0 <= i < |LinesIn(s)| ==> CompleteLine(LinesIn(s)[i])
  {
    if s != [] {
      var before := s[..|s| - 1];
      LinesComplete(before);
      RestHasNoNewline(before);
      var line := Rest(before) + [NEWLINE];
      assert line[..|line| - 1] == Rest(before);
    }
  }

  lemma ConcatSnoc(lines: seq<Bytes>, line: Bytes)
    ensures Concat(lines + [line]) == Concat(lines) + line
  {
    assert (lines + [line])[..|lines|] == lines;
  }

  /** Lines cut before and after a read are the lines of the whole, when the rest is carried over. */
  lemma {:induction false} LinesAppend(a: Bytes, b: Bytes)
    ensures LinesIn(a + b) == LinesIn(a) + LinesIn(Rest(a) + b)
    ensures Rest(a + b) == Rest(Rest(a) + b)
  {
    if b == [] {
      assert a + b == a && Rest(a) + b == Rest(a);
      RestHasNoNewline(a);
      NoNewlineNoLine(Rest(a));
    } else {
      var before := b[..|b| - 1];
      assert (a + b)[..|a + b| - 1] == a + before;
      assert (Rest(a) + b)[..|Rest(a) + b| - 1] == Rest(a) + before;
      LinesAppend(a, before);
    }
  }

  lemma SingleLine(line: Bytes)
    requires CompleteLine(line)
    ensures LinesIn(line) == [line] && Rest(line) == []
  {
    var before := line[..|line| - 1];
    NoNewlineNoLine(before);
    assert line == before + [NEWLINE];
  }

  lemma DrainLine(line: Bytes, more: Bytes)
    requires CompleteLine(line)
    ensures LinesIn(line + more) == [line] + LinesIn(more) && Rest(line + more) == Rest(more)
  {
    SingleLine(line);
    LinesAppend(line, more);
    assert [] + more == more;
  }

  /** Draining up to the first newline moves one line from the bytes to the lines. */
  lemma DrainFirst(carry: Bytes, nl: nat, lines: seq<Bytes>)
    requires nl < |carry| && carry[nl] == NEWLINE && forall j :: 0 <= j < nl ==> carry[j] != NEWLINE
    ensures lines + LinesIn(carry) == lines + [carry[..nl + 1]] + LinesIn(carry[nl + 1..])
    ensures Rest(carry) == Rest(carry[nl + 1..])
  {
    TakeLine(carry, nl);
    DrainLine(carry[..nl + 1], carry[nl + 1..]);
    Rejoin(lines, carry[..nl + 1], LinesIn(carry[nl + 1..]));
  }

  lemma TakeLine(carry: Bytes, nl: nat)
    requires nl < |carry| && carry[nl] == NEWLINE && forall j :: 0 <= j < nl ==> carry[j] != NEWLINE
    ensures CompleteLine(carry[..nl + 1]) && carry == carry[..nl + 1] + carry[nl + 1..]
  {
  }

  lemma Rejoin<T>(a: seq<T>, x: T, b: seq<T>)
    ensures a + ([x] + b) == a + [x] + b
  {
  }

  function Parsed(lines: seq<Bytes>, decode: Decoder): seq<StatusLine> {
    if lines == [] then []
    else
      var rest := Parsed(lines[1..], decode);
      match decode(lines[0])
      case None => rest
      case Some(line) => [line] + rest
  }

  lemma {:induction false} ParsedAppend(a: seq<Bytes>, b: seq<Bytes>, decode: Decoder)
    ensures Parsed(a + b, decode) == Parsed(a, decode) + Parsed(b, decode)
  {
    if a == [] {
      assert a + b == b;
    } else {
      assert (a + b)[1..] == a[1..] + b;
      ParsedAppend(a[1..], b, decode);
    }
  }

  datatype TailState = TailState(offset: nat, carry: Bytes, layers: Layers)

  const FRESH := TailState(0, [], START)

  /** What the file holds past `offset`: nothing when it cannot be read or is shorter. */
  function Appended(offset: nat, file: Option<Bytes>): Bytes {
    if file.Some? && offset <= |file.value| then file.value[offset..] else []
  }

  datatype Vendor = Vendor(decode: Decoder, signals: SignalMap)
  {
    function LinesOf(text: Bytes): seq<StatusLine> {
      Parsed(LinesIn(text), decode)
    }

    function Polled(t: TailState, file: Option<Bytes>): TailState {
      var buf := Appended(t.offset, file);
      TailState(t.offset + |buf|, Rest(t.carry + buf), t.layers.Run(LinesOf(t.carry + buf), signals))
    }

    function Seen(t: TailState, file: Option<Bytes>): seq<Observed> {
      t.layers.Emitted(LinesOf(t.carry + Appended(t.offset, file)), signals)
    }

    function PolledAll(t: TailState, files: seq<Option<Bytes>>): TailState {
      if files == [] then t
      else Polled(PolledAll(t, files[..|files| - 1]), files[|files| - 1])
    }

    function SeenAll(t: TailState, files: seq<Option<Bytes>>): seq<Observed> {
      if files == [] then []
      else
        var before := files[..|files| - 1];
        SeenAll(t, before) + Seen(PolledAll(t, before), files[|files| - 1])
    }

    /** The state of a tail that read exactly `text`, in one poll. */
    function After(text: Bytes): TailState {
      TailState(|text|, Rest(text), START.Run(LinesOf(text), signals))
    }
  }

  /** One more poll after `text` was read, with the file grown to `grown`. */
  lemma PollAfter(v: Vendor, text: Bytes, grown: Bytes)
    requires text <= grown
    ensures v.Polled(v.After(text), Some(grown)) == v.After(grown)
    ensures START.Emitted(v.LinesOf(text), v.signals) + v.Seen(v.After(text), Some(grown))
      == START.Emitted(v.LinesOf(grown), v.signals)
  {
    var buf := grown[|text|..];
    assert grown == text + buf;
    LinesAppend(text, buf);
    ParsedAppend(LinesIn(text), LinesIn(Rest(text) + buf), v.decode);
    RunAppend(START, v.LinesOf(text), v.LinesOf(Rest(text) + buf), v.signals);
  }

  /** A poll that fails, or finds the file no longer than what was read, changes nothing. */
  lemma EmptyPoll(v: Vendor, text: Bytes, file: Option<Bytes>)
    requires file.Some? ==> |file.value| <= |text|
    ensures v.Polled(v.After(text), file) == v.After(text) && v.Seen(v.After(text), file) == []
  {
    RestHasNoNewline(text);
    NoNewlineNoLine(Rest(text));
    assert Rest(text) + [] == Rest(text);
  }

  /** The file only ever grows; a poll may also fail to read it. */
  ghost predicate AppendOnly(files: seq<Option<Bytes>>) {
    forall i, j :: 0 <= i < j < |files| && files[i].Some? && files[j].Some? ==> files[i].value <= files[j].value
  }

  /** What the last successful read saw. */
  function LastRead(files: seq<Option<Bytes>>): Bytes {
    if files == [] then []
    else if files[|files| - 1].Some? then files[|files| - 1].value
    else LastRead(files[..|files| - 1])
  }

  lemma {:induction false} LastReadWithin(files: seq<Option<Bytes>>, next: Bytes)
    requires AppendOnly(files + [Some(next)])
    ensures LastRead(files) <= next
  {
    if files != [] {
      var last := |files| - 1;
      var all := files + [Some(next)];
      assert all[last] == files[last] && all[last + 1] == Some(next);
      if files[last].None? {
        var shorter := files[..last] + [Some(next)];
        assert forall i :: 0 <= i < last ==> shorter[i] == all[i];
        LastReadWithin(files[..last], next);
      }
    }
  }

  lemma {:induction false} PollsReadTheFile(v: Vendor, files: seq<Option<Bytes>>)
    requires AppendOnly(files)
    ensures v.PolledAll(FRESH, files) == v.After(LastRead(files))
    ensures v.SeenAll(FRESH, files) == START.Emitted(v.LinesOf(LastRead(files)), v.signals)
  {
    if files != [] {
      var last := |files| - 1;
      var before := files[..last];
      assert files == before + [files[last]];
      PollsReadTheFile(v, before);
      if files[last].Some? {
        LastReadWithin(before, files[last].value);
        PollAfter(v, LastRead(before), files[last].value);
      } else {
        EmptyPoll(v, LastRead(before), None);
      }
    }
  }

  /**
   However the growth of the file is split into polls, the observations and the
   final state are those of one poll at the end.
   */
  lemma IncrementalIsBatch(v: Vendor, files: seq<Option<Bytes>>)
    requires AppendOnly(files)
    ensures var text := LastRead(files);
      && v.PolledAll(FRESH, files) == v.Polled(FRESH, Some(text))
      && v.SeenAll(FRESH, files) == v.Seen(FRESH, Some(text))
      && v.PolledAll(FRESH, files).offset == |text|
      && v.PolledAll(FRESH, files).carry == Rest(text)
  {
    PollsReadTheFile(v, files);
    assert v.After([]) == FRESH;
    PollAfter(v, [], LastRead(files));
  }

  /** The bytes a writer appends for the lines, one after the other. */
  function Written(lines: seq<StatusLine>, encode: StatusLine -> Bytes): Bytes {
    if lines == [] then [] else encode(lines[0]) + [NEWLINE] + Written(lines[1..], encode)
  }

  /** The line is written without a newline in it and reads back as itself. */
  predicate ReadsBack(line: StatusLine, encode: StatusLine -> Bytes, decode: Decoder) {
    NoNewline(encode(line)) && decode(encode(line) + [NEWLINE]) == Some(line)
  }

  lemma {:induction false} WrittenLines(lines: seq<StatusLine>, encode: StatusLine -> Bytes, decode: Decoder,
                                          more: Bytes)
    requires NoNewline(more) && forall i :: 0 <= i < |lines| ==> ReadsBack(lines[i], encode, decode)
    ensures Parsed(LinesIn(Written(lines, encode) + more), decode) == lines
    ensures Rest(Written(lines, encode) + more) == more
  {
    if lines == [] {
      assert [] + more == more;
      NoNewlineNoLine(more);
    } else {
      assert ReadsBack(lines[0], encode, decode);
      var line, rest := encode(lines[0]) + [NEWLINE], Written(lines[1..], encode);
      assert line[..|line| - 1] == encode(lines[0]);
      assert Written(lines, encode) + more == line + (rest + more);
      DrainLine(line, rest + more);
      WrittenLines(lines[1..], encode, decode, more);
      FirstParsed(line, LinesIn(rest + more), decode);
      assert [lines[0]] + lines[1..] == lines;
    }
  }

  lemma FirstParsed(line: Bytes, rest: seq<Bytes>, decode: Decoder)
    ensures Parsed([line] + rest, decode) ==
      (if decode(line).Some? then [decode(line).value] else []) + Parsed(rest, decode)
  {
    assert ([line] + rest)[1..] == rest;
  }

  /**
   What a writer appends, read in any number of polls, shows what its lines
   show; a line that is not yet complete waits.
   */
  lemma WrittenIsSeen(v: Vendor, encode: StatusLine -> Bytes, lines: seq<StatusLine>, more: Bytes,
                      files: seq<Option<Bytes>>)
    requires AppendOnly(files) && LastRead(files) == Written(lines, encode) + more && NoNewline(more)
    requires forall i :: 0 <= i < |lines| ==> ReadsBack(lines[i], encode, v.decode)
    ensures v.SeenAll(FRESH, files) == START.Emitted(lines, v.signals)
    ensures v.PolledAll(FRESH, files).layers == START.Run(lines, v.signals)
    ensures v.PolledAll(FRESH, files).carry == more
  {
    PollsReadTheFile(v, files);
    WrittenLines(lines, encode, v.decode, more);
  }

  /** A complete line that does not decode goes unnoticed wherever it stands. */
  lemma UndecodableSkipped(v: Vendor, before: Bytes, line: Bytes, after: Bytes)
    requires CompleteLine(line) && Rest(before) == [] && v.decode(line).None?
    ensures v.LinesOf(before + line + after) == v.LinesOf(before + after)
  {
    var rest := line + after;
    assert before + line + after == before + rest && [] + after == after && [] + rest == rest;
    LinesAppend(before, line + after);
    LinesAppend(before, after);
    DrainLine(line, after);
    ParsedAppend(LinesIn(before), LinesIn(line + after), v.decode);
    ParsedAppend(LinesIn(before), LinesIn(after), v.decode);
    FirstParsed(line, LinesIn(after), v.decode);
  }

  lemma OneMoreLine(v: Vendor, l: Layers, lines: seq<Bytes>, k: nat)
    requires k < |lines|
    ensures var before, after := Parsed(lines[..k], v.decode), Parsed(lines[..k + 1], v.decode);
      var now := l.Run(before, v.signals);
      match v.decode(lines[k])
      case None => after == before
      case Some(line) =>
        && l.Run(after, v.signals) == now.Step(line, v.signals)
        && l.Emitted(after, v.signals) == l.Emitted(before, v.signals) +
          if now.Emit(line, v.signals).Some? then [now.Emit(line, v.signals).value] else []
  {
    assert lines[..k + 1] == lines[..k] + [lines[k]];
    ParsedAppend(lines[..k], [lines[k]], v.decode);
    match v.decode(lines[k])
    case None =>
    case Some(line) =>
      assert Parsed([lines[k]], v.decode) == [line];
      RunAppend(l, Parsed(lines[..k], v.decode), [line], v.signals);
  }

  class Tail {
    const vendor: Vendor
    var offset: nat
    var carry: Bytes
    const fold: Fold

    ghost predicate Valid()
      reads this, fold
    {
      fold.Valid()
    }

    ghost function Abs(): TailState
      requires Valid()
      reads this, fold
    {
      TailState(offset, carry, fold.Abs())
    }

    constructor (vendor: Vendor)
      ensures Valid() && fresh(fold) && this.vendor == vendor && Abs() == FRESH
    {
      this.vendor := vendor;
      offset, carry := 0, [];
      fold := new Fold();
    }

    /** Reads on and returns what the new lines make of the shown state. */
    method Poll(file: Option<Bytes>) returns (out: seq<Observed>)
      requires Valid()
      modifies this, fold
      ensures Valid() && Abs() == vendor.Polled(old(Abs()), file)
      ensures out == vendor.Seen(old(Abs()), file)
    {
      var lines := ReadLines(file);
      out := FoldLines(lines);
    }

    /** Folds the decodable lines, oldest first, and keeps the news. */
    method FoldLines(lines: seq<Bytes>) returns (out: seq<Observed>)
      requires Valid()
      modifies fold
      ensures Valid() && fold.Abs() == old(fold.Abs()).Run(Parsed(lines, vendor.decode), vendor.signals)
      ensures out == old(fold.Abs()).Emitted(Parsed(lines, vendor.decode), vendor.signals)
    {
      ghost var start := fold.Abs();
      out := [];
      for k := 0 to |lines|
        invariant Valid() && fold.Abs() == start.Run(Parsed(lines[..k], vendor.decode), vendor.signals)
        invariant out == start.Emitted(Parsed(lines[..k], vendor.decode), vendor.signals)
      {
        OneMoreLine(vendor, start, lines, k);
        var parsed := vendor.decode(lines[k]);
        if parsed.Some? {
          var seen := fold.Apply(parsed.value, vendor.signals);
          out := out + if seen.Some? then [seen.value] else [];
        }
      }
      assert lines[..|lines|] == lines;
    }

    /** Splits off all whole lines from the carried and the new bytes, and carries the remainder. */
    method ReadLines(file: Option<Bytes>) returns (lines: seq<Bytes>)
      modifies this
      ensures offset == old(offset) + |Appended(old(offset), file)|
      ensures lines == LinesIn(old(carry) + Appended(old(offset), file))
      ensures carry == Rest(old(carry) + Appended(old(offset), file))
    {
      lines := [];
      var buf := Appended(offset, file);
      offset := offset + |buf|;
      carry := carry + buf;
      ghost var whole := carry;
      while NewlineFrom(carry, 0) < |carry|
        invariant offset == old(offset) + |buf|
        invariant lines + LinesIn(carry) == LinesIn(whole) && Rest(carry) == Rest(whole)
        decreases |carry|
      {
        var nl := NewlineFrom(carry, 0);
        DrainFirst(carry, nl, lines);
        lines := lines + [carry[..nl + 1]];
        carry := carry[nl + 1..];
      }
      NoNewlineNoLine(carry);
    }
  }
}
