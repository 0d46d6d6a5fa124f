/** Token accounting over a transcript: one usage per message id, and the model that dominates. */
module TranscriptUsage {
  import opened Basics

  datatype Usage = Usage(input: nat, output: nat, cacheRead: nat, cacheCreation: nat)
  {
    function Total(): nat {
      input + output + cacheRead + cacheCreation
    }

    function Plus(o: Usage): Usage {
      Usage(input + o.input, output + o.output, cacheRead + o.cacheRead, cacheCreation + o.cacheCreation)
    }
  }

  const ZERO := Usage(0, 0, 0, 0)

  datatype Tiers = Tiers(fiveMinutes: Option<nat>, oneHour: Option<nat>)

  /** The fields read off a `usage` object; a field that is absent or not a number is `None`. */
  datatype UsageBlock = UsageBlock(
    input: Option<nat>,
    output: Option<nat>,
    cacheRead: Option<nat>,
    flatCreation: Option<nat>,
    tiers: Option<Tiers>)

  datatype Message = Message(id: Option<string>, usage: Option<UsageBlock>, model: Option<string>)

  /** What a transcript line parses to; `None` when there is no message in it. */
  type Line = Option<Message>

  /** The flat count wins; the two tiers stand in for it only when it is absent. */
  function CacheCreationTokens(u: UsageBlock): nat {
    match u.flatCreation
    case Some(flat) => flat
    case None => if u.tiers.Some? then u.tiers.value.fiveMinutes.GetOr(0) + u.tiers.value.oneHour.GetOr(0) else 0
  }

  function UsageTokens(u: UsageBlock): Usage {
    Usage(u.input.GetOr(0), u.output.GetOr(0), u.cacheRead.GetOr(0), CacheCreationTokens(u))
  }

  predicate HasUsage(line: Line) {
    line.Some? && line.value.usage.Some?
  }

  function Tokens(line: Line): Usage
    requires HasUsage(line)
  {
    UsageTokens(line.value.usage.value)
  }

  /**
   Raising one count of a block raises that count of its usage and no other;
   the tiers count only when the flat figure is absent, and then like a flat
   figure of their sum.
   */
  lemma BlockReading(u: UsageBlock, k: nat, f: nat, tiers: Option<Tiers>, a: nat, b: nat)
    ensures UsageTokens(UsageBlock(None, None, None, None, None)) == ZERO
    ensures UsageTokens(u.(input := Some(u.input.GetOr(0) + k))) == UsageTokens(u).Plus(Usage(k, 0, 0, 0))
    ensures UsageTokens(u.(output := Some(u.output.GetOr(0) + k))) == UsageTokens(u).Plus(Usage(0, k, 0, 0))
    ensures UsageTokens(u.(cacheRead := Some(u.cacheRead.GetOr(0) + k))) == UsageTokens(u).Plus(Usage(0, 0, k, 0))
    ensures UsageTokens(u.(flatCreation := Some(f + k)))
      == UsageTokens(u.(flatCreation := Some(f))).Plus(Usage(0, 0, 0, k))
    ensures u.flatCreation.Some? ==> UsageTokens(u.(tiers := tiers)) == UsageTokens(u)
    ensures UsageTokens(u.(flatCreation := None, tiers := Some(Tiers(Some(a), Some(b)))))
      == UsageTokens(u.(flatCreation := Some(a + b)))
    ensures UsageTokens(u.(flatCreation := None, tiers := Some(Tiers(Some(a), None))))
      == UsageTokens(u.(flatCreation := None, tiers := Some(Tiers(None, Some(a)))))
      == UsageTokens(u.(flatCreation := Some(a)))
    ensures UsageTokens(u.(flatCreation := None, tiers := None))
      == UsageTokens(u.(flatCreation := None, tiers := Some(Tiers(None, None))))
      == UsageTokens(u.(flatCreation := Some(0)))
  {
  }

  /** Every token of either side counts once in a total, whichever of the four counts it is in. */
  lemma TotalsAdd(u: Usage, v: Usage, k: nat)
    ensures u.Plus(v).Total() == u.Total() + v.Total()
    ensures Usage(k, 0, 0, 0).Total() == Usage(0, k, 0, 0).Total() == k
    ensures Usage(0, 0, k, 0).Total() == Usage(0, 0, 0, k).Total() == k
  {
  }

  // ----- the running ledger

  datatype Ledger = Ledger(seen: set<string>, total: Usage, byModel: map<string, nat>)

  const EMPTY := Ledger({}, ZERO, map[])

  predicate FirstSight(l: Ledger, line: Line) {
    HasUsage(line) && (line.value.id.Some? ==> line.value.id.value !in l.seen)
  }

  function Credit(byModel: map<string, nat>, model: Option<string>, n: nat): map<string, nat> {
    if model.None? then byModel
    else byModel[model.value := n + if model.value in byModel then byModel[model.value] else 0]
  }

  function Add(l: Ledger, line: Line): Ledger {
    if !FirstSight(l, line) then l
    else
      var m := line.value;
      Ledger(
        if m.id.Some? then l.seen + {m.id.value} else l.seen,
        l.total.Plus(Tokens(line)),
        Credit(l.byModel, m.model, Tokens(line).Total()))
  }

  function AddAll(l: Ledger, lines: seq<Line>): Ledger
    decreases |lines|
  {
    if lines == [] then l else AddAll(Add(l, lines[0]), lines[1..])
  }

  lemma {:induction false} AddAllAppend(l: Ledger, a: seq<Line>, b: seq<Line>)
    ensures AddAll(l, a + b) == AddAll(AddAll(l, a), b)
    decreases |a|
  {
    if a == [] {
      assert a + b == b;
    } else {
      assert (a + b)[1..] == a[1..] + b;
      AddAllAppend(Add(l, a[0]), a[1..], b);
    }
  }

  // ----- what the ledger holds

  /** Line `i` carries usage, and no earlier line with usage has its message id. */
  predicate Counted(lines: seq<Line>, i: nat)
    requires i < |lines|
  {
    && HasUsage(lines[i])
    && (lines[i].value.id.Some? ==>
      forall j :: 0 <= j < i && HasUsage(lines[j]) ==> lines[j].value.id != lines[i].value.id)
  }

  function CountedSum(lines: seq<Line>, n: nat): Usage
    requires n <= |lines|
  {
    if n == 0 then ZERO
    else if Counted(lines, n - 1) then CountedSum(lines, n - 1).Plus(Tokens(lines[n - 1]))
    else CountedSum(lines, n - 1)
  }

  predicate CountedFor(lines: seq<Line>, i: nat, model: string)
    requires i < |lines|
  {
    Counted(lines, i) && lines[i].value.model == Some(model)
  }

  function ModelSum(lines: seq<Line>, n: nat, model: string): nat
    requires n <= |lines|
  {
    if n == 0 then 0
    else ModelSum(lines, n - 1, model) + if CountedFor(lines, n - 1, model) then Tokens(lines[n - 1]).Total() else 0
  }

  /** The tokens of the counted lines that name a model. */
  function AttributedSum(lines: seq<Line>, n: nat): nat
    requires n <= |lines|
  {
    if n == 0 then 0
    else if Counted(lines, n - 1) && lines[n - 1].value.model.Some?
      then AttributedSum(lines, n - 1) + Tokens(lines[n - 1]).Total()
      else AttributedSum(lines, n - 1)
  }

  /** A figure read off each counted line's usage block, summed. */
  function FieldSum(lines: seq<Line>, n: nat, field: UsageBlock -> nat): nat
    requires n <= |lines|
  {
    if n == 0 then 0
    else if Counted(lines, n - 1) then FieldSum(lines, n - 1, field) + field(lines[n - 1].value.usage.value)
    else FieldSum(lines, n - 1, field)
  }

  /** The tokens of the counted lines that name no model. */
  function UnattributedSum(lines: seq<Line>, n: nat): nat
    requires n <= |lines|
  {
    if n == 0 then 0
    else if Counted(lines, n - 1) && lines[n - 1].value.model.None?
      then UnattributedSum(lines, n - 1) + Tokens(lines[n - 1]).Total()
      else UnattributedSum(lines, n - 1)
  }

  function TierSum(tiers: Option<Tiers>): nat {
    match tiers
    case None => 0
    case Some(Tiers(a, b)) => a.GetOr(0) + b.GetOr(0)
  }

  /** Tokens are conserved: field by field, and between the lines that name a model and those that do not. */
  lemma {:induction false} TokensConserved(lines: seq<Line>, n: nat)
    requires n <= |lines|
    ensures CountedSum(lines, n) == Usage(
      FieldSum(lines, n, (u: UsageBlock) => u.input.GetOr(0)),
      FieldSum(lines, n, (u: UsageBlock) => u.output.GetOr(0)),
      FieldSum(lines, n, (u: UsageBlock) => u.cacheRead.GetOr(0)),
      FieldSum(lines, n, (u: UsageBlock) => u.flatCreation.GetOr(TierSum(u.tiers))))
    ensures CountedSum(lines, n).Total() == AttributedSum(lines, n) + UnattributedSum(lines, n)
  {
    if n > 0 {
      TokensConserved(lines, n - 1);
    }
  }

  /** The message ids of the lines that carry usage. */
  function IdsIn(lines: seq<Line>, n: nat): (r: set<string>)
    requires n <= |lines|
    ensures forall id :: id in r <==> exists j :: 0 <= j < n && HasUsage(lines[j]) && lines[j].value.id == Some(id)
  {
    if n == 0 then {}
    else if HasUsage(lines[n - 1]) && lines[n - 1].value.id.Some?
      then IdsIn(lines, n - 1) + {lines[n - 1].value.id.value}
      else IdsIn(lines, n - 1)
  }

  /** The models the counted lines name. */
  function ModelsIn(lines: seq<Line>, n: nat): (r: set<string>)
    requires n <= |lines|
    ensures forall m :: m in r <==> exists j: nat :: j < n && CountedFor(lines, j, m)
  {
    if n == 0 then {}
    else if Counted(lines, n - 1) && lines[n - 1].value.model.Some?
      then
        assert CountedFor(lines, n - 1, lines[n - 1].value.model.value);
        ModelsIn(lines, n - 1) + {lines[n - 1].value.model.value}
      else ModelsIn(lines, n - 1)
  }

  ghost predicate LedgerOf(l: Ledger, lines: seq<Line>, n: nat)
    requires n <= |lines|
  {
    && l.seen == IdsIn(lines, n)
    && l.total == CountedSum(lines, n)
    && l.byModel == Tally(lines, n)
    && MapSum(l.byModel) == AttributedSum(lines, n)
  }

  /** Each model named by a counted line, with the tokens of its counted lines. */
  function Tally(lines: seq<Line>, n: nat): map<string, nat>
    requires n <= |lines|
  {
    map m | m in ModelsIn(lines, n) :: ModelSum(lines, n, m)
  }

  lemma {:induction false} NoLineNoSum(lines: seq<Line>, n: nat, m: string)
    requires n <= |lines| && forall j: nat :: j < n ==> !CountedFor(lines, j, m)
    ensures ModelSum(lines, n, m) == 0
  {
    if n > 0 {
      NoLineNoSum(lines, n - 1, m);
    }
  }

  /** One more line: the ledger goes on holding exactly the first sights. */
  lemma LedgerStep(l: Ledger, lines: seq<Line>, n: nat)
    requires n < |lines| && LedgerOf(l, lines, n)
    ensures LedgerOf(Add(l, lines[n]), lines, n + 1)
  {
    var line := lines[n];
    assert FirstSight(l, line) == Counted(lines, n);
    if Counted(lines, n) && line.value.model.Some? {
      CreditSum(l.byModel, line.value.model.value, Tokens(line).Total());
      TallyStep(lines, n);
    } else {
      assert Tally(lines, n + 1) == Tally(lines, n);
    }
  }

  lemma TallyStep(lines: seq<Line>, n: nat)
    requires n < |lines| && Counted(lines, n) && lines[n].value.model.Some?
    ensures Tally(lines, n + 1) == Credit(Tally(lines, n), lines[n].value.model, Tokens(lines[n]).Total())
  {
    var model := lines[n].value.model.value;
    var after := Credit(Tally(lines, n), Some(model), Tokens(lines[n]).Total());
    assert ModelsIn(lines, n + 1) == after.Keys;
    forall m | m in after ensures ModelSum(lines, n + 1, m) == after[m] {
      OneModelStep(lines, n, m);
    }
  }

  lemma OneModelStep(lines: seq<Line>, n: nat, m: string)
    requires n < |lines|
    ensures ModelSum(lines, n + 1, m) ==
      (if m in ModelsIn(lines, n) then ModelSum(lines, n, m) else 0)
      + if CountedFor(lines, n, m) then Tokens(lines[n]).Total() else 0
  {
    if m !in ModelsIn(lines, n) {
      NoLineNoSum(lines, n, m);
    }
  }

  lemma {:induction false} LedgerIsFirstSights(lines: seq<Line>, n: nat)
    requires n <= |lines|
    ensures LedgerOf(AddAll(EMPTY, lines[..n]), lines, n)
  {
    if n > 0 {
      LedgerIsFirstSights(lines, n - 1);
      LedgerStep(AddAll(EMPTY, lines[..n - 1]), lines, n - 1);
      assert lines[..n] == lines[..n - 1] + [lines[n - 1]];
      AddAllAppend(EMPTY, lines[..n - 1], [lines[n - 1]]);
    }
  }

  // ----- sums over a map

  ghost function MapSum<K>(m: map<K, nat>): nat
    decreases m.Keys
  {
    if m.Keys == {} then 0
    else
      var k :| k in m.Keys;
      m[k] + MapSum(m - {k})
  }

  lemma {:induction false} MapSumRemove<K>(m: map<K, nat>, k: K)
    requires k in m
    ensures MapSum(m) == m[k] + MapSum(m - {k})
    decreases m.Keys
  {
    var j :| j in m.Keys && MapSum(m) == m[j] + MapSum(m - {j});
    if j != k {
      MapSumRemove(m - {j}, k);
      MapSumRemove(m - {k}, j);
      assert m - {j} - {k} == m - {k} - {j};
    }
  }

  lemma CreditSum(byModel: map<string, nat>, model: string, n: nat)
    ensures MapSum(Credit(byModel, Some(model), n)) == MapSum(byModel) + n
  {
    var after := Credit(byModel, Some(model), n);
    MapSumRemove(after, model);
    assert after - {model} == byModel - {model};
    if model in byModel {
      MapSumRemove(byModel, model);
    } else {
      assert byModel - {model} == byModel;
    }
  }

  lemma {:induction false} MapSumBound<K>(m: map<K, nat>, most: nat)
    requires forall k :: k in m ==> m[k] <= most
    ensures MapSum(m) <= |m.Keys| * most
    decreases m.Keys
  {
    if m.Keys != {} {
      var k :| k in m.Keys && MapSum(m) == m[k] + MapSum(m - {k});
      var rest := m - {k};
      assert rest.Keys == m.Keys - {k};
      MapSumBound(rest, most);
      OneMore(|rest.Keys|, most);
    }
  }

  lemma OneMore(n: nat, most: nat)
    ensures (n + 1) * most == n * most + most
  {
  }

  // ----- the dominant model

  /** The order of names in a sorted map: by code point, a prefix first. */
  predicate NameLe(a: string, b: string) {
    a == [] || (b != [] && (a[0] < b[0] || (a[0] == b[0] && NameLe(a[1..], b[1..]))))
  }

  /** It is the order of words: a prefix comes first, otherwise the first difference decides. */
  lemma {:induction false} NameLeExactly(a: string, b: string)
    ensures NameLe(a, b) <==> a <= b || exists i :: FirstDiffers(a, b, i) && a[i] < b[i]
  {
    if a != [] && b != [] && a[0] == b[0] {
      NameLeExactly(a[1..], b[1..]);
      assert a == [a[0]] + a[1..] && b == [b[0]] + b[1..];
      forall i: nat ensures FirstDiffers(a[1..], b[1..], i) <==> FirstDiffers(a, b, i + 1) {
        SameFirst(a, b, i);
      }
      if i :| FirstDiffers(a, b, i) && a[i] < b[i] {
        assert FirstDiffers(a[1..], b[1..], i - 1);
      }
    } else if a != [] && b != [] {
      assert FirstDiffers(a, b, 0);
    }
  }

  /** Position `i` is the first at which the names differ. */
  predicate FirstDiffers(a: string, b: string, i: int) {
    0 <= i < |a| && i < |b| && a[i] != b[i] && forall j :: 0 <= j < i ==> a[j] == b[j]
  }

  lemma SameFirst(a: string, b: string, i: nat)
    requires a != [] && b != [] && a[0] == b[0]
    ensures FirstDiffers(a[1..], b[1..], i) <==> FirstDiffers(a, b, i + 1)
  {
    if FirstDiffers(a, b, i + 1) {
      assert forall j :: 0 <= j < i ==> a[1..][j] == a[j + 1] && b[1..][j] == b[j + 1];
    }
    if FirstDiffers(a[1..], b[1..], i) {
      forall j | 0 <= j < i + 1 ensures a[j] == b[j] {
        assert j == 0 || (a[1..][j - 1] == a[j] && b[1..][j - 1] == b[j]);
      }
    }
  }

  lemma {:induction false} NameLeTotal(a: string, b: string)
    ensures NameLe(a, b) || NameLe(b, a)
    ensures NameLe(a, b) && NameLe(b, a) ==> a == b
  {
    if a != [] && b != [] && a[0] == b[0] {
      NameLeTotal(a[1..], b[1..]);
      assert a == [a[0]] + a[1..] && b == [b[0]] + b[1..];
    }
  }

  lemma {:induction false} NameLeTransitive(a: string, b: string, c: string)
    requires NameLe(a, b) && NameLe(b, c)
    ensures NameLe(a, c)
  {
    if a != [] && a[0] == b[0] == c[0] {
      NameLeTransitive(a[1..], b[1..], c[1..]);
    }
  }

  /** `m` has the largest tally, and is the greatest name among those that share it. */
  ghost predicate Dominates(byModel: map<string, nat>, m: string) {
    && m in byModel
    && forall k :: k in byModel ==> byModel[k] < byModel[m] || (byModel[k] == byModel[m] && NameLe(k, m))
  }

  lemma DominatesUnique(byModel: map<string, nat>, a: string, b: string)
    requires Dominates(byModel, a) && Dominates(byModel, b)
    ensures a == b
  {
    NameLeTotal(a, b);
  }

  lemma {:induction false} LeastName(names: set<string>) returns (least: string)
    requires |names| > 0
    ensures least in names && forall k :: k in names ==> NameLe(least, k)
  {
    var x := AnyName(names);
    var rest := names - {x};
    NameLeTotal(x, x);
    assert forall k :: k in names ==> k == x || k in rest;
    if |rest| == 0 {
      least := x;
    } else {
      var y := LeastName(rest);
      NameLeTotal(x, y);
      least := if NameLe(x, y) then x else y;
      forall k | k in rest ensures NameLe(least, k) {
        NameLeTransitive(least, y, k) by { NameLeTotal(y, y); }
      }
    }
  }

  lemma AnyName<K>(names: set<K>) returns (k: K)
    requires |names| > 0
    ensures k in names
  {
    k :| k in names;
  }

  /** The last of the largest tallies, reading the names in order. */
  method DominantModel(byModel: map<string, nat>) returns (model: Option<string>)
    ensures model.None? ==> byModel == map[]
    ensures model.Some? ==> Dominates(byModel, model.value)
  {
    model := None;
    var rest := byModel.Keys;
    while |rest| > 0
      invariant rest <= byModel.Keys
      invariant model.None? ==> rest == byModel.Keys
      invariant model.Some? ==> model.value in byModel && model.value !in rest
      invariant model.Some? ==> forall k :: k in rest ==> NameLe(model.value, k)
      invariant model.Some? ==> forall k :: k in byModel && k !in rest ==>
        byModel[k] < byModel[model.value] || (byModel[k] == byModel[model.value] && NameLe(k, model.value))
      decreases |rest|
    {
      ghost var least := LeastName(rest);
      var k :| k in rest && forall j :: j in rest ==> NameLe(k, j);
      NameLeTotal(k, k);
      if model.None? || byModel[k] >= byModel[model.value] {
        forall j | j in byModel && j !in rest && model.Some? && NameLe(j, model.value) ensures NameLe(j, k) {
          NameLeTransitive(j, model.value, k);
        }
        model := Some(k);
      }
      rest := rest - {k};
    }
  }

  /**
   Usage equals the first usage of each message id plus every id-less usage;
   the model dominates the counted lines, and its tally times the number of
   models covers all that is attributed.
   */
  method ParseTranscriptUsage(lines: seq<Line>) returns (total: Usage, model: Option<string>)
    ensures total == CountedSum(lines, |lines|)
    ensures model.None? <==> Tally(lines, |lines|) == map[]
    ensures model.Some? ==> Dominates(Tally(lines, |lines|), model.value)
    ensures model.Some? ==>
      AttributedSum(lines, |lines|) <= |Tally(lines, |lines|).Keys| * Tally(lines, |lines|)[model.value]
  {
    total := ZERO;
    var seen: set<string> := {};
    var byModel: map<string, nat> := map[];
    for k := 0 to |lines|
      invariant LedgerOf(Ledger(seen, total, byModel), lines, k)
    {
      LedgerStep(Ledger(seen, total, byModel), lines, k);
      if HasUsage(lines[k]) {
        var message := lines[k].value;
        if message.id.None? || message.id.value !in seen {
          if message.id.Some? {
            seen := seen + {message.id.value};
          }
          var tokens := UsageTokens(message.usage.value);
          total := total.Plus(tokens);
          byModel := Credit(byModel, message.model, tokens.Total());
        }
      }
    }
    model := DominantModel(byModel);
    if model.Some? {
      MapSumBound(byModel, byModel[model.value]);
    }
  }

  // ----- replays and reordering

  /** A line with no usage, or whose message id was already counted, changes nothing wherever it is inserted. */
  lemma ReplayIgnored(l: Ledger, before: seq<Line>, line: Line, after: seq<Line>)
    requires HasUsage(line) ==>
      line.value.id.Some? && exists i :: 0 <= i < |before| && HasUsage(before[i]) && before[i].value.id == line.value.id
    ensures AddAll(l, before + [line] + after) == AddAll(l, before + after)
  {
    AddAllAppend(l, before + [line], after);
    AddAllAppend(l, before, [line]);
    AddAllAppend(l, before, after);
    if HasUsage(line) {
      var i :| 0 <= i < |before| && HasUsage(before[i]) && before[i].value.id == line.value.id;
      SeenStays(l, before, i);
    }
    assert AddAll(AddAll(l, before), [line]) == Add(AddAll(l, before), line);
  }

  lemma {:induction false} SeenStays(l: Ledger, lines: seq<Line>, i: nat)
    requires i < |lines| && HasUsage(lines[i]) && lines[i].value.id.Some?
    ensures lines[i].value.id.value in AddAll(l, lines).seen
    decreases |lines|
  {
    if i > 0 {
      SeenStays(Add(l, lines[0]), lines[1..], i - 1);
    } else {
      SeenKept(Add(l, lines[0]), lines[1..], lines[0].value.id.value);
    }
  }

  lemma {:induction false} SeenKept(l: Ledger, lines: seq<Line>, id: string)
    requires id in l.seen
    ensures id in AddAll(l, lines).seen
    decreases |lines|
  {
    if lines != [] {
      SeenKept(Add(l, lines[0]), lines[1..], id);
    }
  }

  /** Two lines with usage and the same message id carry the same usage and model. */
  predicate Agree(x: Line, y: Line) {
    HasUsage(x) && HasUsage(y) && x.value.id.Some? && x.value.id == y.value.id ==>
      x.value.usage == y.value.usage && x.value.model == y.value.model
  }

  lemma CreditCommutes(m: map<string, nat>, a: Option<string>, x: nat, b: Option<string>, y: nat)
    ensures Credit(Credit(m, a, x), b, y) == Credit(Credit(m, b, y), a, x)
  {
  }

  lemma AddCommutes(l: Ledger, x: Line, y: Line)
    requires Agree(x, y)
    ensures Add(Add(l, x), y) == Add(Add(l, y), x)
  {
    if FirstSight(l, x) && FirstSight(l, y) {
      CreditCommutes(l.byModel, x.value.model, Tokens(x).Total(), y.value.model, Tokens(y).Total());
    }
  }

  lemma {:induction false} MoveToFront(l: Ledger, before: seq<Line>, x: Line, after: seq<Line>)
    requires forall i :: 0 <= i < |before| ==> Agree(before[i], x)
    ensures AddAll(l, before + [x] + after) == AddAll(l, [x] + before + after)
    decreases |before|
  {
    if before == [] {
      assert before + [x] + after == [x] + before + after;
    } else {
      var y, rest := before[0], before[1..];
      assert (before + [x] + after)[1..] == rest + [x] + after;
      MoveToFront(Add(l, y), rest, x, after);
      AddCommutes(l, y, x);
      assert ([x] + rest + after)[1..] == rest + after;
      assert ([x] + before + after)[1..] == before + after && (before + after)[1..] == rest + after;
    }
  }

  ghost predicate AllAgree(a: seq<Line>) {
    forall i, j :: 0 <= i < |a| && 0 <= j < |a| ==> Agree(a[i], a[j])
  }

  lemma AgreeInside(a: seq<Line>, x: Line, y: Line)
    requires AllAgree(a) && x in a && y in a
    ensures Agree(x, y)
  {
  }

  lemma RemoveAt<T>(s: seq<T>, i: nat)
    requires i < |s|
    ensures multiset(s[..i] + s[i + 1..]) == multiset(s) - multiset{s[i]}
  {
    assert s == s[..i] + [s[i]] + s[i + 1..];
  }

  /** Where the first element of `a` stands in a rearrangement of `a`, and what is left on both sides. */
  lemma TakeOut<T>(a: seq<T>, b: seq<T>) returns (i: nat)
    requires a != [] && multiset(a) == multiset(b)
    ensures i < |b| && b[i] == a[0] && multiset(a[1..]) == multiset(b[..i] + b[i + 1..])
  {
    RemoveFirst(a);
    i := IndexIn(b, a[0]);
    RemoveAt(b, i);
  }

  lemma IndexIn<T>(s: seq<T>, x: T) returns (i: nat)
    requires x in multiset(s)
    ensures i < |s| && s[i] == x
  {
    i :| 0 <= i < |s| && s[i] == x;
  }

  lemma RemoveFirst<T>(s: seq<T>)
    requires s != []
    ensures multiset(s[1..]) == multiset(s) - multiset{s[0]} && s[0] in multiset(s)
  {
    assert s == [s[0]] + s[1..];
  }

  lemma AgreeAcross(a: seq<Line>, b: seq<Line>, i: nat)
    requires multiset(a) == multiset(b) && AllAgree(a) && a != [] && i < |b|
    ensures Agree(b[i], a[0])
  {
    assert b[i] in multiset(a);
    AgreeInside(a, b[i], a[0]);
  }

  /** When equal ids carry equal usage and model, the order of the lines does not matter. */
  lemma {:induction false} OrderDoesNotMatter(l: Ledger, a: seq<Line>, b: seq<Line>)
    requires multiset(a) == multiset(b) && AllAgree(a)
    ensures AddAll(l, a) == AddAll(l, b)
    decreases |a|
  {
    if a == [] {
      assert |multiset(a)| == |multiset(b)|;
    } else {
      var i := TakeOut(a, b);
      var before, after := b[..i], b[i + 1..];
      assert b == before + [a[0]] + after;
      forall j | 0 <= j < |before| ensures Agree(before[j], a[0]) { AgreeAcross(a, b, j); }
      MoveToFront(l, before, a[0], after);
      assert ([a[0]] + before + after)[1..] == before + after;
      OrderDoesNotMatter(Add(l, a[0]), a[1..], before + after);
    }
  }

  /**
   What the accounting returns for the two transcripts is the same: the total,
   and the one model that may be chosen.
   */
  ghost predicate SameResult(a: seq<Line>, b: seq<Line>) {
    && CountedSum(a, |a|) == CountedSum(b, |b|) && Tally(a, |a|) == Tally(b, |b|)
    && forall m, m' :: Dominates(Tally(a, |a|), m) && Dominates(Tally(b, |b|), m') ==> m == m'
  }

  lemma SameLedgerSameResult(a: seq<Line>, b: seq<Line>)
    requires AddAll(EMPTY, a) == AddAll(EMPTY, b)
    ensures SameResult(a, b)
  {
    assert a[..|a|] == a && b[..|b|] == b;
    LedgerIsFirstSights(a, |a|);
    LedgerIsFirstSights(b, |b|);
    forall m, m' | Dominates(Tally(a, |a|), m) && Dominates(Tally(b, |b|), m') ensures m == m' {
      DominatesUnique(Tally(a, |a|), m, m');
    }
  }

  /** Reordering a transcript whose equal ids agree changes neither the total nor the chosen model. */
  lemma ReorderedTranscript(a: seq<Line>, b: seq<Line>)
    requires multiset(a) == multiset(b) && AllAgree(a)
    ensures SameResult(a, b)
  {
    OrderDoesNotMatter(EMPTY, a, b);
    SameLedgerSameResult(a, b);
  }

  /** Nor does replaying a line whose message id was already counted, or adding one without usage. */
  lemma ReplayedTranscript(before: seq<Line>, line: Line, after: seq<Line>)
    requires HasUsage(line) ==>
      line.value.id.Some? && exists i :: 0 <= i < |before| && HasUsage(before[i]) && before[i].value.id == line.value.id
    ensures SameResult(before + [line] + after, before + after)
  {
    ReplayIgnored(EMPTY, before, line, after);
    SameLedgerSameResult(before + [line] + after, before + after);
  }
}
