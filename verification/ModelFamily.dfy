/** From a model id to its family: decorations come off the end, in any order, until none is left. */
module ModelFamily {
  import opened Basics
  import opened Text

  const DECORATIONS := ["-extra-high", "-thinking", "-medium", "-xhigh", "-none", "-fast", "-high", "-low", "-max"]

  predicate EndsWith(s: string, t: string) {
    |t| <= |s| && s[|s| - |t|..] == t
  }

  /** The first decoration, in list order from `k`, that ends the id. */
  function FirstFrom(s: string, k: nat): (r: Option<nat>)
    requires k <= |DECORATIONS|
    ensures r.Some? ==> k <= r.value < |DECORATIONS| && EndsWith(s, DECORATIONS[r.value])
    ensures r.Some? ==> forall j :: k <= j < r.value ==> !EndsWith(s, DECORATIONS[j])
    ensures r.None? ==> forall j :: k <= j < |DECORATIONS| ==> !EndsWith(s, DECORATIONS[j])
    decreases |DECORATIONS| - k
  {
    if k == |DECORATIONS| then None else if EndsWith(s, DECORATIONS[k]) then Some(k) else FirstFrom(s, k + 1)
  }

  lemma DecorationsNonEmpty(k: nat)
    requires k < |DECORATIONS|
    ensures |DECORATIONS[k]| > 0
  {
  }

  /** A shorter, non-empty id when a decoration ends this one; else `None`. */
  function StripOne(s: string): (r: Option<string>)
    ensures r.Some? ==> r.value != [] && |r.value| < |s| && r.value <= s
  {
    match FirstFrom(s, 0)
    case None => None
    case Some(k) =>
      DecorationsNonEmpty(k);
      var shorter := s[..|s| - |DECORATIONS[k]|];
      if shorter != [] then Some(shorter) else None
  }

  function Strip(s: string): (r: string)
    ensures r <= s && StripOne(r).None? && (s != [] ==> r != [])
    decreases |s|
  {
    match StripOne(s)
    case None => s
    case Some(shorter) => Strip(shorter)
  }

  function BracketFrom(s: string, k: nat): (i: nat)
    requires k <= |s|
    ensures k <= i <= |s| && (forall j :: k <= j < i ==> s[j] != '[') && (i < |s| ==> s[i] == '[')
    decreases |s| - k
  {
    if k == |s| || s[k] == '[' then k else BracketFrom(s, k + 1)
  }

  predicate NoBracket(s: string) {
    forall i :: 0 <= i < |s| ==> s[i] != '['
  }

  function BeforeBracket(id: string): string {
    id[..BracketFrom(id, 0)]
  }

  function Family(id: string): string {
    Strip(Trim(BeforeBracket(id)))
  }

  /** The stripping loop: it ends, on a prefix of the bare id that no decoration shortens. */
  method FamilyOf(id: string) returns (family: string)
    ensures family == Family(id)
    ensures family <= Trim(BeforeBracket(id)) && StripOne(family).None?
  {
    family := Trim(BeforeBracket(id));
    while true
      invariant Strip(family) == Family(id) && family <= Trim(BeforeBracket(id))
      decreases |family|
    {
      var shorter := StripOne(family);
      if shorter.None? {
        return;
      }
      family := shorter.value;
    }
  }

  // ----- normalising twice

  lemma TrimShape(s: string)
    ensures var t := Trim(s);
      && |t| <= |s| && (t != [] ==> !IsSpace(t[0]) && !IsSpace(t[|t| - 1]))
      && (NoBracket(s) ==> NoBracket(t)) && (|t| == |s| ==> t == s)
  {
    var e := TrimEnd(s);
    var t := TrimStart(e);
    assert e != [] ==> e[|e| - 1] == s[|e| - 1];
    assert forall i :: 0 <= i < |t| ==> t[i] == e[i + |e| - |t|];
    assert forall i :: 0 <= i < |e| ==> e[i] == s[i];
  }

  lemma NoBracketKept(s: string)
    requires NoBracket(s)
    ensures BeforeBracket(s) == s
  {
  }

  lemma FamilyHasNoBracket(id: string)
    ensures NoBracket(Family(id)) && |Family(id)| <= |Trim(BeforeBracket(id))| <= |BeforeBracket(id)| <= |id|
  {
    TrimShape(BeforeBracket(id));
    var t, f := Trim(BeforeBracket(id)), Family(id);
    assert forall i :: 0 <= i < |f| ==> f[i] == t[i];
  }

  lemma TrimFixed(s: string)
    requires s == [] || (!IsSpace(s[0]) && !IsSpace(s[|s| - 1]))
    ensures Trim(s) == s
  {
    if s != [] {
      assert [] + s + [] == s;
      TrimIs([], s, []);
    }
  }

  /** Normalising again changes the family exactly when whitespace stands at one of its ends. */
  lemma FamilyFixedPoint(id: string)
    ensures Family(Family(id)) == Family(id) <==> Trim(Family(id)) == Family(id)
  {
    var f := Family(id);
    FamilyHasNoBracket(id);
    NoBracketKept(f);
    TrimShape(f);
  }

  /** The bare id reads as a base ending in whitespace, with at least one decoration right behind it. */
  ghost predicate SpacedBase(bare: string, base: string, ds: seq<nat>) {
    && AllDecorations(ds) && ds != [] && bare == Decorated(base, ds)
    && base != [] && IsSpace(base[|base| - 1])
  }

  /** Stripping takes off decorations only, one behind the other. */
  lemma {:induction false} StripPeels(s: string) returns (ds: seq<nat>)
    ensures AllDecorations(ds) && s == Decorated(Strip(s), ds)
    decreases |s|
  {
    if StripOne(s).None? {
      ds := [];
    } else {
      var k, shorter := FirstFrom(s, 0).value, StripOne(s).value;
      var rest := StripPeels(shorter);
      ds := rest + [k];
      StripOneSplits(s);
      DecoratedSnoc(Strip(s), rest, k);
    }
  }

  lemma StripOneSplits(s: string)
    requires StripOne(s).Some?
    ensures s == StripOne(s).value + DECORATIONS[FirstFrom(s, 0).value]
  {
    EndSplits(s, DECORATIONS[FirstFrom(s, 0).value]);
  }

  lemma EndSplits(s: string, t: string)
    requires EndsWith(s, t)
    ensures s == s[..|s| - |t|] + t
  {
  }

  lemma DecoratedSnoc(base: string, ds: seq<nat>, k: nat)
    requires AllDecorations(ds) && k < |DECORATIONS|
    ensures AllDecorations(ds + [k]) && Decorated(base, ds + [k]) == Decorated(base, ds) + DECORATIONS[k]
  {
    assert (ds + [k])[..|ds|] == ds;
  }

  /** No decoration ends in whitespace, nor does `-extra`. */
  lemma SpacedIsPlain(base: string)
    requires base != [] && IsSpace(base[|base| - 1])
    ensures StripOne(base).None? && !EndsWith(base, "-extra")
  {
    var none: string := base[..0];
    forall k: nat | k < |DECORATIONS| ensures !EndsWith(base, DECORATIONS[k]) {
      LastOfDecoration(none, k);
      assert none + DECORATIONS[k] == DECORATIONS[k];
      SameLast(base, DECORATIONS[k]);
    }
    SameLast(base, "-extra");
  }

  lemma SameLast(s: string, t: string)
    requires t != []
    ensures EndsWith(s, t) ==> s[|s| - 1] == t[|t| - 1]
  {
    if |t| <= |s| {
      assert s[|s| - |t|..][|t| - 1] == s[|s| - 1];
    }
  }

  /** A spaced base is what the first pass returns, and the second pass trims it. */
  lemma SpacedSurvives(id: string, base: string, ds: seq<nat>)
    requires SpacedBase(Trim(BeforeBracket(id)), base, ds)
    ensures Family(id) == base && Family(Family(id)) != Family(id)
  {
    SpacedIsPlain(base);
    StripDecorated(base, ds);
    TrimShape(base);
    FamilyFixedPoint(id);
  }

  lemma UnspacedIsFixed(id: string)
    requires forall base, ds :: !SpacedBase(Trim(BeforeBracket(id)), base, ds)
    ensures Family(Family(id)) == Family(id)
  {
    var bare, f := Trim(BeforeBracket(id)), Family(id);
    var ds := StripPeels(bare);
    assert !SpacedBase(bare, f, ds);
    TrimShape(BeforeBracket(id));
    UnspacedIsTrimmed(bare, f, ds);
    FamilyFixedPoint(id);
  }

  lemma UnspacedIsTrimmed(bare: string, base: string, ds: seq<nat>)
    requires bare == [] || (!IsSpace(bare[0]) && !IsSpace(bare[|bare| - 1]))
    requires AllDecorations(ds) && bare == Decorated(base, ds) && !SpacedBase(bare, base, ds)
    ensures Trim(base) == base
  {
    DecoratedExtends(base, ds);
    if base != [] {
      assert base[0] == bare[0];
    }
    TrimFixed(base);
  }

  /**
   Normalising twice is normalising once exactly when no whitespace stands
   right before the id's run of decorations.
   */
  lemma IdempotentExactly(id: string)
    ensures Family(Family(id)) == Family(id)
      <==> !exists base, ds :: SpacedBase(Trim(BeforeBracket(id)), base, ds)
  {
    forall base, ds | SpacedBase(Trim(BeforeBracket(id)), base, ds) ensures Family(Family(id)) != Family(id) {
      SpacedSurvives(id, base, ds);
    }
    if !exists base, ds :: SpacedBase(Trim(BeforeBracket(id)), base, ds) {
      UnspacedIsFixed(id);
    }
  }

  predicate Inked(s: string) {
    forall i :: 0 <= i < |s| ==> !IsSpace(s[i])
  }

  /** In particular on every id without whitespace, where the family is a prefix of the id. */
  lemma IdempotentOnIds(id: string)
    requires Inked(id)
    ensures Family(Family(id)) == Family(id) && Family(id) <= id
  {
    var bare := BeforeBracket(id);
    assert Inked(bare) && bare <= id;
    TrimFixed(bare);
    forall base, ds ensures !SpacedBase(bare, base, ds) {
      if AllDecorations(ds) && bare == Decorated(base, ds) {
        DecoratedExtends(base, ds);
        PrefixInked(bare, base);
      }
    }
    IdempotentExactly(id);
  }

  lemma {:induction false} DecoratedExtends(base: string, ds: seq<nat>)
    requires AllDecorations(ds)
    ensures base <= Decorated(base, ds)
  {
    if ds != [] {
      DecoratedExtends(base, ds[..|ds| - 1]);
    }
  }

  lemma PrefixInked(s: string, p: string)
    requires Inked(s) && p <= s
    ensures Inked(p)
  {
    assert forall i :: 0 <= i < |p| ==> p[i] == s[i];
  }

  lemma ShortIsPlain(s: string)
    requires |s| < 4
    ensures StripOne(s).None?
  {
    assert forall k :: 0 <= k < |DECORATIONS| ==> |DECORATIONS[k]| >= 4;
  }

  lemma StripShort(pre: string)
    requires 0 < |pre| < 4
    ensures Strip(pre + DECORATIONS[7]) == pre
  {
    var s := pre + DECORATIONS[7];
    FirstIs(pre, 7);
    assert s[..|s| - |DECORATIONS[7]|] == pre;
    ShortIsPlain(pre);
  }

  lemma PlainFamily(s: string)
    requires NoBracket(s) && s != [] && !IsSpace(s[0]) && !IsSpace(s[|s| - 1])
    ensures Family(s) == Strip(s)
  {
    NoBracketKept(s);
    TrimFixed(s);
  }

  /** Not on every id: the space before the decoration of `x -low` survives the first pass. */
  lemma NotAlwaysIdempotent()
    ensures Family("x -low") == "x " && Family("x ") != "x "
  {
    assert "x -low" == "x " + DECORATIONS[7];
    PlainFamily("x -low");
    StripShort("x ");
    SpaceGoes();
  }

  lemma SpaceGoes()
    ensures Family("x ") != "x "
  {
    assert "x" + " " == "x ";
    TrimEndIs("x", " ");
    NoBracketKept("x ");
    FamilyHasNoBracket("x ");
    assert Trim("x ") == TrimStart("x");
  }

  // ----- decorating and normalising back

  /** Two decorations end the same text only as `-high` inside `-extra-high`. */
  lemma Clash(s: string, i: nat, j: nat)
    requires i < j < |DECORATIONS| && EndsWith(s, DECORATIONS[i]) && EndsWith(s, DECORATIONS[j])
    ensures i == 0 && j == 6
  {
    var d, e := DECORATIONS[i], DECORATIONS[j];
    assert |s| >= |d| >= |e| >= 4;
    assert s[|s| - 1] == s[|s| - |d|..][|d| - 1] == s[|s| - |e|..][|e| - 1];
    if |e| >= 5 {
      assert s[|s| - 5] == s[|s| - |d|..][|d| - 5] == s[|s| - |e|..][|e| - 5];
    }
  }

  /** Behind a base that leaves no `-extra` open, the decoration just appended is the one found. */
  lemma FirstIs(pre: string, j: nat)
    requires j < |DECORATIONS| && (j == 6 ==> !EndsWith(pre, "-extra"))
    ensures FirstFrom(pre + DECORATIONS[j], 0) == Some(j)
  {
    var s := pre + DECORATIONS[j];
    assert EndsWith(s, DECORATIONS[j]);
    var i := FirstFrom(s, 0).value;
    if i < j {
      Clash(s, i, j);
      ExtraHigh(pre);
    }
  }

  lemma ExtraHigh(pre: string)
    ensures EndsWith(pre + "-high", "-extra-high") <==> EndsWith(pre, "-extra")
  {
    var s := pre + "-high";
    assert "-extra-high" == "-extra" + "-high";
    if |pre| >= 6 {
      assert s[|s| - 11..] == pre[|pre| - 6..] + "-high";
      assert s[|s| - 11..][..6] == pre[|pre| - 6..];
      assert "-extra-high"[..6] == "-extra";
    }
  }

  predicate AllDecorations(ds: seq<nat>) {
    forall i :: 0 <= i < |ds| ==> ds[i] < |DECORATIONS|
  }

  /** The base with the decorations of the given list positions appended in order. */
  function Decorated(base: string, ds: seq<nat>): string
    requires AllDecorations(ds)
  {
    if ds == [] then base else Decorated(base, ds[..|ds| - 1]) + DECORATIONS[ds[|ds| - 1]]
  }

  lemma LastOfDecoration(pre: string, j: nat)
    requires j < |DECORATIONS|
    ensures var s := pre + DECORATIONS[j];
      s != [] && !IsSpace(s[|s| - 1]) && !EndsWith(s, "-extra") && NoBracket(DECORATIONS[j])
  {
    var d := DECORATIONS[j];
    var s := pre + d;
    assert |d| > 0 && s[|s| - 1] == d[|d| - 1];
    if |s| >= 6 {
      assert s[|s| - 1] == s[|s| - 6..][5];
    }
  }

  lemma {:induction false} DecoratedShape(base: string, ds: seq<nat>)
    requires AllDecorations(ds) && base != [] && NoBracket(base) && Trim(base) == base && !EndsWith(base, "-extra")
    ensures var s := Decorated(base, ds);
      s != [] && NoBracket(s) && !IsSpace(s[0]) && !IsSpace(s[|s| - 1]) && !EndsWith(s, "-extra")
  {
    TrimShape(base);
    if ds != [] {
      DecoratedShape(base, ds[..|ds| - 1]);
      OneMoreDecoration(Decorated(base, ds[..|ds| - 1]), ds[|ds| - 1]);
    }
  }

  lemma OneMoreDecoration(pre: string, j: nat)
    requires j < |DECORATIONS| && pre != [] && NoBracket(pre)
    ensures var s := pre + DECORATIONS[j];
      s != [] && NoBracket(s) && s[0] == pre[0] && !IsSpace(s[|s| - 1]) && !EndsWith(s, "-extra")
  {
    LastOfDecoration(pre, j);
  }

  lemma {:induction false} NeverExtra(base: string, ds: seq<nat>)
    requires AllDecorations(ds) && base != [] && !EndsWith(base, "-extra")
    ensures Decorated(base, ds) != [] && !EndsWith(Decorated(base, ds), "-extra")
  {
    if ds != [] {
      LastOfDecoration(Decorated(base, ds[..|ds| - 1]), ds[|ds| - 1]);
    }
  }

  lemma {:induction false} StripDecorated(base: string, ds: seq<nat>)
    requires AllDecorations(ds) && base != [] && !EndsWith(base, "-extra") && StripOne(base).None?
    ensures Strip(Decorated(base, ds)) == base
  {
    if ds != [] {
      var before, j := Decorated(base, ds[..|ds| - 1]), ds[|ds| - 1];
      NeverExtra(base, ds[..|ds| - 1]);
      FirstIs(before, j);
      assert (before + DECORATIONS[j])[..|before|] == before;
      StripDecorated(base, ds[..|ds| - 1]);
    }
  }

  predicate Bracket(s: string) {
    s == [] || s[0] == '['
  }

  /** What a base must be for every decorated spelling to normalise back to it. */
  predicate SoundBase(base: string) {
    base != [] && NoBracket(base) && Trim(base) == base && StripOne(base).None? && !EndsWith(base, "-extra")
  }

  lemma BracketCut(s: string, bracket: string)
    requires NoBracket(s) && Bracket(bracket)
    ensures BeforeBracket(s + bracket) == s
  {
    var id := s + bracket;
    assert forall i :: 0 <= i < |s| ==> id[i] == s[i];
    assert bracket != [] ==> id[|s|] == '[';
  }

  lemma DecoratedNormalises(base: string, ds: seq<nat>, bracket: string)
    requires SoundBase(base) && AllDecorations(ds) && Bracket(bracket)
    ensures Family(Decorated(base, ds) + bracket) == base
  {
    assert [] + Decorated(base, ds) + [] == Decorated(base, ds);
    PaddedRoundTrip(base, ds, [], [], bracket);
  }

  lemma BareOfPadded(s: string, left: string, right: string, bracket: string)
    requires NoBracket(s) && s != [] && !IsSpace(s[0]) && !IsSpace(s[|s| - 1])
    requires Bracket(bracket) && Blank(left) && Blank(right)
    ensures Trim(BeforeBracket(left + s + right + bracket)) == s
  {
    PadsHaveNoBracket(s, left, right);
    BracketCut(left + s + right, bracket);
    TrimIs(left, s, right);
  }

  lemma PadsHaveNoBracket(s: string, left: string, right: string)
    requires NoBracket(s) && Blank(left) && Blank(right)
    ensures NoBracket(left + s + right)
  {
  }

  /**
   Any decorations in any order, and a bracket expression, normalise back to
   the base: exactly for the sound bases.
   */
  lemma RoundTripExactly(base: string)
    ensures SoundBase(base) <==>
      forall ds, bracket ::
        AllDecorations(ds) && Bracket(bracket) ==> Family(Decorated(base, ds) + bracket) == base
  {
    if SoundBase(base) {
      forall ds, bracket | AllDecorations(ds) && Bracket(bracket)
        ensures Family(Decorated(base, ds) + bracket) == base
      {
        DecoratedNormalises(base, ds, bracket);
      }
    } else {
      var ds, bracket := UnsoundBase(base);
    }
  }

  /** Whitespace around the decorated id, also before the bracket, makes no difference. */
  lemma PaddedRoundTrip(base: string, ds: seq<nat>, left: string, right: string, bracket: string)
    requires SoundBase(base) && AllDecorations(ds) && Bracket(bracket) && Blank(left) && Blank(right)
    ensures Family(left + Decorated(base, ds) + right + bracket) == base
  {
    DecoratedShape(base, ds);
    StripDecorated(base, ds);
    BareOfPadded(Decorated(base, ds), left, right, bracket);
  }

  lemma UnsoundBase(base: string) returns (ds: seq<nat>, bracket: string)
    requires !SoundBase(base)
    ensures AllDecorations(ds) && Bracket(bracket) && Family(Decorated(base, ds) + bracket) != base
  {
    bracket := [];
    if Family(base) != base {
      ds := [];
      NoDecoration(base);
    } else {
      ds := [6];
      FixedPoint(base);
      HighIsLost(base);
      OneHigh(base);
    }
  }

  lemma NoDecoration(base: string)
    ensures AllDecorations([]) && Bracket([]) && Decorated(base, []) + [] == base
  {
  }

  lemma OneHigh(base: string)
    ensures AllDecorations([6]) && Bracket([]) && Decorated(base, [6]) + [] == base + "-high"
  {
    assert [6][..0] == [];
    assert Decorated(base, [6]) == Decorated(base, []) + DECORATIONS[6];
  }

  lemma FixedPoint(base: string)
    requires Family(base) == base
    ensures NoBracket(base) && Trim(base) == base && StripOne(base).None?
  {
    FamilyHasNoBracket(base);
    NoBracketKept(base);
    TrimShape(base);
  }

  /** `-high` appended to nothing, or to an id ending in `-extra`, does not come off alone. */
  lemma HighIsLost(base: string)
    requires NoBracket(base) && Trim(base) == base && (base == [] || EndsWith(base, "-extra"))
    ensures Family(base + "-high") != base
  {
    HighShape(base);
    if base == [] {
      assert Strip(base + "-high") != [];
    } else {
      ExtraHigh(base);
      ExtraHighGoes(base + "-high");
    }
  }

  lemma HighShape(base: string)
    requires NoBracket(base) && Trim(base) == base
    ensures Family(base + "-high") == Strip(base + "-high")
  {
    TrimShape(base);
    PlainWithHigh(base);
    PlainFamily(base + "-high");
  }

  lemma PlainWithHigh(base: string)
    requires NoBracket(base) && (base == [] || !IsSpace(base[0]))
    ensures var s := base + "-high";
      NoBracket(s) && s != [] && !IsSpace(s[0]) && !IsSpace(s[|s| - 1])
  {
    var s := base + "-high";
    assert s[0] == if base == [] then '-' else base[0];
    assert s[|s| - 1] == 'h';
  }

  lemma ExtraHighGoes(s: string)
    requires EndsWith(s, "-extra-high")
    ensures |Strip(s)| != |s| - 5
  {
    assert EndsWith(s, DECORATIONS[0]) && FirstFrom(s, 0) == Some(0);
    var shorter := s[..|s| - 11];
    if shorter != [] {
      assert StripOne(s) == Some(shorter);
    }
  }
}
