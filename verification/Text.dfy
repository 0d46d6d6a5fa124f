/** Text helpers: Unicode whitespace, trimming, and the last line of a text. */
module Text {
  predicate IsSpace(c: char) {
    || '\U{9}' <= c <= '\U{D}' || c == ' ' || c == '\U{85}' || c == '\U{A0}' || c == '\U{1680}'
    || '\U{2000}' <= c <= '\U{200A}' || c == '\U{2028}' || c == '\U{2029}' || c == '\U{202F}'
    || c == '\U{205F}' || c == '\U{3000}'
  }

  predicate Blank(s: string) {
    forall i :: 0 <= i < |s| ==> IsSpace(s[i])
  }

  predicate OneLine(s: string) {
    forall i :: 0 <= i < |s| ==> s[i] != '\n'
  }

  /** The first position at or after `k` that holds no whitespace. */
  function ContentStart(s: string, k: nat): (i: nat)
    requires k <= |s|
    ensures k <= i <= |s| && (forall j :: k <= j < i ==> IsSpace(s[j])) && (i < |s| ==> !IsSpace(s[i]))
    decreases |s| - k
  {
    if k == |s| || !IsSpace(s[k]) then k else ContentStart(s, k + 1)
  }

  /** The position after the last non-whitespace before `k`. */
  function ContentEnd(s: string, k: nat): (i: nat)
    requires k <= |s|
    ensures i <= k && (forall j :: i <= j < k ==> IsSpace(s[j])) && (i > 0 ==> !IsSpace(s[i - 1]))
  {
    if k == 0 || !IsSpace(s[k - 1]) then k else ContentEnd(s, k - 1)
  }

  function TrimStart(s: string): string {
    s[ContentStart(s, 0)..]
  }

  function TrimEnd(s: string): string {
    s[..ContentEnd(s, |s|)]
  }

  function Trim(s: string): string {
    TrimStart(TrimEnd(s))
  }

  /** Where the last line before `k` starts: after the last newline. */
  function LineStart(s: string, k: nat): (i: nat)
    requires k <= |s|
    ensures i <= k && (forall j :: i <= j < k ==> s[j] != '\n') && (i > 0 ==> s[i - 1] == '\n')
  {
    if k == 0 || s[k - 1] == '\n' then k else LineStart(s, k - 1)
  }

  function LastLine(s: string): string {
    s[LineStart(s, |s|)..]
  }

  lemma TrimEndIs(a: string, b: string)
    requires Blank(b) && (a == [] || !IsSpace(a[|a| - 1]))
    ensures TrimEnd(a + b) == a
  {
    var s := a + b;
    assert forall j :: |a| <= j < |s| ==> s[j] == b[j - |a|];
    assert a != [] ==> s[|a| - 1] == a[|a| - 1];
  }

  lemma TrimStartIs(a: string, b: string)
    requires Blank(a) && (b == [] || !IsSpace(b[0]))
    ensures TrimStart(a + b) == b
  {
    var s := a + b;
    assert b != [] ==> s[|a|] == b[0];
  }

  lemma TrimIs(a: string, t: string, b: string)
    requires Blank(a) && Blank(b) && t != [] && !IsSpace(t[0]) && !IsSpace(t[|t| - 1])
    ensures Trim(a + t + b) == t
  {
    TrimEndIs(a + t, b);
    TrimStartIs(a, t);
  }

  lemma LastLineIs(a: string, b: string)
    requires OneLine(b) && (a == [] || a[|a| - 1] == '\n')
    ensures LastLine(a + b) == b
  {
    var s := a + b;
    assert forall j :: |a| <= j < |s| ==> s[j] == b[j - |a|];
    assert a != [] ==> s[|a| - 1] == a[|a| - 1];
  }

  lemma TrimBlank(s: string)
    ensures Trim(s) == [] <==> Blank(s)
  {
    var e := TrimEnd(s);
    assert e != [] ==> e[|e| - 1] == s[|e| - 1];
  }

  lemma TrimTrimEnd(s: string)
    ensures Trim(TrimEnd(s)) == Trim(s)
  {
    var e := TrimEnd(s);
    assert e + [] == e;
    TrimEndIs(e, []);
  }
}
