/**
 The order a dependency relation asks for, stated without the algorithm: the
 members that reach no cycle come first, in a topological order; the rest
 follow; and of all such listings the lexicographically least one is meant.
 */
module QueueOrder {
  type Deps = map<int, set<int>>

  ghost function Elems(s: seq<int>): set<int> {
    set x | x in s
  }

  ghost predicate NoDup(s: seq<int>) {
    forall i, j :: 0 <= i < j < |s| ==> s[i] != s[j]
  }

  ghost predicate Closed(deps: Deps) {
    forall x :: x in deps ==> deps[x] <= deps.Keys
  }

  ghost predicate DependsOn(deps: Deps, x: int, d: int) {
    x in deps && d in deps[x]
  }

  ghost predicate Chain(deps: Deps, c: seq<int>) {
    forall i, j :: 0 <= i < |c| && j == i + 1 < |c| ==> DependsOn(deps, c[i], c[j])
  }

  /** Following dependencies from `x` can come back to a member already passed. */
  ghost predicate ReachesCycle(deps: Deps, x: int) {
    exists c :: |c| > 1 && c[0] == x && Chain(deps, c) && c[|c| - 1] in c[..|c| - 1]
  }

  ghost predicate Acyclic(deps: Deps) {
    !exists c :: |c| > 1 && Chain(deps, c) && c[0] == c[|c| - 1]
  }

  /** The well-founded part: the members from which no cycle is reached. */
  ghost function Settled(deps: Deps): set<int> {
    set x | x in deps && !ReachesCycle(deps, x)
  }

  ghost predicate Topological(deps: Deps, s: seq<int>) {
    && NoDup(s)
    && forall i :: 0 <= i < |s| ==> s[i] in deps && deps[s[i]] <= Elems(s[..i])
  }

  /** A listing of every member: a topological order of the settled ones, then the others in any order. */
  ghost predicate Settles(deps: Deps, t: seq<int>) {
    && NoDup(t) && Elems(t) == deps.Keys
    && |Settled(deps)| <= |t|
    && Elems(t[..|Settled(deps)|]) == Settled(deps)
    && Topological(deps, t[..|Settled(deps)|])
  }

  ghost predicate LexLe(a: seq<int>, b: seq<int>) {
    a == b || exists i :: 0 <= i < |a| && i < |b| && a[..i] == b[..i] && a[i] < b[i]
  }

  ghost predicate IsQueueOrder(deps: Deps, t: seq<int>) {
    Settles(deps, t) && forall u :: Settles(deps, u) ==> LexLe(t, u)
  }

  // ----- cardinality of duplicate-free listings

  lemma {:induction false} NoDupCount(s: seq<int>)
    requires NoDup(s)
    ensures |Elems(s)| == |s|
  {
    if s != [] {
      var last := |s| - 1;
      NoDupCount(s[..last]);
      assert Elems(s) == Elems(s[..last]) + {s[last]};
    }
  }

  lemma SubsetCount(a: set<int>, b: set<int>)
    requires a <= b
    ensures |a| <= |b|
  {
    assert b == a + (b - a);
  }

  // ----- topological listings never meet a cycle

  /**
   Along a chain that starts at position `i` of a topological listing every
   later member sits at an earlier position.
   */
  lemma {:induction false} ChainDescends(deps: Deps, s: seq<int>, c: seq<int>, i: nat) returns (k: nat)
    requires Topological(deps, s) && Chain(deps, c) && |c| > 0
    requires i < |s| && c[0] == s[i]
    ensures k <= i && s[k] == c[|c| - 1] && (|c| > 1 ==> k < i)
  {
    if |c| == 1 {
      k := i;
    } else {
      var last := |c| - 1;
      var j := ChainDescends(deps, s, c[..last], i);
      assert DependsOn(deps, c[last - 1], c[last]);
      assert c[last] in Elems(s[..j]);
      k :| 0 <= k < j && s[k] == c[last];
    }
  }

  lemma ChainSuffix(deps: Deps, c: seq<int>, a: nat)
    requires Chain(deps, c) && a < |c|
    ensures Chain(deps, c[a..])
  {
    var w := c[a..];
    assert forall i, j :: 0 <= i < |w| && j == i + 1 < |w| ==> w[i] == c[a + i] && w[j] == c[a + j];
  }

  lemma NoReturn(deps: Deps, s: seq<int>, c: seq<int>, a: nat)
    requires Topological(deps, s) && Chain(deps, c) && a < |c| - 1 && c[0] in s
    ensures c[a] != c[|c| - 1]
  {
    var i :| 0 <= i < |s| && s[i] == c[0];
    var j := ChainDescends(deps, s, c[..a + 1], i);
    ChainSuffix(deps, c, a);
    var k := ChainDescends(deps, s, c[a..], j);
  }

  lemma TopologicalSettled(deps: Deps, s: seq<int>, x: int)
    requires Topological(deps, s) && x in s && x in deps
    ensures x in Settled(deps)
  {
    forall c | |c| > 1 && c[0] == x && Chain(deps, c) ensures c[|c| - 1] !in c[..|c| - 1] {
      forall a | 0 <= a < |c| - 1 ensures c[a] != c[|c| - 1] {
        NoReturn(deps, s, c, a);
      }
    }
  }

  // ----- a set in which every member waits for another reaches a cycle

  ghost predicate WaitsInside(deps: Deps, members: set<int>, y: int) {
    exists d :: d in members && DependsOn(deps, y, d)
  }

  ghost predicate Stuck(deps: Deps, members: set<int>) {
    forall y {:trigger WaitsInside(deps, members, y)} :: y in members ==> WaitsInside(deps, members, y)
  }

  lemma StuckChain(deps: Deps, members: set<int>, x: int, n: nat) returns (c: seq<int>)
    requires Stuck(deps, members) && x in members && n > 0
    ensures |c| == n && c[0] == x && Chain(deps, c) && Elems(c) <= members
  {
    c := [x];
    while |c| < n
      invariant 0 < |c| <= n && c[0] == x && Chain(deps, c) && Elems(c) <= members
    {
      var y := c[|c| - 1];
      assert y in Elems(c);
      assert WaitsInside(deps, members, y);
      var d :| d in members && DependsOn(deps, y, d);
      c := c + [d];
    }
  }

  lemma StuckReachesCycle(deps: Deps, members: set<int>, x: int)
    requires Stuck(deps, members) && x in members
    ensures ReachesCycle(deps, x)
  {
    var c := StuckChain(deps, members, x, |members| + 1);
    if NoDup(c) {
      NoDupCount(c);
      SubsetCount(Elems(c), members);
    } else {
      var a, b :| 0 <= a < b < |c| && c[a] == c[b];
      var w := c[..b + 1];
      assert w[a] == w[|w| - 1] && w[a] == w[..|w| - 1][a];
    }
  }

  lemma CycleOnChain(deps: Deps, x: int)
    requires ReachesCycle(deps, x)
    ensures !Acyclic(deps)
  {
    var c :| |c| > 1 && c[0] == x && Chain(deps, c) && c[|c| - 1] in c[..|c| - 1];
    var a :| 0 <= a < |c| - 1 && c[a] == c[|c| - 1];
    var w := c[a..];
    ChainSuffix(deps, c, a);
    assert |w| > 1 && Chain(deps, w) && w[0] == w[|w| - 1];
  }

  /** No cycle anywhere means every member is settled, and conversely. */
  lemma AcyclicSettled(deps: Deps)
    requires Closed(deps)
    ensures Acyclic(deps) <==> Settled(deps) == deps.Keys
  {
    forall x | ReachesCycle(deps, x) ensures !Acyclic(deps) { CycleOnChain(deps, x); }
    if !Acyclic(deps) {
      var c :| |c| > 1 && Chain(deps, c) && c[0] == c[|c| - 1];
      assert c[..|c| - 1][0] == c[0];
      assert DependsOn(deps, c[0], c[1]);
      assert ReachesCycle(deps, c[0]);
    }
  }

  // ----- the greedy listing is the least one

  /** Each position holds the smallest member whose dependencies all stand before it. */
  ghost predicate Greedy(deps: Deps, s: seq<int>) {
    forall i, y :: 0 <= i < |s| && y in deps && y !in Elems(s[..i]) && deps[y] <= Elems(s[..i]) ==> s[i] <= y
  }

  ghost predicate Ascending(s: seq<int>) {
    forall i, j :: 0 <= i < j < |s| ==> s[i] < s[j]
  }

  ghost predicate Waits(deps: Deps, placed: set<int>, y: int) {
    exists d :: DependsOn(deps, y, d) && d !in placed
  }

  ghost predicate NoneReady(deps: Deps, placed: set<int>) {
    forall y {:trigger Waits(deps, placed, y)} :: y in deps && y !in placed ==> Waits(deps, placed, y)
  }

  /** A topological listing that cannot be extended holds exactly the settled members. */
  lemma ExhaustedIsSettled(deps: Deps, s: seq<int>)
    requires Closed(deps) && Topological(deps, s) && NoneReady(deps, Elems(s))
    ensures Elems(s) == Settled(deps) && |s| == |Settled(deps)|
  {
    forall x | x in s ensures x in Settled(deps) { TopologicalSettled(deps, s, x); }
    var rest := deps.Keys - Elems(s);
    forall y | y in rest ensures WaitsInside(deps, rest, y) {
      assert Waits(deps, Elems(s), y);
      var d :| DependsOn(deps, y, d) && d !in Elems(s);
      assert d in deps.Keys;
    }
    forall x | x in rest ensures ReachesCycle(deps, x) { StuckReachesCycle(deps, rest, x); }
    NoDupCount(s);
  }

  lemma SamePrefix(a: seq<int>, b: seq<int>, i: nat)
    requires i <= |a| && i <= |b| && a[..i] == b[..i]
    ensures forall j :: 0 <= j < i ==> a[j] == b[j]
  {
    forall j | 0 <= j < i ensures a[j] == b[j] {
      assert a[j] == a[..i][j];
    }
  }

  lemma FirstDifference(a: seq<int>, b: seq<int>) returns (i: nat)
    requires |a| == |b| && a != b
    ensures i < |a| && a[..i] == b[..i] && a[i] != b[i]
  {
    i := 0;
    while i < |a| && a[i] == b[i]
      invariant i <= |a| && a[..i] == b[..i]
    {
      i := i + 1;
    }
  }

  lemma GreedySettles(deps: Deps, s: seq<int>, rest: seq<int>)
    requires Closed(deps) && Topological(deps, s) && NoneReady(deps, Elems(s))
    requires Ascending(rest) && Elems(rest) == deps.Keys - Elems(s)
    ensures Settles(deps, s + rest)
  {
    ExhaustedIsSettled(deps, s);
    JoinNoDup(s, rest);
    SettledPrefix(deps, s, s + rest);
  }

  lemma SettledPrefix(deps: Deps, s: seq<int>, t: seq<int>)
    requires Topological(deps, s) && Elems(s) == Settled(deps) && |s| == |Settled(deps)|
    requires s <= t && NoDup(t) && Elems(t) == deps.Keys
    ensures Settles(deps, t)
  {
    assert t[..|s|] == s;
  }

  lemma JoinNoDup(a: seq<int>, b: seq<int>)
    requires NoDup(a) && NoDup(b) && Elems(a) !! Elems(b)
    ensures NoDup(a + b) && Elems(a + b) == Elems(a) + Elems(b)
  {
    forall i, j | 0 <= i < j < |a + b| ensures (a + b)[i] != (a + b)[j] {
      if i < |a| <= j {
        assert a[i] in Elems(a) && b[j - |a|] in Elems(b);
      }
    }
  }

  lemma SplitNoDup(t: seq<int>, k: nat)
    requires NoDup(t) && k <= |t|
    ensures Elems(t[k..]) == Elems(t) - Elems(t[..k])
  {
    assert t == t[..k] + t[k..];
    forall x | x in t[k..] ensures x !in t[..k] {
      var i :| 0 <= i < |t| - k && t[k..][i] == x;
      assert t[k + i] == x;
    }
  }

  lemma GreedyBeats(deps: Deps, s: seq<int>, rest: seq<int>, u: seq<int>, i: nat)
    requires Greedy(deps, s) && i < |s| <= |u| && Topological(deps, u[..|s|]) && (s + rest)[..i] == u[..i]
    ensures (s + rest)[i] <= u[i]
  {
    var p := u[..|s|];
    assert s[..i] == (s + rest)[..i] == u[..i] == p[..i];
    assert p[i] !in Elems(p[..i]);
  }

  lemma AscendingBeats(s: seq<int>, rest: seq<int>, u: seq<int>, i: nat)
    requires var t := s + rest; NoDup(t) && NoDup(u) && Elems(t) == Elems(u) && |t| == |u|
    requires |s| <= i < |u| && (s + rest)[..i] == u[..i] && (s + rest)[i] != u[i]
    requires Ascending(rest)
    ensures (s + rest)[i] < u[i]
  {
    var j := LaterMember(s + rest, u, i);
    assert rest[i - |s|] < rest[j - |s|];
  }

  lemma GreedyIsLeast(deps: Deps, s: seq<int>, rest: seq<int>, u: seq<int>)
    requires Closed(deps) && Topological(deps, s) && NoneReady(deps, Elems(s)) && Greedy(deps, s)
    requires Ascending(rest) && Elems(rest) == deps.Keys - Elems(s)
    requires Settles(deps, u)
    ensures LexLe(s + rest, u)
  {
    var t := s + rest;
    GreedySettles(deps, s, rest);
    NoDupCount(t);
    NoDupCount(u);
    if t != u {
      var i := FirstDifference(t, u);
      if i < |s| {
        ExhaustedIsSettled(deps, s);
        GreedyBeats(deps, s, rest, u, i);
      } else {
        AscendingBeats(s, rest, u, i);
      }
    }
  }

  /** Past a common prefix, a member of one listing stands in the other one at the same position or later. */
  lemma LaterMember(t: seq<int>, u: seq<int>, i: nat) returns (j: nat)
    requires NoDup(t) && NoDup(u) && Elems(t) == Elems(u) && i < |t| == |u|
    requires t[..i] == u[..i] && t[i] != u[i]
    ensures i < j < |t| && t[j] == u[i]
  {
    assert u[i] in Elems(t);
    SamePrefix(t, u, i);
    j :| 0 <= j < |t| && t[j] == u[i];
  }

  lemma GreedyIsQueueOrder(deps: Deps, s: seq<int>, rest: seq<int>)
    requires Closed(deps) && Topological(deps, s) && NoneReady(deps, Elems(s)) && Greedy(deps, s)
    requires Ascending(rest) && Elems(rest) == deps.Keys - Elems(s)
    ensures IsQueueOrder(deps, s + rest)
  {
    GreedySettles(deps, s, rest);
    forall u | Settles(deps, u) ensures LexLe(s + rest, u) { GreedyIsLeast(deps, s, rest, u); }
  }

  // ----- what the order means

  /** The dependency relation alone fixes the order. */
  lemma QueueOrderUnique(deps: Deps, t: seq<int>, u: seq<int>)
    requires IsQueueOrder(deps, t) && IsQueueOrder(deps, u)
    ensures t == u
  {
    assert LexLe(t, u) && LexLe(u, t);
    if t != u {
      var i :| 0 <= i < |t| && i < |u| && t[..i] == u[..i] && t[i] < u[i];
      var j :| 0 <= j < |u| && j < |t| && u[..j] == t[..j] && u[j] < t[j];
      SamePrefix(t, u, i);
      SamePrefix(u, t, j);
    }
  }

  /** Without cycles the order is topological, and least by number among all topological orders of the queue. */
  lemma AcyclicOrderIsLeastTopological(deps: Deps, t: seq<int>)
    requires Closed(deps) && Acyclic(deps) && IsQueueOrder(deps, t)
    ensures Topological(deps, t) && Elems(t) == deps.Keys
    ensures forall u :: Topological(deps, u) && Elems(u) == deps.Keys ==> LexLe(t, u)
  {
    AcyclicSettled(deps);
    AllSettled(deps, t);
    forall u | Topological(deps, u) && Elems(u) == deps.Keys ensures LexLe(t, u) {
      AllSettled(deps, u);
    }
  }

  lemma AllSettled(deps: Deps, t: seq<int>)
    requires Settled(deps) == deps.Keys
    ensures Settles(deps, t) <==> Topological(deps, t) && Elems(t) == deps.Keys
  {
    if NoDup(t) && Elems(t) == deps.Keys {
      NoDupCount(t);
      assert t[..|Settled(deps)|] == t;
    }
  }

  /** With cycles the order is the settled members, each after its dependencies, then the unsettled ones ascending. */
  lemma CyclicRemainderAscends(deps: Deps, t: seq<int>)
    requires Closed(deps) && IsQueueOrder(deps, t)
    ensures var k := |Settled(deps)|;
      && k <= |t| && Elems(t[..k]) == Settled(deps) && Topological(deps, t[..k])
      && Elems(t[k..]) == deps.Keys - Settled(deps) && Ascending(t[k..])
  {
    var k := |Settled(deps)|;
    SplitNoDup(t, k);
    forall i, j | 0 <= i < j < |t| - k ensures t[k..][i] < t[k..][j] {
      SwapIsLarger(deps, t, k + i, k + j);
    }
  }

  lemma SwapIsLarger(deps: Deps, t: seq<int>, i: nat, j: nat)
    requires IsQueueOrder(deps, t) && |Settled(deps)| <= i < j < |t|
    ensures t[i] < t[j]
  {
    var u := Swapped(t, i, j);
    SwapKeeps(t, i, j);
    assert u[..|Settled(deps)|] == t[..|Settled(deps)|];
    assert Settles(deps, u);
    assert u[i] != t[i];
    var a :| 0 <= a < |t| && t[..a] == u[..a] && t[a] < u[a];
    SamePrefix(t, u, a);
  }

  ghost function Swapped(t: seq<int>, i: nat, j: nat): seq<int>
    requires i < j < |t|
  {
    t[i := t[j]][j := t[i]]
  }

  lemma SwapKeeps(t: seq<int>, i: nat, j: nat)
    requires i < j < |t| && NoDup(t)
    ensures NoDup(Swapped(t, i, j)) && Elems(Swapped(t, i, j)) == Elems(t)
  {
    var u := Swapped(t, i, j);
    forall x | x in t ensures x in u {
      var a :| 0 <= a < |t| && t[a] == x;
      assert u[if a == i then j else if a == j then i else a] == x;
    }
  }
}
