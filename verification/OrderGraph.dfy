/**
 The dependency-ordered queue of the board: the walk that finds what must
 precede what, the smallest-ready-first placement, and what the result promises.
 */
module OrderGraph {
  import opened Basics
  import opened IssueGraph
  import opened QueueOrder

  function NumbersOf(issues: seq<Issue>): (r: seq<int>)
    ensures |r| == |issues| && forall i :: 0 <= i < |r| ==> r[i] == issues[i].number
  {
    seq(|issues|, i requires 0 <= i < |issues| => issues[i].number)
  }

  /** `out` lists the queue in its dependency order; a repeated number stands once, as its last issue. */
  ghost predicate IsGraphOrder(queue: seq<Issue>, all: seq<Issue>, out: seq<Issue>) {
    IsQueueOrder(GraphOf(queue, all).Deps(), NumbersOf(out)) && AreLast(queue, out)
  }

  ghost predicate AreLast(queue: seq<Issue>, out: seq<Issue>) {
    forall i :: 0 <= i < |out| ==> out[i].number in Numbers(queue) && out[i] == LastWith(queue, out[i].number)
  }

  // ----- the lookup tables

  method BlockedTable(queue: seq<Issue>, all: seq<Issue>) returns (blockedOf: map<int, seq<int>>)
    ensures blockedOf == map n | n in Numbers(all) + Numbers(queue) :: BlockedBy(queue, all, n)
  {
    var declared := DeclaredBlockers(all);
    blockedOf := FillBlockers(queue, declared);
  }

  method FillBlockers(queue: seq<Issue>, base: map<int, seq<int>>) returns (blockedOf: map<int, seq<int>>)
    ensures blockedOf.Keys == base.Keys + Numbers(queue)
    ensures forall n :: n in base ==> blockedOf[n] == base[n]
    ensures forall n :: n in Numbers(queue) && n !in base ==> blockedOf[n] == FirstWith(queue, n).blockedBy
  {
    blockedOf := base;
    for k := 0 to |queue|
      invariant blockedOf.Keys == base.Keys + Numbers(queue[..k])
      invariant forall n :: n in base ==> blockedOf[n] == base[n]
      invariant forall n :: n in Numbers(queue[..k]) && n !in base ==>
        blockedOf[n] == FirstWith(queue[..k], n).blockedBy
    {
      NumbersSnoc(queue, k);
      assert queue[..k + 1][..k] == queue[..k];
      if queue[k].number !in blockedOf {
        blockedOf := blockedOf[queue[k].number := queue[k].blockedBy];
      }
    }
    assert queue[..|queue|] == queue;
  }

  method DeclaredBlockers(all: seq<Issue>) returns (blockedOf: map<int, seq<int>>)
    ensures blockedOf == map n | n in Numbers(all) :: LastWith(all, n).blockedBy
  {
    blockedOf := map[];
    for k := 0 to |all|
      invariant blockedOf.Keys == Numbers(all[..k])
      invariant forall n :: n in blockedOf ==> blockedOf[n] == LastWith(all[..k], n).blockedBy
    {
      NumbersSnoc(all, k);
      assert all[..k + 1][..k] == all[..k];
      blockedOf := blockedOf[all[k].number := all[k].blockedBy];
    }
    assert all[..|all|] == all;
  }

  method ChildrenTable(queue: seq<Issue>) returns (childrenOf: map<int, seq<int>>)
    ensures childrenOf == map p | p in Parents(queue) :: ChildNumbers(queue, p)
  {
    childrenOf := map[];
    for k := 0 to |queue|
      invariant childrenOf.Keys == Parents(queue[..k])
      invariant forall p :: p in childrenOf ==> childrenOf[p] == ChildNumbers(queue[..k], p)
    {
      var i := queue[k];
      OneMoreChild(queue, k);
      if i.parent.Some? {
        var p := i.parent.value;
        if p !in childrenOf {
          NoParentNoChild(queue[..k], p);
          childrenOf := childrenOf[p := []];
        }
        childrenOf := childrenOf[p := childrenOf[p] + [i.number]];
      }
    }
    assert queue[..|queue|] == queue;
  }

  lemma OneMoreChild(queue: seq<Issue>, k: nat)
    requires k < |queue|
    ensures Parents(queue[..k + 1]) ==
      Parents(queue[..k]) + (if queue[k].parent.Some? then {queue[k].parent.value} else {})
    ensures forall p ::
      var more := if queue[k].parent == Some(p) then [queue[k].number] else [];
      ChildNumbers(queue[..k + 1], p) == ChildNumbers(queue[..k], p) + more
  {
    assert queue[..k + 1] == queue[..k] + [queue[k]] && queue[..k + 1][..k] == queue[..k];
  }

  lemma NoParentNoChild(queue: seq<Issue>, p: int)
    requires p !in Parents(queue)
    ensures ChildNumbers(queue, p) == []
  {
    assert forall r: seq<int> :: r != [] ==> r[0] in r;
  }

  // ----- the walk

  /** One expanded node: every blocker is placed, pushed, or replaced by its bundle's children. */
  method Expand(g: Graph, x: int, node: int, stack0: seq<int>, acc0: set<int>) returns (stack: seq<int>, acc: set<int>)
    ensures forall n :: n in stack <==> n in stack0 || (n in g.Blockers(node) && g.Passes(x, n))
    ensures forall d :: d in acc <==> d in acc0 || g.YieldedFrom(x, node, d)
  {
    stack, acc := stack0, acc0;
    var blockers := g.Blockers(node);
    for k := 0 to |blockers|
      invariant forall n :: n in stack <==> n in stack0 || (n in blockers[..k] && g.Passes(x, n))
      invariant forall d :: d in acc <==> d in acc0 || exists n :: n in blockers[..k] && g.Yields(x, n, d)
    {
      var n := blockers[k];
      assert blockers[..k + 1] == blockers[..k] + [n];
      ghost var before := acc;
      if n == x {
      } else if n in g.inQueue {
        acc := acc + {n};
      } else if n in g.open {
        stack := stack + [n];
      } else {
        acc := AddChildren(g.Children(n), x, acc);
      }
      assert forall d :: d in acc <==> d in before || g.Yields(x, n, d);
    }
    assert blockers[..|blockers|] == blockers;
  }

  method AddChildren(children: seq<int>, x: int, acc0: set<int>) returns (acc: set<int>)
    ensures forall d :: d in acc <==> d in acc0 || (d in children && d != x)
  {
    acc := acc0;
    for k := 0 to |children|
      invariant forall d :: d in acc <==> d in acc0 || (d in children[..k] && d != x)
    {
      if children[k] != x {
        acc := acc + {children[k]};
      }
    }
  }

  ghost function Mentioned(g: Graph, x: int): set<int> {
    {x} + set m, n | m in g.blockedOf && n in g.blockedOf[m] :: n
  }

  ghost predicate YieldedWithin(g: Graph, x: int, nodes: set<int>, d: int) {
    exists m :: m in nodes && g.YieldedFrom(x, m, d)
  }

  lemma YieldedWithinOneMore(g: Graph, x: int, nodes: set<int>, node: int, d: int)
    ensures YieldedWithin(g, x, nodes + {node}, d) <==> YieldedWithin(g, x, nodes, d) || g.YieldedFrom(x, node, d)
  {
    if YieldedWithin(g, x, nodes, d) {
      var m :| m in nodes && g.YieldedFrom(x, m, d);
      assert m in nodes + {node};
    } else if g.YieldedFrom(x, node, d) {
      assert node in nodes + {node};
    }
  }

  /** What the walk keeps: everything met is reached, and every hop from an expanded node has been met. */
  ghost predicate Met(g: Graph, x: int, seen: set<int>, stack: seq<int>) {
    && (x in seen || x in stack)
    && (forall n :: n in seen || n in stack ==> n in Mentioned(g, x) && g.Reaches(x, n))
    && (forall m, n :: m in seen && n in g.Blockers(m) && g.Passes(x, n) ==> n in seen || n in stack)
  }

  lemma MeetBlockers(g: Graph, x: int, seen: set<int>, stack: seq<int>, node: int, stack': seq<int>)
    requires Met(g, x, seen, stack + [node])
    requires forall n :: n in stack' <==> n in stack || (n in g.Blockers(node) && g.Passes(x, n))
    ensures Met(g, x, seen + {node}, stack')
  {
    var whole := stack + [node];
    assert forall n :: n in whole <==> n in stack || n == node;
    forall n | n in g.Blockers(node) && g.Passes(x, n) ensures n in Mentioned(g, x) && g.Reaches(x, n) {
      ReachesStep(g, x, node, n);
    }
  }

  /** The walk ends on every graph and finds exactly the members that must precede `x`. */
  method Walk(g: Graph, x: int) returns (acc: set<int>)
    ensures forall d :: d in acc <==> g.MustPrecede(x, d)
  {
    acc := {};
    var seen: set<int> := {};
    var stack := [x];
    ReachesSelf(g, x);
    while |stack| > 0
      invariant Met(g, x, seen, stack)
      invariant forall d :: d in acc <==> YieldedWithin(g, x, seen, d)
      decreases Mentioned(g, x) - seen, |stack|
    {
      var top := |stack| - 1;
      var node := stack[top];
      assert stack == stack[..top] + [node];
      stack := stack[..top];
      if node !in seen {
        ghost var before := stack;
        stack, acc := Expand(g, x, node, stack, acc);
        MeetBlockers(g, x, seen, before, node, stack);
        forall d ensures d in acc <==> YieldedWithin(g, x, seen + {node}, d) {
          YieldedWithinOneMore(g, x, seen, node, d);
        }
        seen := seen + {node};
      }
    }
    forall m | g.Reaches(x, m) ensures m in seen { ReachesInside(g, x, seen, m); }
  }

  // ----- the placement

  lemma PickMember<T>(s: set<T>) returns (m: T)
    requires s != {}
    ensures m in s
  {
    m :| m in s;
  }

  lemma {:induction false} LeastMember(s: set<int>) returns (m: int)
    requires s != {}
    ensures m in s && forall y :: y in s ==> m <= y
  {
    m := PickMember(s);
    var rest := s - {m};
    assert forall y :: y in s ==> y == m || y in rest;
    if rest != {} {
      var r := LeastMember(rest);
      m := if r < m then r else m;
    }
  }

  method SortedKeys(s: set<int>) returns (keys: seq<int>)
    ensures Ascending(keys) && Elems(keys) == s
  {
    keys := [];
    var rest := s;
    while rest != {}
      invariant rest <= s
      invariant forall k :: k in keys <==> k in s && k !in rest
      invariant Ascending(keys)
      invariant forall i, y :: 0 <= i < |keys| && y in rest ==> keys[i] < y
    {
      ghost var least := LeastMember(rest);
      var m :| m in rest && forall y :: y in rest ==> m <= y;
      keys := keys + [m];
      rest := rest - {m};
    }
    forall k | k in s ensures k in keys {}
    forall k | k in keys ensures k in s {}
  }

  method FindReady(keys: seq<int>, deps: Deps, placed: set<int>) returns (ready: Option<int>)
    requires Ascending(keys) && Elems(keys) <= deps.Keys
    ensures ready.None? ==> forall n :: n in keys ==> !(deps[n] <= placed)
    ensures ready.Some? ==> ready.value in keys && deps[ready.value] <= placed
    ensures ready.Some? ==> forall n :: n in keys && deps[n] <= placed ==> ready.value <= n
  {
    for k := 0 to |keys|
      invariant forall j :: 0 <= j < k ==> keys[j] in Elems(keys) && !(deps[keys[j]] <= placed)
    {
      assert keys[k] in Elems(keys);
      if deps[keys[k]] <= placed {
        return Some(keys[k]);
      }
    }
    return None;
  }

  lemma MissingMember<T>(a: set<T>, b: set<T>) returns (d: T)
    requires !(a <= b)
    ensures d in a && d !in b
  {
    d :| d in a && d !in b;
  }

  lemma NotReadyWaits(deps: Deps, placed: set<int>, y: int)
    requires y in deps && !(deps[y] <= placed)
    ensures Waits(deps, placed, y)
  {
    var d := MissingMember(deps[y], placed);
    assert DependsOn(deps, y, d);
  }

  /** Placing the smallest ready member keeps the listing topological and greedy. */
  lemma PlaceNext(deps: Deps, s: seq<int>, keys: seq<int>, r: int)
    requires Topological(deps, s) && Greedy(deps, s) && Elems(keys) == deps.Keys - Elems(s)
    requires r in keys && r in deps && deps[r] <= Elems(s)
    requires forall n :: n in keys && n in deps && deps[n] <= Elems(s) ==> r <= n
    ensures Topological(deps, s + [r]) && Greedy(deps, s + [r])
    ensures r in deps.Keys - Elems(s)
  {
    var t := s + [r];
    assert r in Elems(keys);
    assert forall i :: 0 <= i <= |s| ==> t[..i] == s[..i];
    assert s[..|s|] == s;
    forall y | y in deps && y !in Elems(s) && deps[y] <= Elems(s) ensures r <= y {
      assert y in Elems(keys);
    }
  }

  /** When no member left is ready, those left close the listing in ascending order. */
  lemma NothingReady(deps: Deps, s: seq<int>, keys: seq<int>)
    requires Closed(deps) && Topological(deps, s) && Greedy(deps, s)
    requires Ascending(keys) && Elems(keys) == deps.Keys - Elems(s)
    requires forall n :: n in keys && n in deps ==> !(deps[n] <= Elems(s))
    ensures IsQueueOrder(deps, s + keys)
  {
    forall y | y in deps && y !in Elems(s) ensures Waits(deps, Elems(s), y) {
      assert y in Elems(keys);
      NotReadyWaits(deps, Elems(s), y);
    }
    GreedyIsQueueOrder(deps, s, keys);
  }

  method DepsTable(queue: seq<Issue>, g: Graph) returns (deps: Deps)
    requires g.inQueue == Numbers(queue) && g.ChildrenQueued()
    ensures deps == g.Deps()
  {
    deps := map[];
    for k := 0 to |queue|
      invariant deps.Keys == Numbers(queue[..k])
      invariant forall x :: x in deps ==> x in g.inQueue && deps[x] == g.Deps()[x]
    {
      assert queue[..k + 1] == queue[..k] + [queue[k]];
      var x := queue[k].number;
      assert queue[k] in queue;
      var acc := Walk(g, x);
      forall d | d in acc ensures d in g.inQueue { PrecedesInQueue(g, x, d); }
      assert acc == g.Deps()[x];
      deps := deps[x := acc];
    }
    assert queue[..|queue|] == queue;
  }

  /** The queue in dependency order, smallest ready number first, the members of cycles last. */
  method Order(queue: seq<Issue>, all: seq<Issue>) returns (out: seq<Issue>)
    ensures IsGraphOrder(queue, all, out)
  {
    var blockedOf := BlockedTable(queue, all);
    var childrenOf := ChildrenTable(queue);
    var g := Graph(Numbers(queue), OpenNumbers(all), blockedOf, childrenOf);
    assert g == GraphOf(queue, all);
    var deps := DepsTable(queue, g);

    out := Place(queue, deps);
  }

  /** What the placement loop keeps: `left` is still to place, and `out` is a greedy topological listing of the rest. */
  ghost predicate Placing(queue: seq<Issue>, deps: Deps, out: seq<Issue>, left: set<int>) {
    && AreLast(queue, out) && left == deps.Keys - Elems(NumbersOf(out))
    && Topological(deps, NumbersOf(out)) && Greedy(deps, NumbersOf(out))
  }

  lemma PlaceIssue(queue: seq<Issue>, deps: Deps, out: seq<Issue>, keys: seq<int>, r: int)
    requires Placing(queue, deps, out, Elems(keys)) && deps.Keys == Numbers(queue)
    requires r in keys && r in deps && deps[r] <= Elems(NumbersOf(out))
    requires forall n :: n in keys && n in deps && deps[n] <= Elems(NumbersOf(out)) ==> r <= n
    ensures Placing(queue, deps, out + [LastWith(queue, r)], Elems(keys) - {r})
    ensures Elems(NumbersOf(out + [LastWith(queue, r)])) == Elems(NumbersOf(out)) + {r}
  {
    PlaceNext(deps, NumbersOf(out), keys, r);
    assert NumbersOf(out + [LastWith(queue, r)]) == NumbersOf(out) + [r];
  }

  method Place(queue: seq<Issue>, deps: Deps) returns (out: seq<Issue>)
    requires Closed(deps) && deps.Keys == Numbers(queue)
    ensures IsQueueOrder(deps, NumbersOf(out)) && AreLast(queue, out)
  {
    var byNum := map n | n in Numbers(queue) :: LastWith(queue, n);
    var placed: set<int> := {};
    out := [];
    while byNum.Keys != {}
      invariant byNum.Keys <= Numbers(queue) && forall n :: n in byNum ==> byNum[n] == LastWith(queue, n)
      invariant placed == Elems(NumbersOf(out)) && Placing(queue, deps, out, byNum.Keys)
      decreases byNum.Keys
    {
      var keys := SortedKeys(byNum.Keys);
      var ready := FindReady(keys, deps, placed);
      if ready.None? {
        NothingReady(deps, NumbersOf(out), keys);
        out := AppendRest(queue, out, keys, byNum);
        return;
      }
      var r := ready.value;
      assert r in Elems(keys);
      PlaceIssue(queue, deps, out, keys, r);
      placed := placed + {r};
      out := out + [byNum[r]];
      byNum := byNum - {r};
    }
    assert NumbersOf(out) + [] == NumbersOf(out);
    NothingReady(deps, NumbersOf(out), []);
  }

  method AppendRest(queue: seq<Issue>, out0: seq<Issue>, keys: seq<int>, byNum: map<int, Issue>)
    returns (out: seq<Issue>)
    requires AreLast(queue, out0)
    requires Elems(keys) <= byNum.Keys <= Numbers(queue) && forall n :: n in byNum ==> byNum[n] == LastWith(queue, n)
    ensures NumbersOf(out) == NumbersOf(out0) + keys && AreLast(queue, out)
  {
    out := out0;
    for k := 0 to |keys|
      invariant NumbersOf(out) == NumbersOf(out0) + keys[..k] && AreLast(queue, out)
    {
      assert keys[k] in Elems(keys);
      var next := byNum[keys[k]];
      assert NumbersOf(out + [next]) == NumbersOf(out) + [keys[k]];
      assert keys[..k + 1] == keys[..k] + [keys[k]];
      out := out + [next];
    }
    assert keys[..|keys|] == keys;
  }

  lemma DepsClosed(g: Graph)
    ensures Closed(g.Deps()) && g.Deps().Keys == g.inQueue
  {
  }

  /**
   Cycles or not: the settled members, each after all that must precede it,
   then the members that reach a cycle, ascending.
   */
  lemma GraphOrderShape(queue: seq<Issue>, all: seq<Issue>, out: seq<Issue>)
    requires IsGraphOrder(queue, all, out)
    ensures var deps, t := GraphOf(queue, all).Deps(), NumbersOf(out);
      var k := |Settled(deps)|;
      && NoDup(t) && Elems(t) == Numbers(queue) && k <= |t|
      && Elems(t[..k]) == Settled(deps) && Topological(deps, t[..k])
      && Elems(t[k..]) == Numbers(queue) - Settled(deps) && Ascending(t[k..])
  {
    DepsClosed(GraphOf(queue, all));
    CyclicRemainderAscends(GraphOf(queue, all).Deps(), NumbersOf(out));
  }

  /** Nothing is lost or invented: with distinct numbers the result is a permutation of the queue. */
  lemma OrderIsPermutation(queue: seq<Issue>, all: seq<Issue>, out: seq<Issue>)
    requires IsGraphOrder(queue, all, out) && DistinctNumbers(queue)
    ensures multiset(out) == multiset(queue)
  {
    GraphOrderShape(queue, all, out);
    DepsClosed(GraphOf(queue, all));
    forall i, j | 0 <= i < j < |out| ensures out[i].number != out[j].number {
      assert NumbersOf(out)[i] != NumbersOf(out)[j];
    }
    forall q | q in queue ensures q in out {
      assert q.number in Numbers(queue) && q.number in Elems(NumbersOf(out));
      var i :| 0 <= i < |out| && NumbersOf(out)[i] == q.number;
      DistinctLookup(queue, q, out[i]);
    }
    SameDistinct(out, queue);
  }

  lemma {:induction false} DistinctCount(s: seq<Issue>, x: Issue)
    requires DistinctNumbers(s)
    ensures multiset(s)[x] == if x in s then 1 else 0
  {
    if s != [] {
      var before, last := s[..|s| - 1], s[|s| - 1];
      assert s == before + [last];
      DistinctCount(before, x);
    }
  }

  lemma SameDistinct(a: seq<Issue>, b: seq<Issue>)
    requires DistinctNumbers(a) && DistinctNumbers(b)
    requires (forall x :: x in a ==> x in b) && (forall x :: x in b ==> x in a)
    ensures multiset(a) == multiset(b)
  {
    forall x: Issue ensures multiset(a)[x] == multiset(b)[x] {
      DistinctCount(a, x);
      DistinctCount(b, x);
    }
  }

  /** Without a dependency cycle the result is the least topological order of the queue by issue number. */
  lemma AcyclicOrder(queue: seq<Issue>, all: seq<Issue>, out: seq<Issue>)
    requires IsGraphOrder(queue, all, out)
    requires Acyclic(GraphOf(queue, all).Deps())
    ensures var deps := GraphOf(queue, all).Deps();
      && Settled(deps) == Numbers(queue)
      && Topological(deps, NumbersOf(out)) && Elems(NumbersOf(out)) == Numbers(queue)
      && forall u :: Topological(deps, u) && Elems(u) == Numbers(queue) ==> LexLe(NumbersOf(out), u)
  {
    DepsClosed(GraphOf(queue, all));
    AcyclicSettled(GraphOf(queue, all).Deps());
    AcyclicOrderIsLeastTopological(GraphOf(queue, all).Deps(), NumbersOf(out));
  }

  // ----- the order of the inputs does not matter

  ghost predicate SameIssue(a: Issue, b: Issue) {
    && a.number == b.number && a.open == b.open && a.parent == b.parent
    && forall n :: n in a.blockedBy <==> n in b.blockedBy
  }

  ghost predicate HasLike(issues: seq<Issue>, i: Issue) {
    exists j :: j in issues && SameIssue(i, j)
  }

  ghost predicate Covers(b: seq<Issue>, a: seq<Issue>) {
    forall i {:trigger HasLike(b, i)} :: i in a ==> HasLike(b, i)
  }

  ghost predicate Rearranged(a: seq<Issue>, b: seq<Issue>) {
    DistinctNumbers(a) && DistinctNumbers(b) && Covers(a, b) && Covers(b, a)
  }

  lemma CoveredNumbers(a: seq<Issue>, b: seq<Issue>)
    requires Covers(b, a)
    ensures Numbers(a) <= Numbers(b) && OpenNumbers(a) <= OpenNumbers(b)
    ensures forall p, n :: n in ChildNumbers(a, p) ==> n in ChildNumbers(b, p)
  {
    forall i | i in a
      ensures i.number in Numbers(b) && (i.open ==> i.number in OpenNumbers(b))
      ensures i.parent.Some? ==> i.number in ChildNumbers(b, i.parent.value)
    {
      assert HasLike(b, i);
    }
  }

  lemma RearrangedLookup(a: seq<Issue>, b: seq<Issue>, i: Issue, j: Issue)
    requires Rearranged(a, b) && i in a && j in b && i.number == j.number
    ensures SameIssue(i, j)
  {
    assert HasLike(b, i);
    var k :| k in b && SameIssue(i, k);
    DistinctLookup(b, j, k);
  }

  ghost predicate SameGraph(g: Graph, h: Graph) {
    && g.inQueue == h.inQueue && g.open == h.open
    && (forall m, n :: n in g.Blockers(m) <==> n in h.Blockers(m))
    && (forall m, n :: n in g.Children(m) <==> n in h.Children(m))
  }

  lemma RearrangedGraph(queue: seq<Issue>, all: seq<Issue>, queue': seq<Issue>, all': seq<Issue>)
    requires Rearranged(queue, queue') && Rearranged(all, all')
    ensures SameGraph(GraphOf(queue, all), GraphOf(queue', all'))
  {
    var g, h := GraphOf(queue, all), GraphOf(queue', all');
    CoveredNumbers(queue, queue');
    CoveredNumbers(queue', queue);
    CoveredNumbers(all, all');
    CoveredNumbers(all', all);
    forall m, n ensures n in g.Blockers(m) <==> n in h.Blockers(m) {
      if m in Numbers(all) {
        RearrangedLookup(all, all', LastWith(all, m), LastWith(all', m));
      } else if m in Numbers(queue) {
        RearrangedLookup(queue, queue', FirstWith(queue, m), FirstWith(queue', m));
      }
    }
    forall m, n ensures n in g.Children(m) <==> n in h.Children(m) {
      ChildrenLookup(queue, all, m);
      ChildrenLookup(queue', all', m);
    }
  }

  lemma ChildrenLookup(queue: seq<Issue>, all: seq<Issue>, m: int)
    ensures GraphOf(queue, all).Children(m) == ChildNumbers(queue, m)
  {
    if m !in Parents(queue) {
      NoParentNoChild(queue, m);
    }
  }

  lemma SameReach(g: Graph, h: Graph, x: int, m: int)
    requires SameGraph(g, h) && g.Reaches(x, m)
    ensures h.Reaches(x, m)
  {
    var p :| g.Trail(x, p) && p[|p| - 1] == m;
    assert h.Trail(x, p);
  }

  lemma SameDeps(g: Graph, h: Graph)
    requires SameGraph(g, h)
    ensures g.Deps() == h.Deps()
  {
    forall x, d ensures g.MustPrecede(x, d) <==> h.MustPrecede(x, d) {
      forall m ensures g.Reaches(x, m) <==> h.Reaches(x, m) {
        if g.Reaches(x, m) { SameReach(g, h, x, m); }
        if h.Reaches(x, m) { SameReach(h, g, x, m); }
      }
      forall m ensures g.YieldedFrom(x, m, d) <==> h.YieldedFrom(x, m, d) {
        assert forall n :: g.Yields(x, n, d) <==> h.Yields(x, n, d);
      }
    }
    forall x | x in g.inQueue ensures g.Deps()[x] == h.Deps()[x] {
      forall d | d in g.Deps()[x] ensures d in h.Deps()[x] {}
      forall d | d in h.Deps()[x] ensures d in g.Deps()[x] {}
    }
  }

  /** Reordering the queue, the project's issues or any blocked-by list leaves the resulting order unchanged. */
  lemma OrderIgnoresArrangement(queue: seq<Issue>, all: seq<Issue>, out: seq<Issue>,
                                queue': seq<Issue>, all': seq<Issue>, out': seq<Issue>)
    requires Rearranged(queue, queue') && Rearranged(all, all')
    requires IsGraphOrder(queue, all, out) && IsGraphOrder(queue', all', out')
    ensures NumbersOf(out) == NumbersOf(out')
  {
    RearrangedGraph(queue, all, queue', all');
    SameDeps(GraphOf(queue, all), GraphOf(queue', all'));
    QueueOrderUnique(GraphOf(queue, all).Deps(), NumbersOf(out), NumbersOf(out'));
  }

  // ----- what must precede what, told by the issues alone

  /** The issue whose blocked-by list counts for its number: the project's last one, else the queue's first. */
  ghost predicate Speaks(queue: seq<Issue>, all: seq<Issue>, i: Issue) {
    IsLast(all, i) || (i.number !in Numbers(all) && IsFirst(queue, i))
  }

  /** From the issue numbered `x`, blocker after blocker, over open issues outside the queue. */
  ghost predicate BlockerChain(queue: seq<Issue>, all: seq<Issue>, x: int, c: seq<Issue>) {
    && |c| > 0 && c[0].number == x && (forall i :: 0 <= i < |c| ==> Speaks(queue, all, c[i]))
    && forall i :: 0 < i < |c| ==>
      && c[i].number in c[i - 1].blockedBy
      && c[i].number != x && c[i].number !in Numbers(queue) && c[i].number in OpenNumbers(all)
  }

  /** `n` is declared a blocker at the end of such a chain. */
  ghost predicate BlockerOf(queue: seq<Issue>, all: seq<Issue>, x: int, n: int) {
    exists c: seq<Issue> :: BlockerChain(queue, all, x, c) && n in c[|c| - 1].blockedBy
  }

  /** Blocker `n` of `x` asks for `d` to go first: for itself when queued, for its queued children when not open. */
  ghost predicate AsksFor(queue: seq<Issue>, all: seq<Issue>, x: int, n: int, d: int) {
    && n != x && d != x
    && if n in Numbers(queue) then d == n
       else n !in OpenNumbers(all) && exists i :: i in queue && i.parent == Some(n) && i.number == d
  }

  function SpeakerOf(queue: seq<Issue>, all: seq<Issue>, n: int): (i: Issue)
    requires n in Numbers(all) + Numbers(queue)
    ensures i.number == n
  {
    if n in Numbers(all) then LastWith(all, n) else FirstWith(queue, n)
  }

  lemma SpeakerSpeaks(queue: seq<Issue>, all: seq<Issue>, n: int)
    requires n in Numbers(all) + Numbers(queue)
    ensures Speaks(queue, all, SpeakerOf(queue, all, n))
  {
    if n in Numbers(all) {
      var k := LastIsLast(all, n);
    } else {
      var k := FirstIsFirst(queue, n);
    }
  }

  lemma OneSpeaker(queue: seq<Issue>, all: seq<Issue>, i: Issue)
    requires Speaks(queue, all, i)
    ensures i.number in Numbers(all) + Numbers(queue) && i == SpeakerOf(queue, all, i.number)
    ensures GraphOf(queue, all).Blockers(i.number) == i.blockedBy
  {
    if i.number in Numbers(all) {
      var k := LastIsLast(all, i.number);
    } else {
      var k := FirstIsFirst(queue, i.number);
    }
  }

  lemma AsksForYields(queue: seq<Issue>, all: seq<Issue>, x: int, n: int, d: int)
    ensures AsksFor(queue, all, x, n, d) <==> GraphOf(queue, all).Yields(x, n, d)
  {
    ChildrenLookup(queue, all, n);
  }

  lemma ChainIsTrail(queue: seq<Issue>, all: seq<Issue>, x: int, c: seq<Issue>)
    requires BlockerChain(queue, all, x, c)
    ensures GraphOf(queue, all).Trail(x, NumbersOf(c))
  {
    forall i | 0 <= i < |c| ensures GraphOf(queue, all).Blockers(c[i].number) == c[i].blockedBy {
      OneSpeaker(queue, all, c[i]);
    }
  }

  lemma TrailIsChain(queue: seq<Issue>, all: seq<Issue>, x: int, p: seq<int>) returns (c: seq<Issue>)
    requires x in Numbers(queue) && GraphOf(queue, all).Trail(x, p)
    ensures BlockerChain(queue, all, x, c) && c[|c| - 1].blockedBy == GraphOf(queue, all).Blockers(p[|p| - 1])
  {
    forall i | 0 <= i < |p| ensures p[i] in Numbers(all) + Numbers(queue) {
      assert i == 0 || GraphOf(queue, all).Passes(x, p[i]);
    }
    c := seq(|p|, i requires 0 <= i < |p| => SpeakerOf(queue, all, p[i]));
    forall i | 0 <= i < |p|
      ensures Speaks(queue, all, c[i]) && GraphOf(queue, all).Blockers(p[i]) == c[i].blockedBy
    {
      SpeakerSpeaks(queue, all, p[i]);
      OneSpeaker(queue, all, c[i]);
    }
    forall i | 0 < i < |p|
      ensures c[i].number in c[i - 1].blockedBy
      ensures c[i].number != x && c[i].number !in Numbers(queue) && c[i].number in OpenNumbers(all)
    {
      assert p[i] in GraphOf(queue, all).Blockers(p[i - 1]) && GraphOf(queue, all).Passes(x, p[i]);
    }
  }

  /**
   A queue member precedes another exactly when a blocker at the end of a chain
   through open issues outside the queue asks for it: a queued blocker for
   itself, a closed or unknown one for its queued children.
   */
  lemma PrecedesExactly(queue: seq<Issue>, all: seq<Issue>, x: int, d: int)
    requires x in Numbers(queue)
    ensures GraphOf(queue, all).MustPrecede(x, d) <==>
      exists n :: BlockerOf(queue, all, x, n) && AsksFor(queue, all, x, n, d)
  {
    var g := GraphOf(queue, all);
    forall n ensures AsksFor(queue, all, x, n, d) <==> g.Yields(x, n, d) { AsksForYields(queue, all, x, n, d); }
    if g.MustPrecede(x, d) {
      var m :| g.Reaches(x, m) && g.YieldedFrom(x, m, d);
      var p :| g.Trail(x, p) && p[|p| - 1] == m;
      var c := TrailIsChain(queue, all, x, p);
      var n :| n in g.Blockers(m) && g.Yields(x, n, d);
      assert BlockerOf(queue, all, x, n);
    }
    forall n | BlockerOf(queue, all, x, n) && AsksFor(queue, all, x, n, d) ensures g.MustPrecede(x, d) {
      AskedPrecedes(queue, all, x, n, d);
    }
  }

  lemma AskedPrecedes(queue: seq<Issue>, all: seq<Issue>, x: int, n: int, d: int)
    requires BlockerOf(queue, all, x, n) && AsksFor(queue, all, x, n, d)
    ensures GraphOf(queue, all).MustPrecede(x, d)
  {
    var g := GraphOf(queue, all);
    var c: seq<Issue> :| BlockerChain(queue, all, x, c) && n in c[|c| - 1].blockedBy;
    ChainIsTrail(queue, all, x, c);
    OneSpeaker(queue, all, c[|c| - 1]);
    AsksForYields(queue, all, x, n, d);
    assert g.Reaches(x, c[|c| - 1].number);
    assert g.YieldedFrom(x, c[|c| - 1].number, d);
  }

  // ----- working the queue in order

  /** `a` is `b` with some elements left out. */
  predicate Subsequence(a: seq<int>, b: seq<int>) {
    a == [] || (b != [] && ((a[0] == b[0] && Subsequence(a[1..], b[1..])) || Subsequence(a, b[1..])))
  }

  /**
   The runtime gate's question, which blockers of the issue are still open: in
   declared order, each as often as declared.
   */
  function OpenBlockers(issue: Issue, all: seq<Issue>): (r: seq<int>)
    ensures Subsequence(r, issue.blockedBy)
    ensures forall n :: multiset(r)[n] == if n in OpenNumbers(all) then multiset(issue.blockedBy)[n] else 0
    ensures forall n :: n in r <==> n in issue.blockedBy && n in OpenNumbers(all)
  {
    var r := Filter(issue.blockedBy, OpenNumbers(all));
    assert forall n :: n in r <==> multiset(r)[n] > 0;
    r
  }

  function Filter(s: seq<int>, keep: set<int>): (r: seq<int>)
    ensures Subsequence(r, s)
    ensures forall n :: multiset(r)[n] == if n in keep then multiset(s)[n] else 0
  {
    if s == [] then []
    else
      var rest := Filter(s[1..], keep);
      assert s == [s[0]] + s[1..];
      if s[0] in keep then
        assert ([s[0]] + rest)[1..] == rest;
        [s[0]] + rest
      else rest
  }

  function Close(all: seq<Issue>, done: seq<int>): (r: seq<Issue>)
    ensures |r| == |all| && forall i :: 0 <= i < |r| ==> r[i] == all[i].(open := all[i].open && all[i].number !in done)
  {
    seq(|all|, i requires 0 <= i < |all| => all[i].(open := all[i].open && all[i].number !in done))
  }

  lemma PrecedersPlaced(g: Graph, t: seq<int>, i: nat)
    requires g.ChildrenQueued() && IsQueueOrder(g.Deps(), t) && i < |t| && t[i] in Settled(g.Deps())
    ensures forall d :: g.MustPrecede(t[i], d) ==> d in t[..i]
  {
    var k := |Settled(g.Deps())|;
    DepsClosed(g);
    SplitNoDup(t, k);
    forall j | k <= j < |t| ensures t[j] !in Settled(g.Deps()) {
      assert t[k..][j - k] == t[j] && t[j] in Elems(t[k..]);
    }
    assert t[..k][i] == t[i] && t[..k][..i] == t[..i];
    forall d | g.MustPrecede(t[i], d) ensures d in t[..i] {
      PrecedesInQueue(g, t[i], d);
      assert d in g.Deps()[t[i]] && d in Elems(t[..i]);
    }
  }

  lemma QueuedBlockers(queue: seq<Issue>, all: seq<Issue>, issue: Issue)
    requires DistinctNumbers(all) && issue in all
    ensures GraphOf(queue, all).Blockers(issue.number) == issue.blockedBy
  {
    DistinctLookup(all, issue, LastWith(all, issue.number));
  }

  lemma ClosedPreceders(g: Graph, issue: Issue, all: seq<Issue>, done: seq<int>)
    requires g.Blockers(issue.number) == issue.blockedBy
    requires forall d :: g.MustPrecede(issue.number, d) ==> d in done
    ensures var now := Close(all, done);
      && (forall d :: g.MustPrecede(issue.number, d) ==> d !in OpenNumbers(now))
      && (forall n :: n in OpenBlockers(issue, now) && n != issue.number ==> n !in g.inQueue)
  {
    forall n | n in issue.blockedBy && n != issue.number && n in g.inQueue ensures g.MustPrecede(issue.number, n) {
      QueuedBlockerPrecedes(g, issue.number, n);
    }
  }

  lemma QueuedBlockerPrecedes(g: Graph, x: int, n: int)
    requires n in g.Blockers(x) && n != x && n in g.inQueue
    ensures g.MustPrecede(x, n)
  {
    ReachesSelf(g, x);
    assert g.Yields(x, n, n);
    assert g.YieldedFrom(x, x, n);
  }

  /** Another queue member whose parent is a blocker of the issue that is neither queued nor open any more. */
  predicate StandsIn(queue: seq<Issue>, all: seq<Issue>, issue: Issue, c: Issue) {
    && c in queue && c.number != issue.number && c.parent.Some? && c.parent.value in issue.blockedBy
    && c.parent.value !in Numbers(queue) && c.parent.value !in OpenNumbers(all)
  }

  /** The issue is itself the end of the shortest chain. */
  lemma DeclaredBlocker(queue: seq<Issue>, all: seq<Issue>, issue: Issue, n: int)
    requires DistinctNumbers(all) && issue in all && n in issue.blockedBy
    ensures BlockerOf(queue, all, issue.number, n)
  {
    DistinctLookup(all, issue, LastWith(all, issue.number));
    var k := LastIsLast(all, issue.number);
    assert BlockerChain(queue, all, issue.number, [issue]);
  }

  /**
   Closing issues in the returned order, at each settled issue's turn all that
   its blockers ask for is closed: directly or through open issues outside the
   queue, the queued ones and the queued children of closed bundles. Its only
   open blockers lie outside the queue.
   */
  lemma TurnIsUnblocked(queue: seq<Issue>, all: seq<Issue>, out: seq<Issue>, i: nat)
    requires IsGraphOrder(queue, all, out) && i < |out|
    requires DistinctNumbers(all) && forall q :: q in queue ==> q in all
    requires out[i].number in Settled(GraphOf(queue, all).Deps())
    ensures var now := Close(all, NumbersOf(out)[..i]);
      && (forall d :: GraphOf(queue, all).MustPrecede(out[i].number, d) ==> d !in OpenNumbers(now))
      && (forall n, d :: BlockerOf(queue, all, out[i].number, n) && AsksFor(queue, all, out[i].number, n, d) ==>
          d !in OpenNumbers(now))
      && (forall c :: StandsIn(queue, all, out[i], c) ==> c.number !in OpenNumbers(now))
      && (forall n :: n in OpenBlockers(out[i], now) && n != out[i].number ==> n !in Numbers(queue))
  {
    var x, now := out[i].number, Close(all, NumbersOf(out)[..i]);
    PrecedersPlaced(GraphOf(queue, all), NumbersOf(out), i);
    QueuedBlockers(queue, all, out[i]);
    ClosedPreceders(GraphOf(queue, all), out[i], all, NumbersOf(out)[..i]);
    forall n, d | BlockerOf(queue, all, x, n) && AsksFor(queue, all, x, n, d) ensures d !in OpenNumbers(now) {
      AskedPrecedes(queue, all, x, n, d);
    }
    forall c | StandsIn(queue, all, out[i], c) ensures c.number !in OpenNumbers(now) {
      DeclaredBlocker(queue, all, out[i], c.parent.value);
      assert AsksFor(queue, all, x, c.parent.value, c.number);
    }
  }
}
