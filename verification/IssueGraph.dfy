/**
 The issue graph behind the dependency-ordered queue: what `orderGraph` reads
 off its two arguments, and which queue members must precede which.
 */
module IssueGraph {
  import opened Basics

  datatype Issue = Issue(number: int, open: bool, blockedBy: seq<int>, parent: Option<int>)

  function Numbers(issues: seq<Issue>): set<int> {
    set i | i in issues :: i.number
  }

  function OpenNumbers(issues: seq<Issue>): set<int> {
    set i | i in issues && i.open :: i.number
  }

  lemma NumbersExactly(issues: seq<Issue>, n: int)
    ensures n in Numbers(issues) <==> exists i :: i in issues && i.number == n
    ensures n in OpenNumbers(issues) <==> exists i :: i in issues && i.open && i.number == n
  {
  }

  predicate DistinctNumbers(issues: seq<Issue>) {
    forall i, j :: 0 <= i < j < |issues| ==> issues[i].number != issues[j].number
  }

  lemma NumbersSnoc(issues: seq<Issue>, k: nat)
    requires k < |issues|
    ensures Numbers(issues[..k + 1]) == Numbers(issues[..k]) + {issues[k].number}
    ensures Numbers(issues[..k + 1]) <= Numbers(issues)
  {
    assert issues[..k + 1] == issues[..k] + [issues[k]];
  }

  /** Issue `i` stands in the list, and none of its number before it. */
  ghost predicate IsFirst(issues: seq<Issue>, i: Issue) {
    exists k :: 0 <= k < |issues| && issues[k] == i && forall j :: 0 <= j < k ==> issues[j].number != i.number
  }

  /** Issue `i` stands in the list, and none of its number after it. */
  ghost predicate IsLast(issues: seq<Issue>, i: Issue) {
    exists k :: 0 <= k < |issues| && issues[k] == i && forall j :: k < j < |issues| ==> issues[j].number != i.number
  }

  function FirstWith(issues: seq<Issue>, n: int): (i: Issue)
    requires n in Numbers(issues)
    ensures i in issues && i.number == n
  {
    var last := |issues| - 1;
    if n in Numbers(issues[..last]) then FirstWith(issues[..last], n) else issues[last]
  }

  function LastWith(issues: seq<Issue>, n: int): (i: Issue)
    requires n in Numbers(issues)
    ensures i in issues && i.number == n
  {
    var last := |issues| - 1;
    if issues[last].number == n then issues[last] else LastWith(issues[..last], n)
  }

  lemma {:induction false} FirstIsFirst(issues: seq<Issue>, n: int) returns (k: nat)
    requires n in Numbers(issues)
    ensures k < |issues| && issues[k] == FirstWith(issues, n) && IsFirst(issues, issues[k])
    ensures forall j :: 0 <= j < k ==> issues[j].number != n
  {
    var last := |issues| - 1;
    var before := issues[..last];
    if n in Numbers(before) {
      k := FirstIsFirst(before, n);
      assert forall j :: 0 <= j <= k ==> issues[j] == before[j];
    } else {
      k := last;
      forall j | 0 <= j < last ensures issues[j].number != n { assert before[j] in before; }
    }
  }

  lemma {:induction false} LastIsLast(issues: seq<Issue>, n: int) returns (k: nat)
    requires n in Numbers(issues)
    ensures k < |issues| && issues[k] == LastWith(issues, n) && IsLast(issues, issues[k])
    ensures forall j :: k < j < |issues| ==> issues[j].number != n
  {
    var last := |issues| - 1;
    k := last;
    if issues[last].number != n {
      k := LastIsLast(issues[..last], n);
      forall j | k < j < |issues| ensures issues[j].number != n {
        assert j == last || issues[..last][j] == issues[j];
      }
    }
  }

  lemma DistinctLookup(issues: seq<Issue>, i: Issue, j: Issue)
    requires DistinctNumbers(issues) && i in issues && j in issues && i.number == j.number
    ensures i == j
  {
  }

  /** The numbers of the issues declaring `parent` as their parent, in queue order. */
  function ChildNumbers(queue: seq<Issue>, parent: int): (r: seq<int>)
    ensures forall n :: n in r <==> exists i :: i in queue && i.parent == Some(parent) && i.number == n
  {
    if queue == [] then []
    else
      var last := queue[|queue| - 1];
      var before := ChildNumbers(queue[..|queue| - 1], parent);
      assert queue == queue[..|queue| - 1] + [last];
      if last.parent == Some(parent) then before + [last.number] else before
  }

  datatype Graph = Graph(
    inQueue: set<int>,
    open: set<int>,
    blockedOf: map<int, seq<int>>,
    childrenOf: map<int, seq<int>>)
  {
    function Blockers(n: int): seq<int> {
      if n in blockedOf then blockedOf[n] else []
    }

    function Children(n: int): seq<int> {
      if n in childrenOf then childrenOf[n] else []
    }

    /** Blocker `n` is transparent on the walk from `x`: an open issue outside the queue. */
    predicate Passes(x: int, n: int) {
      n != x && n !in inQueue && n in open
    }

    /** Blocker `n` makes queue member `d` a predecessor of `x`: itself, or as a child of the retired bundle `n`. */
    predicate Yields(x: int, n: int, d: int) {
      && n != x
      && if n in inQueue then d == n else n !in open && d in Children(n) && d != x
    }

    ghost predicate Trail(x: int, p: seq<int>) {
      && |p| > 0 && p[0] == x
      && forall i :: 0 < i < |p| ==> p[i] in Blockers(p[i - 1]) && Passes(x, p[i])
    }

    /** `n` is reached from `x` by zero or more hops over transparent blockers. */
    ghost predicate Reaches(x: int, n: int) {
      exists p :: Trail(x, p) && p[|p| - 1] == n
    }

    ghost predicate YieldedFrom(x: int, m: int, d: int) {
      exists n :: n in Blockers(m) && Yields(x, n, d)
    }

    ghost predicate MustPrecede(x: int, d: int) {
      exists m :: Reaches(x, m) && YieldedFrom(x, m, d)
    }

    /** Every declared child is itself queued. */
    predicate ChildrenQueued() {
      forall p, c :: p in childrenOf && c in childrenOf[p] ==> c in inQueue
    }

    /** The dependencies among queue members. */
    ghost function Deps(): map<int, set<int>> {
      map x | x in inQueue :: set d | d in inQueue && MustPrecede(x, d)
    }
  }

  /** The blocked-by list that counts for `n`: the project's last issue of that number, else the queue's first. */
  function BlockedBy(queue: seq<Issue>, all: seq<Issue>, n: int): seq<int>
    requires n in Numbers(all) + Numbers(queue)
  {
    (if n in Numbers(all) then LastWith(all, n) else FirstWith(queue, n)).blockedBy
  }

  /** The lookup tables built from the queue and the project's issues. */
  function GraphOf(queue: seq<Issue>, all: seq<Issue>): (g: Graph)
    ensures g.ChildrenQueued()
  {
    Graph(
      Numbers(queue),
      OpenNumbers(all),
      map n | n in Numbers(all) + Numbers(queue) :: BlockedBy(queue, all, n),
      map p | p in Parents(queue) :: ChildNumbers(queue, p))
  }

  function Parents(queue: seq<Issue>): set<int> {
    set i | i in queue && i.parent.Some? :: i.parent.value
  }

  lemma ReachesSelf(g: Graph, x: int)
    ensures g.Reaches(x, x)
  {
    assert g.Trail(x, [x]);
  }

  lemma ReachesStep(g: Graph, x: int, m: int, n: int)
    requires g.Reaches(x, m) && n in g.Blockers(m) && g.Passes(x, n)
    ensures g.Reaches(x, n)
  {
    var p :| g.Trail(x, p) && p[|p| - 1] == m;
    assert g.Trail(x, p + [n]);
  }

  /** A set closed under transparent hops that holds `x` holds everything `x` reaches. */
  lemma ReachesInside(g: Graph, x: int, closed: set<int>, n: int)
    requires x in closed && g.Reaches(x, n)
    requires forall m, k :: m in closed && k in g.Blockers(m) && g.Passes(x, k) ==> k in closed
    ensures n in closed
  {
    var p :| g.Trail(x, p) && p[|p| - 1] == n;
    for i := 0 to |p| - 1
      invariant p[i] in closed
    {
      assert p[i + 1] in g.Blockers(p[i]) && g.Passes(x, p[i + 1]);
    }
  }

  /** A predecessor is always another queue member. */
  lemma PrecedesInQueue(g: Graph, x: int, d: int)
    requires g.ChildrenQueued() && g.MustPrecede(x, d)
    ensures d in g.inQueue && d != x
  {
  }
}
