// The dependency ordering of SgtSim/WeakOrder.h and SgtSim/WeakOrder.cc: a
// directed graph whose nodes learn, by depth-first search, which nodes they
// reach; dominance (reach without being reached back); and the rotation
// sort that moves dominating nodes forward.

module WeakOrder {

  // ------------------------------------------------ reachability

  /** Adjacency lists: to[i] are the targets of node i's links, in order. */
  type Adjacency = seq<seq<nat>>

  predicate EdgesInRange(to: Adjacency)
  {
    forall i, s :: 0 <= i < |to| && s in to[i] ==> s < |to|
  }

  /** A walk along links, of one or more nodes. */
  predicate IsPath(to: Adjacency, p: seq<nat>)
  {
    |p| >= 1 && (forall k :: 0 <= k < |p| ==> p[k] < |to|)
    && forall k :: 0 <= k < |p| - 1 ==> p[k] < |to| && p[k + 1] in to[p[k]]
  }

  /** b can be reached from a by following zero or more links. */
  ghost predicate Reach(to: Adjacency, a: nat, b: nat)
  {
    exists p :: IsPath(to, p) && p[0] == a && p[|p| - 1] == b
  }

  lemma ReachRefl(to: Adjacency, a: nat)
    requires a < |to|
    ensures Reach(to, a, a)
  {
    assert IsPath(to, [a]);
  }

  lemma ReachBounded(to: Adjacency, a: nat, b: nat)
    requires Reach(to, a, b)
    ensures a < |to| && b < |to|
  {
  }

  /** One link followed by a walk is a walk. */
  lemma ReachPrepend(to: Adjacency, a: nat, b: nat, c: nat)
    requires a < |to| && b in to[a] && Reach(to, b, c)
    ensures Reach(to, a, c)
  {
    var p :| IsPath(to, p) && p[0] == b && p[|p| - 1] == c;
    var q := [a] + p;
    assert forall k :: 0 <= k < |q| - 1 ==> q[k + 1] == p[k];
    assert IsPath(to, q);
  }

  /** Adding links keeps every walk a walk. */
  lemma ReachMonotone(to: Adjacency, to': Adjacency, a: nat, b: nat)
    requires |to'| == |to| && forall i :: 0 <= i < |to| ==> forall s :: s in to[i] ==> s in to'[i]
    requires Reach(to, a, b)
    ensures Reach(to', a, b)
  {
    var p :| IsPath(to, p) && p[0] == a && p[|p| - 1] == b;
    assert IsPath(to', p);
  }

  /** The DFS stack is a walk whose last node links to x. */
  predicate StackPath(to: Adjacency, stack: seq<nat>, x: nat)
  {
    (forall k :: 0 <= k < |stack| - 1 ==> stack[k] < |to| && stack[k + 1] in to[stack[k]])
    && (|stack| > 0 ==> stack[|stack| - 1] < |to| && x in to[stack[|stack| - 1]])
  }

  /** Pushing x keeps the stack a walk, now towards a target of x. */
  lemma StackPathPush(to: Adjacency, stack: seq<nat>, x: nat, s: nat)
    requires StackPath(to, stack, x) && x < |to| && s in to[x]
    ensures StackPath(to, stack + [x], s)
  {
    var st := stack + [x];
    forall k | 0 <= k < |st| - 1
      ensures st[k] < |to| && st[k + 1] in to[st[k]]
    {
      if k < |stack| - 1 {
        assert st[k] == stack[k] && st[k + 1] == stack[k + 1];
      } else {
        assert st[k] == stack[|stack| - 1] && st[k + 1] == x;
      }
    }
  }

  /** Every node on the stack reaches x. */
  lemma StackReaches(to: Adjacency, stack: seq<nat>, x: nat, idx: nat)
    requires StackPath(to, stack, x) && x < |to| && idx < |stack|
    requires forall j :: j in stack ==> j < |to|
    ensures Reach(to, stack[idx], x)
  {
    var p := stack[idx..] + [x];
    assert forall k :: 0 <= k < |p| ==> p[k] < |to|;
    forall k | 0 <= k < |p| - 1
      ensures p[k] < |to| && p[k + 1] in to[p[k]]
    {
      if idx + k + 1 < |stack| {
        assert p[k] == stack[idx + k] && p[k + 1] == stack[idx + k + 1];
      } else {
        assert p[k] == stack[|stack| - 1] && p[k + 1] == x;
      }
    }
    assert IsPath(to, p);
  }

  /** Every visited node off the stack has all its targets visited. */
  predicate Closed(to: Adjacency, visited: seq<bool>, stack: seq<nat>)
    requires |visited| == |to|
  {
    forall i :: 0 <= i < |to| && visited[i] && i !in stack ==> forall s :: s in to[i] ==> s < |to| && visited[s]
  }

  /** A set closed under links that holds x holds everything x reaches. */
  lemma ClosedHoldsReach(to: Adjacency, visited: seq<bool>, x: nat, y: nat)
    requires |visited| == |to| && Closed(to, visited, []) && x < |to| && visited[x] && Reach(to, x, y)
    ensures y < |to| && visited[y]
  {
    var p :| IsPath(to, p) && p[0] == x && p[|p| - 1] == y;
    PathStaysIn(to, visited, p, |p| - 1);
  }

  lemma {:induction false} PathStaysIn(to: Adjacency, visited: seq<bool>, p: seq<nat>, k: nat)
    requires |visited| == |to| && Closed(to, visited, []) && IsPath(to, p) && k < |p| && visited[p[0]]
    ensures visited[p[k]]
  {
    if k > 0 {
      PathStaysIn(to, visited, p, k - 1);
      assert p[k] in to[p[k - 1]];
    }
  }

  // ------------------------------------------------ visit bookkeeping

  function CountFalse(v: seq<bool>): nat
  {
    if |v| == 0 then 0 else CountFalse(v[..|v| - 1]) + (if v[|v| - 1] then 0 else 1)
  }

  /** Visiting more nodes never increases the count of unvisited ones. */
  lemma {:induction false} CountFalseMonotone(v0: seq<bool>, v1: seq<bool>)
    requires |v0| == |v1| && forall i :: 0 <= i < |v0| && v0[i] ==> v1[i]
    ensures CountFalse(v1) <= CountFalse(v0)
  {
    if |v0| > 0 {
      CountFalseMonotone(v0[..|v0| - 1], v1[..|v1| - 1]);
    }
  }

  /** Marking an unvisited node visited lowers the count. */
  lemma {:induction false} CountFalseMark(v: seq<bool>, x: nat)
    requires x < |v| && !v[x]
    ensures CountFalse(v[x := true]) < CountFalse(v)
  {
    var w := v[x := true];
    if x == |v| - 1 {
      assert w[..|w| - 1] == v[..|v| - 1];
    } else {
      assert w[..|w| - 1] == v[..|v| - 1][x := true];
      CountFalseMark(v[..|v| - 1], x);
    }
  }

  /** The nodes a step of the search visited for the first time. */
  function Newly(v0: seq<bool>, v1: seq<bool>): set<nat>
    requires |v0| == |v1|
  {
    set i: nat | i < |v1| && v1[i] && !v0[i]
  }

  /** Two stretches of the search, the second one a search below x, make
      one stretch with the same bookkeeping. */
  lemma ComposeVisits(n: nat, stack: seq<nat>, x: nat, v0: seq<bool>, vb: seq<bool>, v1: seq<bool>,
                      d0: seq<set<nat>>, db: seq<set<nat>>, d1: seq<set<nat>>)
    requires |v0| == |vb| == |v1| == |d0| == |db| == |d1| == n && x < n && !v0[x] && vb[x]
    requires forall j :: j in stack ==> j < n
    requires forall i :: 0 <= i < n && v0[i] ==> vb[i]
    requires forall i :: 0 <= i < n && vb[i] ==> v1[i]
    requires forall j :: 0 <= j < n ==> d0[j] <= db[j]
    requires forall j :: 0 <= j < n ==> db[j] <= d1[j]
    requires forall j :: j in stack ==> db[j] == d0[j] + Newly(v0, vb)
    requires db[x] == d0[x] + (Newly(v0, vb) - {x})
    requires forall j :: 0 <= j < n && j !in stack && v0[j] ==> db[j] == d0[j]
    requires forall j :: j in stack + [x] ==> d1[j] == db[j] + Newly(vb, v1)
    requires forall j :: 0 <= j < n && j !in stack + [x] && vb[j] ==> d1[j] == db[j]
    ensures forall i :: 0 <= i < n && v0[i] ==> v1[i]
    ensures forall j :: 0 <= j < n ==> d0[j] <= d1[j]
    ensures forall j :: j in stack ==> d1[j] == d0[j] + Newly(v0, v1)
    ensures d1[x] == d0[x] + (Newly(v0, v1) - {x})
    ensures forall j :: 0 <= j < n && j !in stack && v0[j] ==> d1[j] == d0[j]
  {
    assert Newly(v0, v1) == Newly(v0, vb) + Newly(vb, v1);
    assert x !in Newly(vb, v1);
    assert x in stack + [x];
    forall j | 0 <= j < n && j !in stack && v0[j]
      ensures d1[j] == d0[j]
    {
      assert j !in stack + [x];
    }
    forall j | j in stack
      ensures d1[j] == d0[j] + Newly(v0, v1)
    {
      assert j in stack + [x];
    }
  }

  /** What a search from a target of x visits, x reaches. */
  lemma ReachThroughTarget(to: Adjacency, x: nat, s: nat, vb: seq<bool>, v1: seq<bool>)
    requires x < |to| && s in to[x] && |vb| == |v1|
    requires forall i :: i in Newly(vb, v1) ==> Reach(to, s, i)
    ensures forall i :: i in Newly(vb, v1) ==> Reach(to, x, i)
  {
    forall i | i in Newly(vb, v1)
      ensures Reach(to, x, i)
    {
      ReachPrepend(to, x, s, i);
    }
  }

  /** Marking x visited and pushing it keeps the visited set closed off
      the stack. */
  lemma ClosedPush(to: Adjacency, v0: seq<bool>, v1: seq<bool>, stack: seq<nat>, x: nat)
    requires |v0| == |to| && x < |to| && v1 == v0[x := true] && Closed(to, v0, stack)
    ensures Closed(to, v1, stack + [x])
  {
    forall i | 0 <= i < |to| && v1[i] && i !in stack + [x]
      ensures forall s :: s in to[i] ==> s < |to| && v1[s]
    {
      assert i != x && v0[i] && i !in stack;
    }
  }

  /** Once all of x's targets are visited, popping x keeps the visited set
      closed off the stack. */
  lemma ClosedPop(to: Adjacency, v: seq<bool>, stack: seq<nat>, x: nat)
    requires |v| == |to| && x < |to| && Closed(to, v, stack + [x])
    requires forall kk :: 0 <= kk < |to[x]| ==> to[x][kk] < |v| && v[to[x][kk]]
    ensures Closed(to, v, stack)
  {
    forall i | 0 <= i < |to| && v[i] && i !in stack
      ensures forall s :: s in to[i] ==> s < |to| && v[s]
    {
      if i != x {
        assert i !in stack + [x];
      }
    }
  }

  /** Targets visited before a step stay visited, and the step's own
      target joins them. */
  lemma TargetsVisited(succ: seq<nat>, k: nat, vb: seq<bool>, v1: seq<bool>)
    requires k < |succ| && |vb| == |v1| && succ[k] < |v1| && v1[succ[k]]
    requires forall i :: 0 <= i < |vb| && vb[i] ==> v1[i]
    requires forall kk :: 0 <= kk < k ==> succ[kk] < |vb| && vb[succ[kk]]
    ensures forall kk :: 0 <= kk < k + 1 ==> succ[kk] < |v1| && v1[succ[kk]]
  {
  }

  /** Every recorded descendent is another node that is reachable. */
  ghost predicate Sound(to: Adjacency, desc: seq<set<nat>>)
  {
    forall j, y :: 0 <= j < |desc| && y in desc[j] ==> y != j && Reach(to, j, y)
  }

  /** The other nodes that x reaches. */
  ghost function ReachSet(to: Adjacency, x: nat): set<nat>
  {
    set y: nat | y < |to| && y != x && Reach(to, x, y)
  }

  /** The descendents of x that do not reach x back. */
  function DomSet(desc: seq<set<nat>>, x: nat): set<nat>
    requires x < |desc|
  {
    set y: nat | y in desc[x] && y < |desc| && x !in desc[y]
  }

  /** Taking y out of the unvisited rest adds y to the finished part of d
      exactly when y is in d. */
  lemma DomSetStep(d: set<nat>, rest: set<nat>, y: nat)
    requires y in rest
    ensures d - (rest - {y}) == (d - rest) + (if y in d then {y} else {})
  {
  }

  /** With sound descendents, dominance is irreflexive and asymmetric. */
  lemma DominanceStrict(to: Adjacency, desc: seq<set<nat>>, x: nat, y: nat)
    requires Sound(to, desc) && x < |desc| && y < |desc|
    ensures x !in DomSet(desc, x)
    ensures y in DomSet(desc, x) ==> x !in DomSet(desc, y)
  {
  }

  // ------------------------------------------------ the rotation sort

  predicate Dominates(dom: seq<set<nat>>, a: nat, b: nat)
  {
    a < |dom| && b in dom[a]
  }

  /** `operator<`: a goes before b if it dominates b, or if neither
      dominates the other and its index is lower. */
  predicate NodeLess(dom: seq<set<nat>>, a: nat, b: nat)
  {
    Dominates(dom, a, b) || (!Dominates(dom, b, a) && a < b)
  }

  /** With asymmetric dominance, of two distinct nodes exactly one goes
      before the other (the relation need not be transitive). */
  lemma NodeLessTournament(dom: seq<set<nat>>, a: nat, b: nat)
    requires !Dominates(dom, a, a) && !(Dominates(dom, a, b) && Dominates(dom, b, a))
    ensures !NodeLess(dom, a, a)
    ensures a != b ==> (NodeLess(dom, a, b) <==> !NodeLess(dom, b, a))
  {
  }

  /** Move s[j] to position i, shifting s[i..j] one place on. */
  function Rotate(s: seq<nat>, i: nat, j: nat): (r: seq<nat>)
    requires i <= j < |s|
    ensures |r| == |s| && r[i] == s[j]
  {
    s[..i] + [s[j]] + s[i..j] + s[j + 1..]
  }

  /** A rotation only reorders. */
  lemma RotatePermutes(s: seq<nat>, i: nat, j: nat)
    requires i <= j < |s|
    ensures multiset(Rotate(s, i, j)) == multiset(s)
  {
    assert s == s[..i] + s[i..j] + [s[j]] + s[j + 1..];
  }

  /** The inner loop for position i, from j on: each later node that
      dominates the node now at i is rotated into position i. */
  function InnerPass(s: seq<nat>, i: nat, j: nat, dom: seq<set<nat>>): (r: seq<nat>)
    requires i < j <= |s|
    ensures |r| == |s|
    decreases |s| - j
  {
    if j == |s| then s
    else InnerPass(if Dominates(dom, s[j], s[i]) then Rotate(s, i, j) else s, i, j + 1, dom)
  }

  /** The outer loop from position i on. */
  function SortFrom(s: seq<nat>, i: nat, dom: seq<set<nat>>): (r: seq<nat>)
    requires i <= |s|
    ensures |r| == |s|
    decreases |s| - i
  {
    if i == |s| then s
    else SortFrom(InnerPass(s, i, i + 1, dom), i + 1, dom)
  }

  /** The inner loop only reorders. */
  lemma {:induction false} InnerPassPermutes(s: seq<nat>, i: nat, j: nat, dom: seq<set<nat>>)
    requires i < j <= |s|
    ensures multiset(InnerPass(s, i, j, dom)) == multiset(s)
    decreases |s| - j, 1
  {
    if j == |s| {
      assert InnerPass(s, i, j, dom) == s;
    } else if Dominates(dom, s[j], s[i]) {
      RotatedPassPermutes(s, i, j, dom);
    } else {
      assert InnerPass(s, i, j, dom) == InnerPass(s, i, j + 1, dom);
      InnerPassPermutes(s, i, j + 1, dom);
    }
  }

  /** The inner loop's step that rotates s[j] into position i. */
  lemma {:induction false} RotatedPassPermutes(s: seq<nat>, i: nat, j: nat, dom: seq<set<nat>>)
    requires i < j < |s| && Dominates(dom, s[j], s[i])
    ensures multiset(InnerPass(s, i, j, dom)) == multiset(s)
    decreases |s| - j, 0
  {
    var t := Rotate(s, i, j);
    assert InnerPass(s, i, j, dom) == InnerPass(t, i, j + 1, dom);
    RotatePermutes(s, i, j);
    InnerPassPermutes(t, i, j + 1, dom);
  }

  /** The rotation sort is a permutation of its input. */
  lemma {:induction false} SortFromPermutes(s: seq<nat>, i: nat, dom: seq<set<nat>>)
    requires i <= |s|
    ensures multiset(SortFrom(s, i, dom)) == multiset(s)
    decreases |s| - i
  {
    if i < |s| {
      InnerPassPermutes(s, i, i + 1, dom);
      SortFromPermutes(InnerPass(s, i, i + 1, dom), i + 1, dom);
    }
  }

  /** One neighbour swap moves s[j] one place further down. */
  lemma SwapStep(s: seq<nat>, i: nat, j: nat, m: nat)
    requires i < m <= j < |s|
    ensures var a := s[..m] + [s[j]] + s[m..j] + s[j + 1..];
            a[m := a[m - 1]][m - 1 := a[m]] == s[..m - 1] + [s[j]] + s[m - 1..j] + s[j + 1..]
  {
    var a := s[..m] + [s[j]] + s[m..j] + s[j + 1..];
    var b := s[..m - 1] + [s[j]] + s[m - 1..j] + s[j + 1..];
    var c := a[m := a[m - 1]][m - 1 := a[m]];
    assert |c| == |b|;
    forall k | 0 <= k < |b|
      ensures c[k] == b[k]
    {
      if k < m - 1 {
      } else if k == m - 1 {
      } else if k == m {
      } else if k <= j {
        assert a[k] == s[k - 1] == b[k];
      } else {
        assert a[k] == s[k] == b[k];
      }
    }
  }

  /** The identity ordering 0, 1, ..., n-1. */
  function Indices(n: nat): (r: seq<nat>)
    ensures |r| == n && forall k :: 0 <= k < n ==> r[k] == k
  {
    seq(n, k => k)
  }

  /** A reordering of 0..n-1 holds exactly the indices below n. */
  lemma IndexPermutation(s: seq<nat>)
    requires multiset(s) == multiset(Indices(|s|))
    ensures forall k :: 0 <= k < |s| ==> s[k] < |s|
    ensures forall x: nat :: x < |s| ==> x in s
  {
    forall k | 0 <= k < |s|
      ensures s[k] < |s|
    {
      assert s[k] in multiset(Indices(|s|));
    }
    forall x: nat | x < |s|
      ensures x in s
    {
      assert Indices(|s|)[x] == x;
      assert x in multiset(Indices(|s|));
    }
  }

  /** IndexPermutation for a sequence that may not be a reordering. */
  lemma ListsIndices(s: seq<nat>)
    ensures multiset(s) == multiset(Indices(|s|)) ==> forall x: nat :: x < |s| ==> x in s
  {
    if multiset(s) == multiset(Indices(|s|)) {
      IndexPermutation(s);
    }
  }

  // ------------------------------------------------ the graph

  class WoGraph {
    /** `to_` of each node, by node index. */
    var to: Adjacency
    var visited: seq<bool>
    var descendents: seq<set<nat>>
    var dominated: seq<set<nat>>
    /** `nodes_`: the node indices in their current order. */
    const nodes: array<nat>

    ghost predicate Valid()
      reads this, nodes
    {
      |to| == |visited| == |descendents| == |dominated| == nodes.Length
      && EdgesInRange(to) && Sound(to, descendents)
      && multiset(nodes[..]) == multiset(Indices(nodes.Length))
    }

    /** `size()`: the number of nodes; in a valid graph every node index
        below it is listed in the order and has an out-list. */
    function Size(): (r: nat)
      reads this, nodes
      ensures Valid() ==> r == |to| && forall x: nat :: x < r ==> x in nodes[..]
    {
      ListsIndices(nodes[..]);
      nodes.Length
    }

    /** n nodes with indices 0..n-1 in order, no links, nothing visited. */
    constructor(n: nat)
      ensures Valid() && fresh(nodes) && nodes[..] == Indices(n)
      ensures to == seq(n, _ => []) && visited == seq(n, _ => false)
      ensures descendents == seq(n, _ => {}) && dominated == seq(n, _ => {})
    {
      to := seq(n, _ => []);
      visited := seq(n, _ => false);
      descendents := seq(n, _ => {});
      dominated := seq(n, _ => {});
      var a := new nat[n](k => k);
      assert a[..] == Indices(n);
      nodes := a;
    }

    /** precedes: nd is a recorded descendent. */
    function Precedes(a: nat, b: nat): (r: bool)
      reads this
      requires a < |descendents|
      ensures r <==> b in descendents[a]
    {
      b in descendents[a]
    }

    /** link: one more edge from `from` to `t`, appended to from's list. */
    method Link(from: nat, t: nat)
      requires Valid() && from < |to| && t < |to|
      modifies this
      ensures Valid()
      ensures to == old(to)[from := old(to)[from] + [t]]
      ensures visited == old(visited) && descendents == old(descendents) && dominated == old(dominated)
    {
      var to' := to[from := to[from] + [t]];
      forall j, y | 0 <= j < |descendents| && y in descendents[j]
        ensures Reach(to', j, y)
      {
        ReachMonotone(to, to', j, y);
      }
      to := to';
    }

    /** dfs: visit x unless already visited; record x as a descendent of
        every node on the stack; search x's targets with x pushed. */
    method Dfs(x: nat, stack: seq<nat>)
      requires Valid() && x < |to|
      requires forall j :: j in stack ==> j < |to| && visited[j]
      requires StackPath(to, stack, x)
      requires Closed(to, visited, stack)
      modifies this
      decreases CountFalse(visited), 2
      ensures Valid() && to == old(to) && dominated == old(dominated)
      ensures |visited| == |old(visited)| && visited[x]
      ensures forall i :: 0 <= i < |visited| && old(visited)[i] ==> visited[i]
      ensures forall i :: i in Newly(old(visited), visited) ==> Reach(to, x, i)
      ensures Closed(to, visited, stack)
      ensures forall j :: 0 <= j < |to| ==> old(descendents)[j] <= descendents[j]
      ensures forall j :: j in stack ==> descendents[j] == old(descendents)[j] + Newly(old(visited), visited)
      ensures forall j :: 0 <= j < |to| && j !in stack && old(visited)[j] ==> descendents[j] == old(descendents)[j]
      ensures !old(visited)[x] ==> descendents[x] == old(descendents)[x] + (Newly(old(visited), visited) - {x})
    {
      if visited[x] {
        assert Newly(old(visited), visited) == {};
        return;
      }
      ghost var v0, d0 := visited, descendents;
      CountFalseMark(visited, x);
      visited := visited[x := true];
      AddToStack(x, stack, v0, d0);
      VisitTargets(x, stack, v0, d0);
    }

    /** The state of a search below x while x is on the stack: what it has
        visited since x was first visited, x reaches; the visited nodes off
        the stack are closed; every node on the stack, x included, has
        gained exactly those nodes as descendents, and no other node visited
        before x has changed. */
    ghost predicate Searching(x: nat, stack: seq<nat>, v0: seq<bool>, d0: seq<set<nat>>)
      reads this, nodes
    {
      Valid() && x < |to| && |v0| == |to| && |d0| == |to| && !v0[x] && visited[x]
      && (forall i :: 0 <= i < |v0| && v0[i] ==> visited[i])
      && (forall j :: j in stack ==> j < |to| && v0[j])
      && StackPath(to, stack, x)
      && (forall i :: i in Newly(v0, visited) ==> Reach(to, x, i))
      && Closed(to, visited, stack + [x])
      && CountFalse(visited) < CountFalse(v0)
      && (forall j :: 0 <= j < |to| ==> d0[j] <= descendents[j])
      && (forall j :: j in stack ==> descendents[j] == d0[j] + Newly(v0, visited))
      && descendents[x] == d0[x] + (Newly(v0, visited) - {x})
      && (forall j :: 0 <= j < |to| && j !in stack && v0[j] ==> descendents[j] == d0[j])
    }

    /** The loop over x's targets, with x pushed on the stack. */
    method VisitTargets(x: nat, stack: seq<nat>, ghost v0: seq<bool>, ghost d0: seq<set<nat>>)
      requires Valid() && x < |to| && |v0| == |to| && !v0[x] && visited == v0[x := true]
      requires forall j :: j in stack ==> j < |to| && v0[j]
      requires StackPath(to, stack, x)
      requires Closed(to, v0, stack)
      requires |d0| == |to| && forall j :: 0 <= j < |to| ==> descendents[j] == if j in stack then d0[j] + {x} else d0[j]
      requires CountFalse(visited) < CountFalse(v0)
      modifies this
      decreases CountFalse(v0), 1
      ensures Valid() && to == old(to) && dominated == old(dominated)
      ensures |visited| == |v0| && visited[x]
      ensures forall i :: 0 <= i < |visited| && v0[i] ==> visited[i]
      ensures forall i :: i in Newly(v0, visited) ==> Reach(to, x, i)
      ensures Closed(to, visited, stack)
      ensures forall j :: 0 <= j < |to| ==> d0[j] <= descendents[j]
      ensures forall j :: j in stack ==> descendents[j] == d0[j] + Newly(v0, visited)
      ensures forall j :: 0 <= j < |to| && j !in stack && v0[j] ==> descendents[j] == d0[j]
      ensures descendents[x] == d0[x] + (Newly(v0, visited) - {x})
    {
      StartSearch(x, stack, v0, d0);
      var succ := to[x];
      for k := 0 to |succ|
        invariant Searching(x, stack, v0, d0) && to == old(to) && dominated == old(dominated)
        invariant forall kk :: 0 <= kk < k ==> succ[kk] < |visited| && visited[succ[kk]]
      {
        ghost var vb := visited;
        VisitOne(x, stack, succ[k], v0, d0);
        TargetsVisited(succ, k, vb, visited);
      }
      EndSearch(x, stack, v0, d0);
    }

    /** With x marked and pushed, the search state holds before any target is visited. */
    lemma StartSearch(x: nat, stack: seq<nat>, v0: seq<bool>, d0: seq<set<nat>>)
      requires Valid() && x < |to| && |v0| == |to| && !v0[x] && visited == v0[x := true]
      requires forall j :: j in stack ==> j < |to| && v0[j]
      requires StackPath(to, stack, x)
      requires Closed(to, v0, stack)
      requires |d0| == |to| && forall j :: 0 <= j < |to| ==> descendents[j] == if j in stack then d0[j] + {x} else d0[j]
      requires CountFalse(visited) < CountFalse(v0)
      ensures Searching(x, stack, v0, d0)
    {
      assert Newly(v0, visited) == {x};
      ClosedPush(to, v0, visited, stack, x);
      assert x in stack + [x];
      assert forall j :: j in stack ==> j in stack + [x];
    }

    /** Once every target of x is visited, x can be popped: the visited set is closed
        under the remaining stack. */
    lemma EndSearch(x: nat, stack: seq<nat>, v0: seq<bool>, d0: seq<set<nat>>)
      requires Searching(x, stack, v0, d0)
      requires forall kk :: 0 <= kk < |to[x]| ==> to[x][kk] < |visited| && visited[to[x][kk]]
      ensures Valid() && |visited| == |v0| && visited[x]
      ensures forall i :: 0 <= i < |visited| && v0[i] ==> visited[i]
      ensures forall i :: i in Newly(v0, visited) ==> Reach(to, x, i)
      ensures Closed(to, visited, stack)
      ensures forall j :: 0 <= j < |to| ==> d0[j] <= descendents[j]
      ensures forall j :: j in stack ==> descendents[j] == d0[j] + Newly(v0, visited)
      ensures forall j :: 0 <= j < |to| && j !in stack && v0[j] ==> descendents[j] == d0[j]
      ensures descendents[x] == d0[x] + (Newly(v0, visited) - {x})
    {
      ClosedPop(to, visited, stack, x);
    }

    /** One iteration: the search from a target s of x, with x pushed. */
    method VisitOne(x: nat, stack: seq<nat>, s: nat, ghost v0: seq<bool>, ghost d0: seq<set<nat>>)
      requires Searching(x, stack, v0, d0) && s in to[x]
      modifies this
      decreases CountFalse(v0), 0
      ensures Searching(x, stack, v0, d0) && to == old(to) && dominated == old(dominated)
      ensures |visited| == |old(visited)| && s < |visited| && visited[s]
      ensures forall i :: 0 <= i < |visited| && old(visited)[i] ==> visited[i]
    {
      ghost var vb, db := visited, descendents;
      CountFalseMonotone(v0, vb);
      StackPathPush(to, stack, x, s);
      assert forall j :: j in stack + [x] ==> j < |to| && visited[j];
      Dfs(s, stack + [x]);
      ReachThroughTarget(to, x, s, vb, visited);
      ComposeVisits(|to|, stack, x, v0, vb, visited, d0, db, descendents);
      CountFalseMonotone(vb, visited);
    }

    /** The first visit of x records it among the descendents of every
        node on the stack. */
    method AddToStack(x: nat, stack: seq<nat>, ghost v0: seq<bool>, ghost d0: seq<set<nat>>)
      requires |to| == |visited| == |descendents| == |dominated| == nodes.Length
      requires EdgesInRange(to) && Sound(to, descendents) && multiset(nodes[..]) == multiset(Indices(nodes.Length))
      requires x < |to| && StackPath(to, stack, x) && |v0| == |to| && !v0[x]
      requires forall j :: j in stack ==> j < |to| && v0[j]
      requires d0 == descendents
      modifies this
      ensures Valid() && to == old(to) && dominated == old(dominated) && visited == old(visited)
      ensures forall j :: 0 <= j < |to| ==> descendents[j] == if j in stack then d0[j] + {x} else d0[j]
    {
      for k := 0 to |stack|
        invariant to == old(to) && visited == old(visited) && dominated == old(dominated)
        invariant |descendents| == |d0| == |to| && Sound(to, descendents)
        invariant forall j :: 0 <= j < |to| ==> descendents[j] == if j in stack[..k] then d0[j] + {x} else d0[j]
      {
        StackReaches(to, stack, x, k);
        assert stack[k] != x;
        descendents := descendents[stack[k] := descendents[stack[k]] + {x}];
        assert stack[..k + 1] == stack[..k] + [stack[k]];
      }
      assert stack[..|stack|] == stack;
    }

    /** The first phase of weakOrder: a search from every node, with the
        visited flags cleared after each. Afterwards each node's
        descendents are exactly the other nodes it reaches. */
    method ComputeDescendents()
      requires Valid()
      modifies this
      ensures Valid() && to == old(to) && dominated == old(dominated)
      ensures forall x :: 0 <= x < |to| ==> descendents[x] == ReachSet(to, x)
    {
      IndexPermutation(nodes[..]);
      ClearVisited();
      for k := 0 to nodes.Length
        invariant Valid() && to == old(to) && dominated == old(dominated)
        invariant visited == seq(|to|, _ => false)
        invariant forall kk :: 0 <= kk < k ==> ReachSet(to, nodes[kk]) <= descendents[nodes[kk]]
      {
        var r := nodes[k];
        ghost var v1 := visited;
        Dfs(r, []);
        forall y | y in ReachSet(to, r)
          ensures y in descendents[r]
        {
          ClosedHoldsReach(to, visited, r, y);
          assert y in Newly(v1, visited);
        }
        ClearVisited();
      }
      forall x | 0 <= x < |to|
        ensures descendents[x] == ReachSet(to, x)
      {
        assert x in nodes[..];
      }
    }

    /** Resets every node's visited flag, walking the node vector. */
    method ClearVisited()
      requires Valid()
      modifies this
      ensures Valid() && visited == seq(|to|, _ => false)
      ensures to == old(to) && descendents == old(descendents) && dominated == old(dominated)
    {
      IndexPermutation(nodes[..]);
      for k := 0 to nodes.Length
        invariant Valid() && to == old(to) && descendents == old(descendents) && dominated == old(dominated)
        invariant forall kk :: 0 <= kk < k ==> !visited[nodes[kk]]
      {
        visited := visited[nodes[k] := false];
      }
      forall i | 0 <= i < |visited|
        ensures !visited[i]
      {
        assert i in nodes[..];
      }
    }

    /** The second phase: each node dominates the descendents that do not
        reach it back. */
    method ComputeDominance()
      requires Valid()
      modifies this
      ensures Valid() && to == old(to) && descendents == old(descendents) && visited == old(visited)
      ensures forall x :: 0 <= x < |to| ==> dominated[x] == old(dominated)[x] + DomSet(descendents, x)
    {
      IndexPermutation(nodes[..]);
      for k := 0 to nodes.Length
        invariant Valid() && to == old(to) && descendents == old(descendents) && visited == old(visited)
        invariant forall x :: 0 <= x < |to| ==>
                    dominated[x] == old(dominated)[x] + (if x in nodes[..k] then DomSet(descendents, x) else {})
      {
        DominateFrom(nodes[k]);
        assert nodes[..k + 1] == nodes[..k] + [nodes[k]];
      }
      assert nodes[..nodes.Length] == nodes[..];
      forall x | 0 <= x < |to|
        ensures x in nodes[..]
      {
      }
    }

    /** One node's pass over its descendents, collecting the ones it
        dominates into its dominated set. */
    method DominateFrom(nd: nat)
      requires Valid() && nd < |to|
      modifies this
      ensures Valid() && to == old(to) && descendents == old(descendents) && visited == old(visited)
      ensures dominated == old(dominated)[nd := old(dominated)[nd] + DomSet(descendents, nd)]
    {
      var rest := descendents[nd];
      var acc := dominated[nd];
      while rest != {}
        invariant to == old(to) && descendents == old(descendents) && visited == old(visited) && dominated == old(dominated)
        invariant rest <= descendents[nd]
        invariant acc == dominated[nd] + (DomSet(descendents, nd) - rest)
        decreases |rest|
      {
        var y :| y in rest;
        ReachBounded(to, nd, y);
        DomSetStep(DomSet(descendents, nd), rest, y);
        if nd !in descendents[y] {
          acc := acc + {y};
        }
        rest := rest - {y};
      }
      assert DomSet(descendents, nd) - rest == DomSet(descendents, nd);
      dominated := dominated[nd := acc];
    }

    /** The third phase: the rotation sort of the node vector. */
    method SortNodes()
      requires Valid()
      modifies nodes
      ensures Valid() && nodes[..] == SortFrom(old(nodes[..]), 0, dominated)
    {
      ghost var s0 := nodes[..];
      for i1 := 0 to nodes.Length
        invariant SortFrom(nodes[..], i1, dominated) == SortFrom(s0, 0, dominated)
        invariant multiset(nodes[..]) == multiset(s0)
      {
        InnerSortPass(i1);
      }
    }

    /** One pass of the outer loop: every later node that dominates nodes[i1] is rotated
        into position i1, in turn. */
    method InnerSortPass(i1: nat)
      requires i1 < nodes.Length
      modifies nodes
      ensures nodes[..] == InnerPass(old(nodes[..]), i1, i1 + 1, dominated)
      ensures multiset(nodes[..]) == multiset(old(nodes[..]))
    {
      ghost var si := nodes[..];
      for i2 := i1 + 1 to nodes.Length
        invariant InnerPass(nodes[..], i1, i2, dominated) == InnerPass(si, i1, i1 + 1, dominated)
        invariant multiset(nodes[..]) == multiset(si)
      {
        if Dominates(dominated, nodes[i2], nodes[i1]) {
          RotatePermutes(nodes[..], i1, i2);
          RotateInto(i1, i2);
        }
      }
    }

    /** Swap nodes[i2] down to position i1, one neighbour at a time. */
    method RotateInto(i1: nat, i2: nat)
      requires i1 <= i2 < nodes.Length
      modifies nodes
      ensures nodes[..] == Rotate(old(nodes[..]), i1, i2)
    {
      ghost var s := nodes[..];
      var i3 := i2;
      while i3 != i1
        invariant i1 <= i3 <= i2
        invariant nodes[..] == s[..i3] + [s[i2]] + s[i3..i2] + s[i2 + 1..]
        decreases i3
      {
        ghost var a := nodes[..];
        nodes[i3], nodes[i3 - 1] := nodes[i3 - 1], nodes[i3];
        assert nodes[..] == a[i3 := a[i3 - 1]][i3 - 1 := a[i3]];
        SwapStep(s, i1, i2, i3);
        i3 := i3 - 1;
      }
    }

    /** weakOrder: descendents, then dominance, then the sort. Afterwards a
        node precedes exactly the other nodes it reaches, dominates exactly
        those that do not reach it back, and the node vector is the rotation
        sort of its old order. */
    method WeakOrder()
      requires Valid()
      modifies this, nodes
      ensures Valid() && to == old(to)
      ensures forall x :: 0 <= x < |to| ==> descendents[x] == ReachSet(to, x)
      ensures forall x :: 0 <= x < |to| ==> dominated[x] == old(dominated)[x] + DomSet(descendents, x)
      ensures nodes[..] == SortFrom(old(nodes[..]), 0, dominated)
    {
      ComputeDescendents();
      ComputeDominance();
      SortNodes();
    }
  }
}

module WeakOrderExample {
  import opened WeakOrder

  /** The links 3->1, 4->1, 0->4, 1->0, 1->2, 0->5, 5->2 as adjacency. */
  function ExampleTo(): Adjacency
  {
    [[4, 5], [0, 2], [], [1], [1], [2]]
  }

  /** A set S of nodes reached from x is all of x's reach when S, x
      included, is closed under links. */
  lemma ReachSetIs(to: Adjacency, x: nat, s: set<nat>, v: seq<bool>)
    requires x < |to| && |v| == |to| && Closed(to, v, []) && v[x]
    requires forall y :: y in s ==> y < |to| && y != x && Reach(to, x, y)
    requires forall y :: 0 <= y < |to| && v[y] && y != x ==> y in s
    ensures ReachSet(to, x) == s
  {
    forall y | y in ReachSet(to, x)
      ensures y in s
    {
      ClosedHoldsReach(to, v, x, y);
    }
  }

  /** The closed sets used below: everything; all but 3; 2 and 5; 2. */
  lemma ExampleClosedAll()
    ensures Closed(ExampleTo(), [true, true, true, true, true, true], [])
  {
  }

  lemma ExampleClosedWithout3()
    ensures Closed(ExampleTo(), [true, true, true, false, true, true], [])
  {
  }

  lemma ExampleClosedSinks()
    ensures Closed(ExampleTo(), [false, false, true, false, false, true], [])
    ensures Closed(ExampleTo(), [false, false, true, false, false, false], [])
  {
  }

  /** 2 reaches nothing, 5 reaches only 2. */
  lemma ExampleSinkReach()
    ensures ReachSet(ExampleTo(), 2) == {}
    ensures ReachSet(ExampleTo(), 5) == {2}
  {
    var to := ExampleTo();
    ReachRefl(to, 2);
    ReachPrepend(to, 5, 2, 2);
    ExampleClosedSinks();
    ReachSetIs(to, 2, {}, [false, false, true, false, false, false]);
    ReachSetIs(to, 5, {2}, [false, false, true, false, false, true]);
  }

  /** 0 reaches 4, 1, 5 and 2, but not 3. */
  lemma ExampleReach0()
    ensures ReachSet(ExampleTo(), 0) == {1, 2, 4, 5}
  {
    var to := ExampleTo();
    ReachRefl(to, 2);
    ReachPrepend(to, 5, 2, 2);
    ReachPrepend(to, 0, 5, 2);
    ReachRefl(to, 5);
    ReachPrepend(to, 0, 5, 5);
    ReachRefl(to, 1);
    ReachPrepend(to, 4, 1, 1);
    ReachPrepend(to, 0, 4, 1);
    ReachRefl(to, 4);
    ReachPrepend(to, 0, 4, 4);
    ExampleClosedWithout3();
    ReachSetIs(to, 0, {1, 2, 4, 5}, [true, true, true, false, true, true]);
  }

  /** 1 reaches 0 and what 0 reaches. */
  lemma ExampleReach1()
    ensures ReachSet(ExampleTo(), 1) == {0, 2, 4, 5}
  {
    var to := ExampleTo();
    ExampleReach0();
    ReachRefl(to, 0);
    forall y | y in {0, 2, 4, 5}
      ensures Reach(to, 1, y)
    {
      assert y == 0 || y in ReachSet(to, 0);
      ReachPrepend(to, 1, 0, y);
    }
    ExampleClosedWithout3();
    ReachSetIs(to, 1, {0, 2, 4, 5}, [true, true, true, false, true, true]);
  }

  /** 4 reaches 1 and what 1 reaches. */
  lemma ExampleReach4()
    ensures ReachSet(ExampleTo(), 4) == {0, 1, 2, 5}
  {
    var to := ExampleTo();
    ExampleReach1();
    ReachRefl(to, 1);
    forall y | y in {0, 1, 2, 5}
      ensures Reach(to, 4, y)
    {
      assert y == 1 || y in ReachSet(to, 1);
      ReachPrepend(to, 4, 1, y);
    }
    ExampleClosedWithout3();
    ReachSetIs(to, 4, {0, 1, 2, 5}, [true, true, true, false, true, true]);
  }

  /** 3 reaches every other node, through 1. */
  lemma ExampleReach3()
    ensures ReachSet(ExampleTo(), 3) == {0, 1, 2, 4, 5}
  {
    var to := ExampleTo();
    ExampleReach1();
    ReachRefl(to, 1);
    forall y | y in {0, 1, 2, 4, 5}
      ensures Reach(to, 3, y)
    {
      assert y == 1 || y in ReachSet(to, 1);
      ReachPrepend(to, 3, 1, y);
    }
    ExampleClosedAll();
    ReachSetIs(to, 3, {0, 1, 2, 4, 5}, [true, true, true, true, true, true]);
  }

  /** The descendents every node of the example records. */
  function ExampleDescendents(): seq<set<nat>>
  {
    [{1, 2, 4, 5}, {0, 2, 4, 5}, {}, {0, 1, 2, 4, 5}, {0, 1, 2, 5}, {2}]
  }

  /** The search records exactly the nodes each node reaches. */
  lemma ExampleDescendentsAreReach()
    ensures forall x :: 0 <= x < 6 ==> ReachSet(ExampleTo(), x) == ExampleDescendents()[x]
  {
    ExampleReach0();
    ExampleReach1();
    ExampleSinkReach();
    ExampleReach3();
    ExampleReach4();
  }

  /** Dominance in the example: 3 dominates every other node, the cycle
      nodes 0, 1 and 4 dominate 5 and 2 but not each other, 5 dominates 2. */
  lemma ExampleDominance()
    ensures DomSet(ExampleDescendents(), 0) == {2, 5}
    ensures DomSet(ExampleDescendents(), 1) == {2, 5}
    ensures DomSet(ExampleDescendents(), 2) == {}
    ensures DomSet(ExampleDescendents(), 3) == {0, 1, 2, 4, 5}
    ensures DomSet(ExampleDescendents(), 4) == {2, 5}
    ensures DomSet(ExampleDescendents(), 5) == {2}
  {
    var d := ExampleDescendents();
    assert 0 in d[1] && 0 in d[4] && 1 in d[0] && 1 in d[4] && 4 in d[0] && 4 in d[1];
  }

  function ExampleDominated(): seq<set<nat>>
  {
    [{2, 5}, {2, 5}, {}, {0, 1, 2, 4, 5}, {2, 5}, {2}]
  }

  /** One step of the inner loop when s[j] does not dominate s[i]. */
  lemma InnerSkip(s: seq<nat>, i: nat, j: nat, dom: seq<set<nat>>)
    requires i < j < |s| && !Dominates(dom, s[j], s[i])
    ensures InnerPass(s, i, j, dom) == InnerPass(s, i, j + 1, dom)
  {
  }

  /** One step of the inner loop when s[j] dominates s[i]. */
  lemma InnerRotate(s: seq<nat>, i: nat, j: nat, dom: seq<set<nat>>)
    requires i < j < |s| && Dominates(dom, s[j], s[i])
    ensures InnerPass(s, i, j, dom) == InnerPass(Rotate(s, i, j), i, j + 1, dom)
  {
  }

  /** The rotation sort of 0..5 under the example's dominance: 3 is
      rotated to the front, then 4 and 5 ahead of 2. */
  lemma ExampleSortSteps(dom: seq<set<nat>>, s0: seq<nat>, s1: seq<nat>, s2: seq<nat>, s3: seq<nat>)
    requires dom == ExampleDominated()
    requires s0 == [0, 1, 2, 3, 4, 5] && s1 == [3, 0, 1, 2, 4, 5]
    requires s2 == [3, 0, 1, 4, 2, 5] && s3 == [3, 0, 1, 4, 5, 2]
    ensures SortFrom(s0, 0, dom) == s3
  {
    ExamplePass0(dom, s0, s1);
    ExamplePassKept(dom, s1);
    ExamplePass3(dom, s1, s2);
    ExamplePass4(dom, s2, s3);
    assert SortFrom(s0, 0, dom) == SortFrom(s1, 1, dom);
    assert SortFrom(s1, 1, dom) == SortFrom(s1, 2, dom);
    assert SortFrom(s1, 2, dom) == SortFrom(s1, 3, dom);
    assert SortFrom(s1, 3, dom) == SortFrom(s2, 4, dom);
    assert SortFrom(s2, 4, dom) == SortFrom(s3, 5, dom);
    assert SortFrom(s3, 5, dom) == SortFrom(s3, 6, dom);
  }

  /** Position 0: 3 dominates 0 and is rotated forward; nothing dominates 3. */
  lemma ExamplePass0(dom: seq<set<nat>>, s0: seq<nat>, s1: seq<nat>)
    requires dom == ExampleDominated()
    requires s0 == [0, 1, 2, 3, 4, 5] && s1 == [3, 0, 1, 2, 4, 5]
    ensures InnerPass(s0, 0, 1, dom) == s1
  {
    assert Rotate(s0, 0, 3) == s1;
    InnerSkip(s0, 0, 1, dom);
    InnerSkip(s0, 0, 2, dom);
    InnerRotate(s0, 0, 3, dom);
    InnerSkip(s1, 0, 4, dom);
    InnerSkip(s1, 0, 5, dom);
  }

  /** Positions 1 and 2: nothing later dominates 0 or 1. */
  lemma ExamplePassKept(dom: seq<set<nat>>, s1: seq<nat>)
    requires dom == ExampleDominated() && s1 == [3, 0, 1, 2, 4, 5]
    ensures InnerPass(s1, 1, 2, dom) == s1 && InnerPass(s1, 2, 3, dom) == s1
  {
    InnerSkip(s1, 1, 2, dom);
    InnerSkip(s1, 1, 3, dom);
    InnerSkip(s1, 1, 4, dom);
    InnerSkip(s1, 1, 5, dom);
    InnerSkip(s1, 2, 3, dom);
    InnerSkip(s1, 2, 4, dom);
    InnerSkip(s1, 2, 5, dom);
  }

  /** Position 3: 4 dominates 2; 5 does not dominate 4. */
  lemma ExamplePass3(dom: seq<set<nat>>, s1: seq<nat>, s2: seq<nat>)
    requires dom == ExampleDominated()
    requires s1 == [3, 0, 1, 2, 4, 5] && s2 == [3, 0, 1, 4, 2, 5]
    ensures InnerPass(s1, 3, 4, dom) == s2
  {
    assert Rotate(s1, 3, 4) == s2;
    InnerRotate(s1, 3, 4, dom);
    InnerSkip(s2, 3, 5, dom);
  }

  /** Position 4: 5 dominates 2. */
  lemma ExamplePass4(dom: seq<set<nat>>, s2: seq<nat>, s3: seq<nat>)
    requires dom == ExampleDominated()
    requires s2 == [3, 0, 1, 4, 2, 5] && s3 == [3, 0, 1, 4, 5, 2]
    ensures InnerPass(s2, 4, 5, dom) == s3
  {
    assert Rotate(s2, 4, 5) == s3;
    InnerRotate(s2, 4, 5, dom);
  }

  /** Six unlinked nodes, then the links 3->1, 4->1, 0->4, 1->0, 1->2,
      0->5, 5->2 in that order. */
  method ExampleGraph() returns (g: WoGraph)
    ensures fresh(g) && fresh(g.nodes) && g.Valid()
    ensures g.to == ExampleTo() && g.nodes[..] == [0, 1, 2, 3, 4, 5] && g.dominated == seq(6, _ => {})
  {
    g := new WoGraph(6);
    assert g.to == [[], [], [], [], [], []];
    ExampleLinksFirst(g);
    ExampleLinksLast(g);
    assert g.to == ExampleTo();
  }

  /** The first four links: 3->1, 4->1, 0->4, 1->0. */
  method ExampleLinksFirst(g: WoGraph)
    requires g.Valid() && g.to == [[], [], [], [], [], []]
    modifies g
    ensures g.Valid() && g.to == [[4], [0], [], [1], [1], []] && g.dominated == old(g.dominated)
  {
    g.Link(3, 1);
    assert g.to[3] == [1];
    assert g.to == [[], [], [], [1], [], []];
    g.Link(4, 1);
    assert g.to[4] == [1];
    assert g.to == [[], [], [], [1], [1], []];
    g.Link(0, 4);
    assert g.to[0] == [4];
    assert g.to == [[4], [], [], [1], [1], []];
    g.Link(1, 0);
    assert g.to[1] == [0];
  }

  /** The last three links: 1->2, 0->5, 5->2. */
  method ExampleLinksLast(g: WoGraph)
    requires g.Valid() && g.to == [[4], [0], [], [1], [1], []]
    modifies g
    ensures g.Valid() && g.to == [[4, 5], [0, 2], [], [1], [1], [2]] && g.dominated == old(g.dominated)
  {
    g.Link(1, 2);
    assert g.to[1] == [0, 2];
    assert g.to == [[4], [0, 2], [], [1], [1], []];
    g.Link(0, 5);
    assert g.to[0] == [4, 5];
    assert g.to == [[4, 5], [0, 2], [], [1], [1], []];
    g.Link(5, 2);
    assert g.to[5] == [2];
  }

  lemma ExampleDescendentsFrom(desc: seq<set<nat>>)
    requires |desc| == 6 && forall x :: 0 <= x < 6 ==> desc[x] == ReachSet(ExampleTo(), x)
    ensures desc == ExampleDescendents()
  {
    ExampleDescendentsAreReach();
  }

  lemma ExampleDominatedFrom(dom: seq<set<nat>>)
    requires |dom| == 6
    requires forall x :: 0 <= x < 6 ==> dom[x] == seq(6, _ => {})[x] + DomSet(ExampleDescendents(), x)
    ensures dom == ExampleDominated()
  {
    ExampleDominance();
    assert dom[0] == {2, 5} && dom[1] == {2, 5} && dom[2] == {};
    assert dom[3] == {0, 1, 2, 4, 5} && dom[4] == {2, 5} && dom[5] == {2};
  }

  /** The weak-order unit test: six nodes, the seven links above, and the
      resulting order 3, 0, 1, 4, 5, 2. */
  method WeakOrderTest() returns (order: seq<nat>)
    ensures order == [3, 0, 1, 4, 5, 2]
  {
    var g := ExampleGraph();
    g.WeakOrder();
    ExampleDescendentsFrom(g.descendents);
    ExampleDominatedFrom(g.dominated);
    ExampleSortSteps(ExampleDominated(), [0, 1, 2, 3, 4, 5], [3, 0, 1, 2, 4, 5], [3, 0, 1, 4, 2, 5], [3, 0, 1, 4, 5, 2]);
    order := g.nodes[..];
  }
}
