// The graph of PowerTools++: the nodes of src/Node.cpp with their lists of
// incident arcs, and the network of src/Net.cpp with its node and arc lists, its map
// from "src,dest" keys to the arcs between two nodes, its name map, and the
// unit-weight Dijkstra search used for cycle bases. A pointer to a node is
// its ID, the node's position in the network's list; a pointer to an arc is
// an Arc value whose `ref` stands for the object's identity. Arc.cpp is not
// part of this model: `neighbour(n)` is taken to be the other end of the arc.

module PtNet {
  import opened Shared

  // --------------------------------------------------------------- arcs

  /** An arc: `ref` stands for the Arc object (what `removeArc` compares),
      `src` and `dest` are the IDs of its end nodes, `status` is 0 for an
      arc out of service, `parallel` marks a second line between two
      nodes. */
  datatype Arc = Arc(ref: nat, src: int, dest: int, status: int, parallel: bool)

  /** `neighbour(n)`: the end of the arc that is not n. */
  function Neighbour(a: Arc, n: int): int
  {
    if a.src == n then a.dest else a.src
  }

  /** The list with the first occurrence of a erased. */
  function Without(s: seq<Arc>, a: Arc): (r: seq<Arc>)
    ensures a in s ==> |r| == |s| - 1
    ensures a !in s ==> r == s
  {
    if s == [] then []
    else if s[0] == a then s[1..]
    else [s[0]] + Without(s[1..], a)
  }

  /** Erasing the first occurrence takes exactly one copy of a out. */
  lemma {:induction false} WithoutMultiset(s: seq<Arc>, a: Arc)
    ensures a in s ==> multiset(Without(s, a)) == multiset(s) - multiset{a}
  {
    if s != [] && s[0] != a {
      WithoutMultiset(s[1..], a);
      assert s == [s[0]] + s[1..];
    } else if s != [] {
      assert s == [s[0]] + s[1..];
    }
  }

  /** Erasing at the first occurrence found at i. */
  lemma {:induction false} WithoutAt(s: seq<Arc>, a: Arc, i: nat)
    requires i < |s| && s[i] == a && a !in s[..i]
    ensures Without(s, a) == s[..i] + s[i + 1..]
  {
    if i > 0 {
      assert s[1..][..i - 1] == s[..i][1..];
      WithoutAt(s[1..], a, i - 1);
      assert s[1..][i..] == s[i + 1..];
    }
  }

  /** The position of the first occurrence of a, or -1: the search of
      `removeArc`. */
  method FindArc(s: seq<Arc>, a: Arc) returns (i: int)
    ensures -1 <= i < |s|
    ensures i == -1 <==> a !in s
    ensures i >= 0 ==> s[i] == a && a !in s[..i]
  {
    i := 0;
    while i < |s|
      invariant 0 <= i <= |s|
      invariant a !in s[..i]
    {
      if s[i] == a {
        return;
      }
      assert s[..i + 1] == s[..i] + [s[i]];
      i := i + 1;
    }
    assert s[..i] == s;
    i := -1;
  }

  /** Some arc of the list leads from node `self` to node `other`. */
  predicate LinksTo(s: seq<Arc>, self: int, other: int)
  {
    exists k :: 0 <= k < |s| && Neighbour(s[k], self) == other
  }

  /** A loop of `is_connected`: is `other` a neighbour through the list? */
  method SearchLink(s: seq<Arc>, self: int, other: int) returns (b: bool)
    ensures b <==> LinksTo(s, self, other)
  {
    var k := 0;
    while k < |s|
      invariant 0 <= k <= |s|
      invariant forall j :: 0 <= j < k ==> Neighbour(s[j], self) != other
    {
      if other == Neighbour(s[k], self) {
        return true;
      }
      k := k + 1;
    }
    return false;
  }

  /** `is_connected` of two nodes given by ID and branch list: either
      list links one to the other. */
  predicate Connected(id1: int, s1: seq<Arc>, id2: int, s2: seq<Arc>)
  {
    LinksTo(s1, id1, id2) || LinksTo(s2, id2, id1)
  }

  /** `is_connected` is symmetric. */
  lemma ConnectedSymmetric(id1: int, s1: seq<Arc>, id2: int, s2: seq<Arc>)
    ensures Connected(id1, s1, id2, s2) <==> Connected(id2, s2, id1, s1)
  {
  }

  /** An arc between the two nodes in either list connects them. */
  lemma ArcConnects(id1: int, s1: seq<Arc>, id2: int, s2: seq<Arc>, a: Arc)
    requires a in s1 || a in s2
    requires (a.src == id1 && a.dest == id2) || (a.src == id2 && a.dest == id1)
    ensures Connected(id1, s1, id2, s2)
  {
    if a in s1 {
      var k :| 0 <= k < |s1| && s1[k] == a;
      assert Neighbour(s1[k], id1) == id2;
    } else {
      var k :| 0 <= k < |s2| && s2[k] == a;
      assert Neighbour(s2[k], id2) == id1;
    }
  }

  /** The in-service arcs of the list leaving (`out`) or entering node
      `id`, in list order: what `get_out` and `get_in` collect. */
  function InService(s: seq<Arc>, id: int, out: bool): (r: seq<Arc>)
    ensures |r| <= |s|
  {
    if s == [] then []
    else
      var rest := InService(s[..|s| - 1], id, out);
      var a := s[|s| - 1];
      if a.status != 0 && (if out then a.src else a.dest) == id then rest + [a] else rest
  }

  /** The arcs collected are exactly the in-service arcs of the list with
      the node at the chosen end. */
  lemma {:induction false} InServiceMembers(s: seq<Arc>, id: int, out: bool)
    ensures forall a :: a in InService(s, id, out) <==>
      a in s && a.status != 0 && (if out then a.src else a.dest) == id
  {
    if s != [] {
      InServiceMembers(s[..|s| - 1], id, out);
      assert s == s[..|s| - 1] + [s[|s| - 1]];
    }
  }

  /** An in-service arc that is not a loop is an outgoing arc of its
      source or an incoming arc of its destination, never both at one
      node. */
  lemma OutInDisjoint(s: seq<Arc>, id: int, a: Arc)
    requires a.src != a.dest
    ensures !(a in InService(s, id, true) && a in InService(s, id, false))
  {
    InServiceMembers(s, id, true);
    InServiceMembers(s, id, false);
  }

  /** Without self-loops an arc is outgoing or incoming at a node, not
      both, so the two in-service lists together are no longer than the
      list. */
  lemma {:induction false} InServiceSplit(s: seq<Arc>, id: int)
    ensures (forall k :: 0 <= k < |s| ==> s[k].src != s[k].dest) ==>
              |InService(s, id, true)| + |InService(s, id, false)| <= |s|
  {
    if s != [] && forall k :: 0 <= k < |s| ==> s[k].src != s[k].dest {
      InServiceSplit(s[..|s| - 1], id);
    }
  }

  // --------------------------------------------------------------- node

  class Node {
    var name: string
    var id: int
    var branches: seq<Arc>
    var distance: int
    var predecessor: Option<nat>
    var fillIn: int

    /** The fields no arc operation touches. */
    function Others(): (string, int, int, Option<nat>, int)
      reads this
    {
      (name, id, distance, predecessor, fillIn)
    }

    /** A node with a name and an ID, no arcs, distance INT_MAX and no
        predecessor. */
    constructor(name': string, id': int)
      ensures name == name' && id == id' && branches == []
      ensures distance == 0x7fff_ffff && predecessor == None && fillIn == 0
    {
      name, id, branches := name', id', [];
      distance, predecessor, fillIn := 0x7fff_ffff, None, 0;
    }

    /** `degree`: the number of incident arcs; with no self-loops it
        bounds the in-service arcs `get_out` and `get_in` give together. */
    function Degree(): (d: nat)
      reads this
      ensures d == |branches|
      ensures (forall k :: 0 <= k < |branches| ==> branches[k].src != branches[k].dest) ==>
                |InService(branches, id, true)| + |InService(branches, id, false)| <= d
    {
      InServiceSplit(branches, id);
      |branches|
    }

    /** `removeArc`: erase the first occurrence of a and return 0, or
        return -1 if a is not incident. */
    method RemoveArc(a: Arc) returns (r: int)
      modifies this
      ensures r == 0 || r == -1
      ensures r == 0 <==> a in old(branches)
      ensures branches == Without(old(branches), a)
      ensures r == 0 ==> Degree() == old(Degree()) - 1
      ensures Others() == old(Others())
    {
      var i := FindArc(branches, a);
      if i < 0 {
        return -1;
      }
      WithoutAt(branches, a, i);
      branches := branches[..i] + branches[i + 1..];
      return 0;
    }

    /** `addArc`: append a. */
    method AddArc(a: Arc)
      modifies this
      ensures branches == old(branches) + [a]
      ensures Degree() == old(Degree()) + 1
      ensures Others() == old(Others())
    {
      branches := branches + [a];
    }

    /** `is_connected(n)`: this node's arcs, then n's. */
    method IsConnected(n: Node) returns (b: bool)
      ensures b <==> Connected(id, branches, n.id, n.branches)
    {
      b := SearchLink(branches, id, n.id);
      if !b {
        b := SearchLink(n.branches, n.id, id);
      }
    }

    /** `get_out`: the in-service arcs whose source is this node. */
    method GetOut() returns (res: seq<Arc>)
      ensures res == InService(branches, id, true)
    {
      res := [];
      var k := 0;
      while k < |branches|
        invariant 0 <= k <= |branches|
        invariant res == InService(branches[..k], id, true)
      {
        assert branches[..k + 1][..k] == branches[..k];
        var a := branches[k];
        if a.status != 0 && a.src == id {
          res := res + [a];
        }
        k := k + 1;
      }
      assert branches[..k] == branches;
    }

    /** `get_in`: the in-service arcs whose destination is this node. */
    method GetIn() returns (res: seq<Arc>)
      ensures res == InService(branches, id, false)
    {
      res := [];
      var k := 0;
      while k < |branches|
        invariant 0 <= k <= |branches|
        invariant res == InService(branches[..k], id, false)
      {
        assert branches[..k + 1][..k] == branches[..k];
        var a := branches[k];
        if a.status != 0 && a.dest == id {
          res := res + [a];
        }
        k := k + 1;
      }
      assert branches[..k] == branches;
    }
  }

  // ------------------------------------------------------- arc removal

  /** Erasing one arc keeps every other element and takes nothing new in. */
  lemma {:induction false} WithoutMembers(s: seq<Arc>, a: Arc)
    ensures forall x :: x in Without(s, a) ==> x in s
    ensures forall x :: x in s && x != a ==> x in Without(s, a)
  {
    if s != [] && s[0] != a {
      WithoutMembers(s[1..], a);
    }
  }

  /** The arcs of a list are pairwise distinct objects. */
  predicate Distinct(s: seq<Arc>)
  {
    forall i, j :: 0 <= i < j < |s| ==> s[i] != s[j]
  }

  /** On a list without repeats, erasing the first occurrence erases the
      arc altogether and keeps the list free of repeats. */
  lemma {:induction false} WithoutDistinct(s: seq<Arc>, a: Arc)
    requires Distinct(s)
    ensures a !in Without(s, a) && Distinct(Without(s, a))
  {
    if s != [] && s[0] != a {
      WithoutDistinct(s[1..], a);
      WithoutMembers(s[1..], a);
      assert s[0] !in s[1..];
    } else if s != [] {
      assert a !in s[1..];
    }
  }

  /** What `remove_end_node` leaves of the branch list br of node k: each
      arc of the end node's list `arcs` (end node `nid`) whose far end is
      k is erased from br, in list order. */
  function Detach(br: seq<Arc>, arcs: seq<Arc>, nid: int, k: int): (r: seq<Arc>)
    ensures |r| <= |br|
  {
    if arcs == [] then br
    else
      var prev := Detach(br, arcs[..|arcs| - 1], nid, k);
      var a := arcs[|arcs| - 1];
      if Neighbour(a, nid) == k then Without(prev, a) else prev
  }

  /** Detaching one more arc of the end node's list. */
  lemma DetachStep(br: seq<Arc>, arcs: seq<Arc>, i: nat, nid: int, k: int)
    requires i < |arcs|
    ensures Detach(br, arcs[..i + 1], nid, k) ==
      if Neighbour(arcs[i], nid) == k then Without(Detach(br, arcs[..i], nid, k), arcs[i])
      else Detach(br, arcs[..i], nid, k)
  {
    assert arcs[..i + 1][..i] == arcs[..i];
  }

  /** Detaching only ever erases arcs. */
  lemma {:induction false} DetachSubset(br: seq<Arc>, arcs: seq<Arc>, nid: int, k: int)
    ensures forall x :: x in Detach(br, arcs, nid, k) ==> x in br
  {
    if arcs != [] {
      DetachSubset(br, arcs[..|arcs| - 1], nid, k);
      WithoutMembers(Detach(br, arcs[..|arcs| - 1], nid, k), arcs[|arcs| - 1]);
    }
  }

  /** On a list without repeats, no arc of the end node leading to k is
      left in k's list once the end node is detached. */
  lemma {:induction false} DetachGone(br: seq<Arc>, arcs: seq<Arc>, nid: int, k: int)
    requires Distinct(br)
    ensures Distinct(Detach(br, arcs, nid, k))
    ensures forall a :: a in arcs && Neighbour(a, nid) == k ==> a !in Detach(br, arcs, nid, k)
  {
    if arcs != [] {
      var init := arcs[..|arcs| - 1];
      var last := arcs[|arcs| - 1];
      DetachGone(br, init, nid, k);
      var prev := Detach(br, init, nid, k);
      if Neighbour(last, nid) == k {
        WithoutDistinct(prev, last);
        WithoutMembers(prev, last);
      }
      assert arcs == init + [last];
    }
  }

  // ----------------------------------------------------------- line map

  /** The map from "src,dest" name keys to the arcs between two nodes. */
  type LineMap = map<string, set<Arc>>

  /** The key of `add_arc` and `get_arc`: the two names joined by a comma. */
  function Key(src: string, dest: string): string
  {
    src + "," + dest
  }

  /** The arcs of a set not marked parallel. */
  function Plain(s: set<Arc>): set<Arc>
  {
    set a | a in s && !a.parallel
  }

  /** Every key holds at most one arc not marked parallel: the first arc
      stored under it. */
  predicate PlainUnique(m: LineMap)
  {
    forall k, a, b :: k in m && a in Plain(m[k]) && b in Plain(m[k]) ==> a == b
  }

  /** What `add_arc` makes of the map and what it returns: a fresh pair of
      names gets a new key holding the arc; otherwise the arc is marked
      parallel and joins the set under "dest,src" if that key exists, else
      under "src,dest". */
  function Register(m: LineMap, key: string, inv: string, a: Arc): (LineMap, bool)
  {
    if key !in m && inv !in m then (m[key := {a}], false)
    else
      var k := if inv in m then inv else key;
      (m[k := m[k] + {a.(parallel := true)}], true)
  }

  /** The arc `add_arc` stores and appends. */
  function Stored(m: LineMap, key: string, inv: string, a: Arc): Arc
  {
    if key !in m && inv !in m then a else a.(parallel := true)
  }

  /** `add_arc` reports a parallel line exactly when either orientation of
      the pair is already a key, and afterwards the pair is a key. */
  lemma RegisterParallel(m: LineMap, key: string, inv: string, a: Arc)
    ensures Register(m, key, inv, a).1 <==> key in m || inv in m
    ensures key in Register(m, key, inv, a).0 || inv in Register(m, key, inv, a).0
    ensures forall k :: k in m ==> k in Register(m, key, inv, a).0
  {
  }

  /** The arcs `get_arc` may return for the key and its inverse: those
      not marked parallel under the key, or, if there are none, under the
      inverse key. */
  function Found(m: LineMap, key: string, inv: string): set<Arc>
  {
    var p := if key in m then Plain(m[key]) else {};
    if p != {} then p else if inv in m then Plain(m[inv]) else {}
  }

  /** With one unmarked arc per key, `get_arc` has at most one answer. */
  lemma FoundUnique(m: LineMap, key: string, inv: string)
    requires PlainUnique(m)
    ensures forall a, b :: a in Found(m, key, inv) && b in Found(m, key, inv) ==> a == b
  {
  }

  /** `add_arc` keeps one unmarked arc per key. */
  lemma RegisterKeepsUnique(m: LineMap, key: string, inv: string, a: Arc)
    requires PlainUnique(m)
    ensures PlainUnique(Register(m, key, inv, a).0)
  {
    var r := Register(m, key, inv, a).0;
    if key in m || inv in m {
      var k := if inv in m then inv else key;
      assert Plain(r[k]) == Plain(m[k]);
    }
  }

  /** Adding a parallel line changes no answer of `get_arc`. */
  lemma {:induction false} ParallelKeepsFound(m: LineMap, key: string, inv: string, a: Arc)
    requires key in m || inv in m
    ensures forall k1, k2 :: Found(Register(m, key, inv, a).0, k1, k2) == Found(m, k1, k2)
  {
    var r := Register(m, key, inv, a).0;
    var k := if inv in m then inv else key;
    assert r == m[k := m[k] + {a.(parallel := true)}];
    assert Plain(r[k]) == Plain(m[k]);
    assert forall j :: j in r ==> j in m && Plain(r[j]) == Plain(m[j]);
    assert forall j :: j in m ==> j in r;
  }

  /** After `add_arc` of an unmarked arc between a fresh pair, `get_arc`
      of that pair answers with the arc. */
  lemma FreshPairFound(m: LineMap, key: string, inv: string, a: Arc)
    requires key !in m && inv !in m && !a.parallel
    ensures Found(Register(m, key, inv, a).0, key, inv) == {a}
  {
    var r := Register(m, key, inv, a).0;
    assert Plain(r[key]) == {a};
  }

  /** One arc of the set not marked parallel, if there is one: the loop
      over a key's set in `get_arc`. */
  method PickPlain(s: set<Arc>) returns (r: Option<Arc>)
    ensures r.None? <==> Plain(s) == {}
    ensures r.Some? ==> r.value in Plain(s)
  {
    if a :| a in s && !a.parallel {
      assert a in Plain(s);
      return Some(a);
    }
    return None;
  }

  /** `rotation_bag`'s decision from the six directed-arc tests: false
      when some node of the bag has arcs to both others. */
  predicate Rotation(d12: bool, d13: bool, d21: bool, d23: bool, d31: bool, d32: bool)
  {
    !((d12 && d13) || (d21 && d23) || (d31 && d32))
  }

  /** When every pair of the bag is joined in exactly one direction, the
      bag rotates one way exactly when its arcs form a directed cycle. */
  lemma RotationCyclic(d12: bool, d13: bool, d23: bool)
    ensures Rotation(d12, d13, !d12, d23, !d13, !d23) <==>
      (d12 && d23 && !d13) || (!d12 && !d23 && d13)
  {
  }

  // --------------------------------------------------- shortest paths

  /** The sum of a list of distances: it falls with every relaxation. */
  function SumSeq(s: seq<nat>): nat
  {
    if s == [] then 0 else SumSeq(s[..|s| - 1]) + s[|s| - 1]
  }

  /** Lowering one entry lowers the sum by as much. */
  lemma {:induction false} SumSeqUpdate(s: seq<nat>, i: nat, v: nat)
    requires i < |s|
    ensures SumSeq(s[i := v]) + s[i] == SumSeq(s) + v
  {
    var t := s[i := v];
    if i < |s| - 1 {
      assert t[..|t| - 1] == s[..|s| - 1][i := v];
      SumSeqUpdate(s[..|s| - 1], i, v);
    } else {
      assert t[..|t| - 1] == s[..|s| - 1];
    }
  }

  /** Every arc of every list has both ends among the nodes. */
  predicate ArcsClosed(br: seq<seq<Arc>>)
  {
    forall i, a :: 0 <= i < |br| && a in br[i] ==>
      0 <= a.src < |br| && 0 <= a.dest < |br|
  }

  /** Node v is a neighbour of node u through u's arcs. */
  predicate Adjacent(br: seq<seq<Arc>>, u: int, v: int)
    requires 0 <= u < |br|
  {
    exists a :: a in br[u] && Neighbour(a, u) == v
  }

  /** The state the search keeps: the source at distance 0 without a
      predecessor, and each recorded predecessor a neighbour strictly
      nearer the source that is itself the source or has a predecessor. */
  predicate Tree(br: seq<seq<Arc>>, src: nat, dist: seq<int>, pred: seq<Option<nat>>)
  {
    |dist| == |br| && |pred| == |br| && src < |br| &&
    dist[src] == 0 && pred[src] == None &&
    forall v :: 0 <= v < |br| && pred[v].Some? ==>
      v != src && pred[v].value < |br| && Adjacent(br, pred[v].value, v) &&
      dist[pred[v].value] < dist[v] &&
      (pred[v].value == src || pred[pred[v].value].Some?)
  }

  /** Every queued node is the source or has a predecessor. */
  predicate Queued(n: nat, src: nat, pred: seq<Option<nat>>, queue: seq<nat>)
    requires |pred| == n
  {
    forall q :: q in queue ==> q < n && (q == src || pred[q].Some?)
  }

  /** The entry of the queue with the least distance, the first among
      ties: the top of the priority queue. */
  method MinIndex(queue: seq<nat>, dist: seq<nat>) returns (i: nat)
    requires queue != []
    requires forall k :: 0 <= k < |queue| ==> queue[k] < |dist|
    ensures i < |queue|
    ensures forall j :: 0 <= j < |queue| ==> dist[queue[i]] <= dist[queue[j]]
  {
    i := 0;
    var j := 1;
    while j < |queue|
      invariant i < j <= |queue|
      invariant forall k :: 0 <= k < j ==> dist[queue[i]] <= dist[queue[k]]
    {
      if dist[queue[j]] < dist[queue[i]] {
        i := j;
      }
      j := j + 1;
    }
  }

  /** The inner loop of `Dijkstra`: every neighbour of cur that is farther
      than one step beyond cur gets that distance, cur as its predecessor
      and a place in the queue. */
  method Relax(br: seq<seq<Arc>>, src: nat, cur: nat, dist0: seq<nat>,
               pred0: seq<Option<nat>>, queue0: seq<nat>)
    returns (dist: seq<nat>, pred: seq<Option<nat>>, queue: seq<nat>)
    requires ArcsClosed(br) && Tree(br, src, dist0, pred0)
    requires cur < |br| && (cur == src || pred0[cur].Some?)
    requires Queued(|br|, src, pred0, queue0)
    ensures Tree(br, src, dist, pred) && Queued(|br|, src, pred, queue)
    ensures SumSeq(dist) < SumSeq(dist0) || (dist == dist0 && queue == queue0)
  {
    dist, pred, queue := dist0, pred0, queue0;
    var k := 0;
    while k < |br[cur]|
      invariant 0 <= k <= |br[cur]|
      invariant Tree(br, src, dist, pred) && Queued(|br|, src, pred, queue)
      invariant dist[cur] == dist0[cur] && (cur == src || pred[cur].Some?)
      invariant SumSeq(dist) < SumSeq(dist0) || (dist == dist0 && queue == queue0)
    {
      var a := br[cur][k];
      var nb := Neighbour(a, cur);
      assert a in br[cur];
      if dist[nb] > dist[cur] + 1 {
        SumSeqUpdate(dist, nb, dist[cur] + 1);
        dist := dist[nb := dist[cur] + 1];
        pred := pred[nb := Some(cur)];
        queue := queue + [nb];
      }
      k := k + 1;
    }
  }

  /** The search loop of `Dijkstra` on the nodes' arc lists: distances
      start at the node count plus one and 0 at the source; the nearest
      queued node is taken until the queue runs dry or dest is taken. */
  method Search(br: seq<seq<Arc>>, src: nat, dest: nat)
    returns (dist: seq<nat>, pred: seq<Option<nat>>)
    requires ArcsClosed(br) && src < |br| && dest < |br|
    ensures Tree(br, src, dist, pred)
  {
    var n := |br|;
    dist := seq(n, i => if i == src then 0 else n + 1);
    pred := seq(n, i => None);
    var queue: seq<nat> := [src];
    var done := false;
    while queue != [] && !done
      invariant Tree(br, src, dist, pred) && Queued(n, src, pred, queue)
      decreases SumSeq(dist), |queue|
    {
      assert forall k :: 0 <= k < |queue| ==> queue[k] in queue;
      var i := MinIndex(queue, dist);
      var cur := queue[i];
      queue := queue[..i] + queue[i + 1..];
      if cur != dest {
        dist, pred, queue := Relax(br, src, cur, dist, pred, queue);
      } else {
        done := true;
      }
    }
  }

  /** The path rebuilt backwards from dest along the predecessors. */
  method Rebuild(br: seq<seq<Arc>>, src: nat, dest: nat, dist: seq<nat>,
                 pred: seq<Option<nat>>) returns (path: seq<nat>)
    requires Tree(br, src, dist, pred) && dest < |br| && pred[dest].Some?
    ensures Walk(br, src, dest, path)
  {
    var cur: nat := dest;
    path := [dest];
    while pred[cur].Some?
      invariant cur < |br| && (cur == src || pred[cur].Some?)
      invariant path != [] && path[0] == cur && path[|path| - 1] == dest
      invariant forall k :: 0 <= k < |path| ==> path[k] < |br|
      invariant forall k :: 0 <= k < |path| - 1 ==> Adjacent(br, path[k], path[k + 1])
      invariant forall i, j :: 0 <= i < j < |path| ==> dist[path[i]] < dist[path[j]]
      decreases dist[cur]
    {
      var u := pred[cur].value;
      path := [u] + path;
      cur := u;
    }
  }

  /** A path from src to dest through neighbouring nodes, without
      repeats. */
  predicate Walk(br: seq<seq<Arc>>, src: nat, dest: nat, path: seq<int>)
  {
    |path| >= 2 && path[0] == src && path[|path| - 1] == dest &&
    (forall k :: 0 <= k < |path| ==> 0 <= path[k] < |br|) &&
    (forall k :: 0 <= k < |path| - 1 ==> Adjacent(br, path[k], path[k + 1])) &&
    (forall i, j :: 0 <= i < j < |path| ==> path[i] != path[j])
  }

  // --------------------------------------------------------------- path

  /** A path: the IDs of its nodes, in order. */
  class Path {
    var nodes: seq<int>

    constructor(ns: seq<int>)
      ensures nodes == ns
    {
      nodes := ns;
    }
  }

  /** The path object for a finished search: none when dest was not
      reached, otherwise a fresh one holding the walk from src to dest. */
  method NewPath(br: seq<seq<Arc>>, src: nat, dest: nat, dist: seq<nat>,
                 pred: seq<Option<nat>>) returns (p: Path?)
    requires Tree(br, src, dist, pred) && dest < |br|
    ensures p == null <==> pred[dest].None?
    ensures p != null ==> fresh(p) && Walk(br, src, dest, p.nodes)
  {
    p := null;
    if pred[dest].Some? {
      var path := Rebuild(br, src, dest, dist, pred);
      p := new Path(path);
    }
  }

  // ---------------------------------------------------------------- net

  /** The arc lists of a list of nodes. */
  function BranchList(ns: seq<Node>): (r: seq<seq<Arc>>)
    reads set n | n in ns
    ensures |r| == |ns| && forall i :: 0 <= i < |ns| ==> r[i] == ns[i].branches
  {
    if ns == [] then [] else BranchList(ns[..|ns| - 1]) + [ns[|ns| - 1].branches]
  }

  /** The distances of a list of nodes. */
  function DistanceList(ns: seq<Node>): (r: seq<int>)
    reads set n | n in ns
    ensures |r| == |ns| && forall i :: 0 <= i < |ns| ==> r[i] == ns[i].distance
  {
    if ns == [] then [] else DistanceList(ns[..|ns| - 1]) + [ns[|ns| - 1].distance]
  }

  /** The predecessors of a list of nodes. */
  function PredList(ns: seq<Node>): (r: seq<Option<nat>>)
    reads set n | n in ns
    ensures |r| == |ns| && forall i :: 0 <= i < |ns| ==> r[i] == ns[i].predecessor
  {
    if ns == [] then [] else PredList(ns[..|ns| - 1]) + [ns[|ns| - 1].predecessor]
  }

  class Net {
    var nodes: seq<Node>
    var arcs: seq<Arc>
    var lineID: LineMap
    var nodeID: map<string, Node>

    /** Each node's ID is its position, and each key holds at most one arc
        not marked parallel. */
    predicate Valid()
      reads this, set n | n in nodes
    {
      (forall i :: 0 <= i < |nodes| ==> nodes[i].id == i) && PlainUnique(lineID)
    }

    /** Every arc of a node's list has both ends among the nodes. */
    predicate Closed()
      reads this, set n | n in nodes
    {
      ArcsClosed(BranchList(nodes))
    }

    /** An empty network. */
    constructor()
      ensures nodes == [] && arcs == [] && lineID == map[] && nodeID == map[]
      ensures Valid()
    {
      nodes, arcs, lineID, nodeID := [], [], map[], map[];
    }

    /** `add_node`: the node's ID becomes the node count, its name maps to
        it unless the name is taken, and it is appended. */
    method AddNode(node: Node)
      modifies this, node
      ensures node.id == old(|nodes|) && nodes == old(nodes) + [node]
      ensures nodeID == if node.name in old(nodeID) then old(nodeID)
                        else old(nodeID)[node.name := node]
      ensures arcs == old(arcs) && lineID == old(lineID)
      ensures node.name == old(node.name) && node.branches == old(node.branches)
      ensures old(Valid()) && node !in old(nodes) ==> Valid()
    {
      node.id := |nodes|;
      if node.name !in nodeID {
        nodeID := nodeID[node.name := node];
      }
      nodes := nodes + [node];
    }

    /** `add_arc`: register the arc under its pair of end names, mark it
        parallel if the pair was already present, and append it. */
    method AddArc(a: Arc) returns (parallel: bool)
      requires 0 <= a.src < |nodes| && 0 <= a.dest < |nodes|
      modifies this
      ensures nodes == old(nodes) && nodeID == old(nodeID)
      ensures var key := Key(nodes[a.src].name, nodes[a.dest].name);
              var inv := Key(nodes[a.dest].name, nodes[a.src].name);
              lineID == Register(old(lineID), key, inv, a).0 &&
              parallel == Register(old(lineID), key, inv, a).1 &&
              arcs == old(arcs) + [Stored(old(lineID), key, inv, a)]
      ensures old(Valid()) ==> Valid()
    {
      var key := Key(nodes[a.src].name, nodes[a.dest].name);
      var inv := Key(nodes[a.dest].name, nodes[a.src].name);
      if PlainUnique(lineID) {
        RegisterKeepsUnique(lineID, key, inv, a);
      }
      parallel := false;
      var b := a;
      if key !in lineID && inv !in lineID {
        lineID := lineID[key := {a}];
      } else {
        var k := if inv in lineID then inv else key;
        b := a.(parallel := true);
        lineID := lineID[k := lineID[k] + {b}];
        parallel := true;
      }
      arcs := arcs + [b];
    }

    /** `get_arc(n1, n2)`: an arc not marked parallel under "n1,n2", else
        one under "n2,n1", else none. */
    method GetArc(n1: Node, n2: Node) returns (r: Option<Arc>)
      ensures var found := Found(lineID, Key(n1.name, n2.name), Key(n2.name, n1.name));
              (r.None? <==> found == {}) && (r.Some? ==> r.value in found)
    {
      var key := Key(n1.name, n2.name);
      var inv := Key(n2.name, n1.name);
      r := None;
      if key in lineID {
        r := PickPlain(lineID[key]);
      }
      if r.None? && inv in lineID {
        r := PickPlain(lineID[inv]);
      }
    }

    /** `has_arc`: either orientation of the pair of node names is a key. */
    method HasArc(s1: string, s2: string) returns (b: bool)
      ensures b <==> Key(s1, s2) in lineID || Key(s2, s1) in lineID
    {
      b := Key(s1, s2) in lineID || Key(s2, s1) in lineID;
    }

    /** The arc `get_arc(n1, n2)` answers with runs from n1 to n2. */
    ghost predicate Directed(n1: Node, n2: Node)
      reads this, n1, n2
    {
      exists a :: a in Found(lineID, Key(n1.name, n2.name), Key(n2.name, n1.name)) &&
        a.src == n1.id && a.dest == n2.id
    }

    /** Some arc joins the two nodes as `get_arc(n1, n2)` looks them up. */
    ghost predicate Joined(n1: Node, n2: Node)
      reads this, n1, n2
    {
      Found(lineID, Key(n1.name, n2.name), Key(n2.name, n1.name)) != {}
    }

    /** `has_directed_arc`: the arc between the two nodes runs from n1 to
        n2. The arc must exist: the result of `get_arc` is dereferenced. */
    method HasDirectedArc(n1: Node, n2: Node) returns (b: bool)
      requires PlainUnique(lineID) && Joined(n1, n2)
      ensures b <==> Directed(n1, n2)
    {
      var r := GetArc(n1, n2);
      FoundUnique(lineID, Key(n1.name, n2.name), Key(n2.name, n1.name));
      b := r.value.src == n1.id && r.value.dest == n2.id;
    }

    /** `rotation_bag` on a 3-bag of this network: false when some node of
        the bag has arcs to both others. Each test the source evaluates
        needs an arc between its two nodes. */
    method RotationBag(n1: Node, n2: Node, n3: Node) returns (r: bool)
      requires PlainUnique(lineID)
      requires Joined(n1, n2) && Joined(n2, n1) && Joined(n3, n1)
      requires Directed(n1, n2) ==> Joined(n1, n3)
      requires Directed(n2, n1) ==> Joined(n2, n3)
      requires Directed(n3, n1) ==> Joined(n3, n2)
      ensures r <==> Rotation(Directed(n1, n2), Directed(n1, n3), Directed(n2, n1),
                              Directed(n2, n3), Directed(n3, n1), Directed(n3, n2))
    {
      var d12 := HasDirectedArc(n1, n2);
      if d12 {
        var d13 := HasDirectedArc(n1, n3);
        if d13 {
          return false;
        }
      }
      var d21 := HasDirectedArc(n2, n1);
      if d21 {
        var d23 := HasDirectedArc(n2, n3);
        if d23 {
          return false;
        }
      }
      var d31 := HasDirectedArc(n3, n1);
      if d31 {
        var d32 := HasDirectedArc(n3, n2);
        if d32 {
          return false;
        }
      }
      return true;
    }

    /** `resetDistance`: every node at distance node count plus one, with
        no predecessor. */
    method ResetDistance()
      modifies set n | n in nodes
      ensures forall i :: 0 <= i < |nodes| ==>
        nodes[i].distance == |nodes| + 1 && nodes[i].predecessor == None
      ensures forall i :: 0 <= i < |nodes| ==> nodes[i].branches == old(nodes[i].branches)
    {
      var i := 0;
      while i < |nodes|
        invariant 0 <= i <= |nodes|
        invariant forall j :: 0 <= j < i ==>
          nodes[j].distance == |nodes| + 1 && nodes[j].predecessor == None
        invariant forall j :: 0 <= j < |nodes| ==> nodes[j].branches == old(nodes[j].branches)
      {
        nodes[i].distance := |nodes| + 1;
        nodes[i].predecessor := None;
        i := i + 1;
      }
    }

    /** `combine`: close the path into a cycle through src. */
    method Combine(src: Node, p: Path)
      modifies p
      ensures p.nodes == [src.id] + old(p.nodes) + [src.id]
      ensures p.nodes[0] == src.id && p.nodes[|p.nodes| - 1] == src.id
    {
      p.nodes := [src.id] + p.nodes + [src.id];
    }

    /** The number of arcs of list br (of node nid) whose far end is not
        connected to n: how far `remove_end_node` lowers a fill-in. */
    ghost function Lost(br: seq<Arc>, nid: int, n: Node): nat
      reads this, set x | x in nodes
      reads n
      requires forall x :: x in br ==> 0 <= Neighbour(x, nid) < |nodes|
    {
      if br == [] then 0
      else
        var f := nodes[Neighbour(br[|br| - 1], nid)];
        Lost(br[..|br| - 1], nid, n) +
        if Connected(f.id, f.branches, n.id, n.branches) then 0 else 1
    }

    /** The fill-in loop of `remove_end_node` for one neighbour nn (ID nid,
        arcs br) of the end node n: count the arcs whose far end is not
        connected to n. */
    method FillDrop(br: seq<Arc>, nid: int, n: Node) returns (c: nat)
      requires forall x :: x in br ==> 0 <= Neighbour(x, nid) < |nodes|
      ensures c == Lost(br, nid, n) && c <= |br|
    {
      c := 0;
      var j := 0;
      while j < |br|
        invariant 0 <= j <= |br| && c <= j
        invariant c == Lost(br[..j], nid, n)
      {
        assert br[..j + 1][..j] == br[..j];
        assert br[j] in br;
        var f := nodes[Neighbour(br[j], nid)];
        var conn := f.IsConnected(n);
        if !conn {
          c := c + 1;
        }
        j := j + 1;
      }
      assert br[..j] == br;
    }

    /** One step of `remove_end_node`: erase the end node n's arc a from
        the list of its far end m, and lower m's fill-in by the arcs left
        whose far end is not connected to n. */
    method Unlink(a: Arc, m: nat, n: Node)
      requires m < |nodes|
      requires forall x :: x in nodes[m].branches ==> 0 <= Neighbour(x, m) < |nodes|
      modifies nodes[m]
      ensures nodes[m].branches == Without(old(nodes[m].branches), a)
      ensures nodes[m].fillIn <= old(nodes[m].fillIn)
      ensures nodes[m].name == old(nodes[m].name) && nodes[m].id == old(nodes[m].id)
      ensures nodes[m].distance == old(nodes[m].distance)
      ensures nodes[m].predecessor == old(nodes[m].predecessor)
    {
      var nn := nodes[m];
      WithoutMembers(nn.branches, a);
      var _ := nn.RemoveArc(a);
      var c := FillDrop(nn.branches, m, n);
      nn.fillIn := nn.fillIn - c;
    }

    /** `remove_end_node`: detach the last node from each of its
        neighbours, lower their fill-ins, and drop it from the node list
        (its arcs stay in the arc list); return its name. */
    method RemoveEndNode() returns (name: string)
      requires Valid() && Closed() && |nodes| > 0
      modifies this, set x | x in nodes
      ensures nodes == old(nodes[..|nodes| - 1])
      ensures arcs == old(arcs) && lineID == old(lineID) && nodeID == old(nodeID)
      ensures name == old(nodes[|nodes| - 1].name)
      ensures forall k :: 0 <= k < |old(nodes)| ==>
        old(nodes)[k].branches ==
          Detach(old(nodes[k].branches), old(nodes[|nodes| - 1].branches), |old(nodes)| - 1, k)
      ensures forall k :: 0 <= k < |old(nodes)| ==>
        old(nodes)[k].fillIn <= old(nodes[k].fillIn) &&
        old(nodes)[k].Others().0 == old(nodes[k].name) &&
        old(nodes)[k].id == old(nodes[k].id) &&
        old(nodes)[k].distance == old(nodes[k].distance) &&
        old(nodes)[k].predecessor == old(nodes[k].predecessor)
    {
      var count := |nodes|;
      var n := nodes[count - 1];
      ghost var b0 := BranchList(nodes);
      var snap := n.branches;
      name := n.name;
      var i := 0;
      while i < |snap|
        invariant 0 <= i <= |snap|
        invariant nodes == old(nodes) && arcs == old(arcs)
        invariant lineID == old(lineID) && nodeID == old(nodeID)
        invariant forall k :: 0 <= k < count ==>
          nodes[k].id == k && nodes[k].name == old(nodes[k].name) &&
          nodes[k].distance == old(nodes[k].distance) &&
          nodes[k].predecessor == old(nodes[k].predecessor) &&
          nodes[k].fillIn <= old(nodes[k].fillIn)
        invariant forall k :: 0 <= k < count ==>
          nodes[k].branches == Detach(b0[k], snap[..i], count - 1, k)
      {
        var a := snap[i];
        assert a in b0[count - 1];
        var m := Neighbour(a, count - 1);
        DetachSubset(b0[m], snap[..i], count - 1, m);
        Unlink(a, m, n);
        forall k | 0 <= k < count
          ensures nodes[k].branches == Detach(b0[k], snap[..i + 1], count - 1, k)
        {
          DetachStep(b0[k], snap, i, count - 1, k);
        }
        i := i + 1;
      }
      assert snap[..i] == snap;
      nodes := nodes[..count - 1];
    }

    /** The distances and predecessors the search found, written into
        the nodes' fields. */
    method Store(dist: seq<int>, pred: seq<Option<nat>>)
      requires Valid() && |dist| == |nodes| && |pred| == |nodes|
      modifies set x | x in nodes
      ensures DistanceList(nodes) == dist && PredList(nodes) == pred
      ensures forall j :: 0 <= j < |nodes| ==>
        nodes[j].branches == old(nodes[j].branches) && nodes[j].id == j
    {
      var i := 0;
      while i < |nodes|
        invariant 0 <= i <= |nodes|
        invariant forall j :: 0 <= j < |nodes| ==>
          nodes[j].branches == old(nodes[j].branches) && nodes[j].id == j
        invariant forall j :: 0 <= j < i ==>
          nodes[j].distance == dist[j] && nodes[j].predecessor == pred[j]
      {
        nodes[i].distance := dist[i];
        nodes[i].predecessor := pred[i];
        i := i + 1;
      }
    }

    /** `Dijkstra(src, dest)` with unit arc weights, on this network: the
        search leaves each node's distance and predecessor in its fields;
        no path when dest has no predecessor (so none from a node to
        itself), otherwise the path rebuilt from dest back to src. */
    method Dijkstra(src: nat, dest: nat) returns (p: Path?)
      requires Valid() && Closed() && src < |nodes| && dest < |nodes|
      modifies set x | x in nodes
      ensures forall i :: 0 <= i < |nodes| ==>
        nodes[i].branches == old(nodes[i].branches) && nodes[i].id == old(nodes[i].id)
      ensures Tree(BranchList(nodes), src, DistanceList(nodes), PredList(nodes))
      ensures p == null <==> nodes[dest].predecessor == None
      ensures p != null ==> fresh(p) && Walk(BranchList(nodes), src, dest, p.nodes)
    {
      var br := BranchList(nodes);
      var dist, pred := Search(br, src, dest);
      p := NewPath(br, src, dest, dist, pred);
      Store(dist, pred);
      assert BranchList(nodes) == br;
    }
  }
}
