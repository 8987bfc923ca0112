// The power-flow problem (SgtCore/PowerFlowModel.h and .cc): busses with one
// node per phase, branches given by their nodal admittance matrices, and
// `validate`, which orders the nodes (slack, then PQ, then PV), numbers them,
// and assembles the bus admittance matrix Y and the per-node vectors.

module PowerFlowModel {
  import opened Shared
  import PowerFlow

  type Mask = PowerFlow.Mask
  type Phase = PowerFlow.Phase

  // ------------------------------------------------ ordering of variables

  /** The node counts nSl_, nPq_ and nPv_. */
  datatype Counts = Counts(nSl: nat, nPq: nat, nPv: nat)

  /** A half-open index range [start, stop), as `ublas::range`. */
  datatype Range = Range(start: nat, stop: nat)

  predicate InRange(r: Range, x: int)
  {
    r.start <= x < r.stop
  }

  function ISl(c: Counts, i: nat): nat { i }
  function IPq(c: Counts, i: nat): nat { c.nSl + i }
  function IPv(c: Counts, i: nat): nat { c.nSl + c.nPq + i }

  function SelSlFromAll(c: Counts): Range { Range(0, c.nSl) }
  function SelPqFromAll(c: Counts): Range { Range(c.nSl, c.nSl + c.nPq) }
  function SelPvFromAll(c: Counts): Range { Range(c.nSl + c.nPq, c.nSl + c.nPq + c.nPv) }
  function SelPqPvFromAll(c: Counts): Range { Range(c.nSl, c.nSl + c.nPq + c.nPv) }
  function SelAllFromAll(c: Counts): Range { Range(0, c.nSl + c.nPq + c.nPv) }

  /** The slack, PQ and PV ranges follow one another, are pairwise disjoint
      and together make up all nodes; the PQ-PV range is the union of the
      PQ and PV ranges. */
  lemma RangesPartition(c: Counts, x: int)
    ensures SelSlFromAll(c).stop == SelPqFromAll(c).start && SelPqFromAll(c).stop == SelPvFromAll(c).start
    ensures InRange(SelAllFromAll(c), x) <==>
      InRange(SelSlFromAll(c), x) || InRange(SelPqFromAll(c), x) || InRange(SelPvFromAll(c), x)
    ensures !(InRange(SelSlFromAll(c), x) && InRange(SelPqFromAll(c), x))
    ensures !(InRange(SelSlFromAll(c), x) && InRange(SelPvFromAll(c), x))
    ensures !(InRange(SelPqFromAll(c), x) && InRange(SelPvFromAll(c), x))
    ensures InRange(SelPqPvFromAll(c), x) <==> InRange(SelPqFromAll(c), x) || InRange(SelPvFromAll(c), x)
  {
  }

  /** iSl(i), iPq(i) and iPv(i) fall in their own range exactly for the
      indexes below the matching count. */
  lemma IndexesInRanges(c: Counts, i: nat)
    ensures InRange(SelSlFromAll(c), ISl(c, i)) <==> i < c.nSl
    ensures InRange(SelPqFromAll(c), IPq(c, i)) <==> i < c.nPq
    ensures InRange(SelPvFromAll(c), IPv(c, i)) <==> i < c.nPv
  {
  }

  // ------------------------------------------------ busses, nodes, branches

  /** A node: one phase of a bus. Its idx_ is kept by the model (see
      PowerFlowModel.idx). */
  datatype PfNode = PfNode(busId: string, phaseIdx: nat, yZip: Complex, iZip: Complex, sZip: Complex,
                           v: Complex, s: Complex)

  datatype PfBus = PfBus(id: string, busType: PowerFlow.BusType, phases: Mask,
                         yZip: seq<Complex>, iZip: seq<Complex>, sZip: seq<Complex>, j: real,
                         v: seq<Complex>, s: seq<Complex>, nodes: seq<PfNode>)

  /** phases.size(). */
  function NPhase(phases: Mask): nat
  {
    |PowerFlow.CanonicalPhases(phases)|
  }

  /** Every per-phase vector has one entry per phase, and node i is phase i
      of the bus, carrying the i-th entries. */
  predicate BusShaped(b: PfBus)
  {
    var n := NPhase(b.phases);
    |b.yZip| == n && |b.iZip| == n && |b.sZip| == n && |b.v| == n && |b.s| == n && |b.nodes| == n &&
    forall i :: 0 <= i < n ==> b.nodes[i] == PfNode(b.id, i, b.yZip[i], b.iZip[i], b.sZip[i], b.v[i], b.s[i])
  }

  /** The PfBus constructor: the sizes are asserted, then one node is made
      per phase. */
  method NewPfBus(id: string, busType: PowerFlow.BusType, phases: Mask,
                  yZip: seq<Complex>, iZip: seq<Complex>, sZip: seq<Complex>, j: real,
                  v: seq<Complex>, s: seq<Complex>) returns (bus: PfBus)
    requires |yZip| == NPhase(phases) && |iZip| == NPhase(phases) && |sZip| == NPhase(phases)
    requires |v| == NPhase(phases) && |s| == NPhase(phases)
    ensures bus.id == id && bus.busType == busType && bus.phases == phases && bus.j == j
    ensures bus.yZip == yZip && bus.iZip == iZip && bus.sZip == sZip && bus.v == v && bus.s == s
    ensures BusShaped(bus)
  {
    var nodes: seq<PfNode> := [];
    var i := 0;
    while i < NPhase(phases)
      invariant 0 <= i <= NPhase(phases) && |nodes| == i
      invariant forall k :: 0 <= k < i ==> nodes[k] == PfNode(id, k, yZip[k], iZip[k], sZip[k], v[k], s[k])
    {
      nodes := nodes + [PfNode(id, i, yZip[i], iZip[i], sZip[i], v[i], s[i])];
      i := i + 1;
    }
    bus := PfBus(id, busType, phases, yZip, iZip, sZip, j, v, s, nodes);
  }

  /** A branch between two busses; y is its 2n-by-2n nodal admittance
      matrix, terms 0..n-1 at bus 0 and n..2n-1 at bus 1. */
  datatype PfBranch = PfBranch(nPhase: nat, id0: string, id1: string, phases0: Mask, phases1: Mask,
                               y: seq<seq<Complex>>)

  predicate BranchShaped(b: PfBranch)
  {
    NPhase(b.phases0) == b.nPhase && NPhase(b.phases1) == b.nPhase && PowerFlow.Square(b.y, 2 * b.nPhase)
  }

  /** The PfBranch constructor: nPhase_ is the size of the first phase set,
      and the second phase set and Y are asserted to match it. */
  function NewPfBranch(id0: string, id1: string, phases0: Mask, phases1: Mask, y: seq<seq<Complex>>): (b: PfBranch)
    requires NPhase(phases1) == NPhase(phases0) && PowerFlow.Square(y, 2 * NPhase(phases0))
    ensures BranchShaped(b) && b.nPhase == NPhase(phases0)
    ensures b.id0 == id0 && b.id1 == id1 && b.phases0 == phases0 && b.phases1 == phases1 && b.y == y
  {
    PfBranch(NPhase(phases0), id0, id1, phases0, phases1, y)
  }

  // ------------------------------------------------ the bus map's key order

  /** The keys of the bus map in its iteration order: strictly increasing. */
  predicate SortedIds(order: seq<string>)
  {
    forall i, j :: 0 <= i < j < |order| ==> StrLess(order[i], order[j])
  }

  /** A new key goes where the map's order puts it. */
  function InsertId(order: seq<string>, id: string): seq<string>
  {
    if |order| == 0 then [id]
    else if StrLess(id, order[0]) then [id] + order
    else [order[0]] + InsertId(order[1..], id)
  }

  /** Inserting a new key keeps the order sorted and adds just that key. */
  lemma {:induction false} InsertIdSpec(order: seq<string>, id: string)
    requires SortedIds(order) && id !in order
    ensures SortedIds(InsertId(order, id))
    ensures forall x :: x in InsertId(order, id) <==> x in order || x == id
    ensures |InsertId(order, id)| == |order| + 1
  {
    if |order| > 0 {
      if StrLess(id, order[0]) {
        var r := [id] + order;
        forall i, j | 0 <= i < j < |r|
          ensures StrLess(r[i], r[j])
        {
          if i == 0 && j > 1 {
            StrLessTransitive(id, order[0], order[j - 1]);
          }
        }
      } else {
        InsertIdSpec(order[1..], id);
        StrLessTotal(id, order[0]);
        var rest := InsertId(order[1..], id);
        var r := [order[0]] + rest;
        forall i, j | 0 <= i < j < |r|
          ensures StrLess(r[i], r[j])
        {
          if i == 0 {
            assert r[j] in rest;
            if r[j] != id {
              var k :| 0 <= k < |order[1..]| && order[1..][k] == r[j];
              assert order[k + 1] == r[j];
            }
          }
        }
      }
    }
  }

  // ------------------------------------------------ node ordering

  predicate Supported(t: PowerFlow.BusType)
  {
    t == PowerFlow.SL || t == PowerFlow.PQ || t == PowerFlow.PV
  }

  /** The nodes of the busses of type t, visiting the busses in map order. */
  function NodesOfType(order: seq<string>, busses: map<string, PfBus>, t: PowerFlow.BusType): seq<PfNode>
    requires forall id :: id in order ==> id in busses
  {
    if |order| == 0 then []
    else
      NodesOfType(order[..|order| - 1], busses, t) +
      (if busses[order[|order| - 1]].busType == t then busses[order[|order| - 1]].nodes else [])
  }

  /** The node vector `validate` builds: all slack nodes, then all PQ nodes,
      then all PV nodes. */
  function OrderedNodes(order: seq<string>, busses: map<string, PfBus>): seq<PfNode>
    requires forall id :: id in order ==> id in busses
  {
    NodesOfType(order, busses, PowerFlow.SL) + NodesOfType(order, busses, PowerFlow.PQ) +
    NodesOfType(order, busses, PowerFlow.PV)
  }

  function NodeCounts(order: seq<string>, busses: map<string, PfBus>): Counts
    requires forall id :: id in order ==> id in busses
  {
    Counts(|NodesOfType(order, busses, PowerFlow.SL)|, |NodesOfType(order, busses, PowerFlow.PQ)|,
           |NodesOfType(order, busses, PowerFlow.PV)|)
  }

  /** What identifies a node: its bus and its phase index there. */
  function Key(nd: PfNode): (string, nat)
  {
    (nd.busId, nd.phaseIdx)
  }

  predicate BussesShaped(busses: map<string, PfBus>)
  {
    forall id :: id in busses ==> busses[id].id == id && BusShaped(busses[id])
  }

  /** A node of type t is listed exactly when its bus is in the order, has
      type t, and the phase index is one of that bus's. */
  lemma {:induction false} NodesOfTypeSpec(order: seq<string>, busses: map<string, PfBus>, t: PowerFlow.BusType)
    requires forall id :: id in order ==> id in busses
    requires BussesShaped(busses)
    ensures forall nd :: nd in NodesOfType(order, busses, t) ==>
      nd.busId in order && busses[nd.busId].busType == t && nd.phaseIdx < |busses[nd.busId].nodes| &&
      nd == busses[nd.busId].nodes[nd.phaseIdx]
    ensures forall id, p :: id in order && busses[id].busType == t && 0 <= p < |busses[id].nodes| ==>
      busses[id].nodes[p] in NodesOfType(order, busses, t)
  {
    if |order| > 0 {
      NodesOfTypeSpec(order[..|order| - 1], busses, t);
      var last := order[|order| - 1];
      var back := if busses[last].busType == t then busses[last].nodes else [];
      assert NodesOfType(order, busses, t) == NodesOfType(order[..|order| - 1], busses, t) + back;
      forall nd | nd in back
        ensures nd.busId == last && nd.phaseIdx < |busses[last].nodes| && nd == busses[last].nodes[nd.phaseIdx]
      {
        var q :| 0 <= q < |back| && back[q] == nd;
      }
      forall id | id in order[..|order| - 1]
        ensures id in order
      {
      }
      forall id | id in order
        ensures id in order[..|order| - 1] || id == last
      {
        var k :| 0 <= k < |order| && order[k] == id;
        if k < |order| - 1 {
          assert order[..|order| - 1][k] == id;
        }
      }
    }
  }

  /** With distinct keys in the map order, no node key repeats among the
      nodes of one type. */
  lemma {:induction false} NodesOfTypeDistinct(order: seq<string>, busses: map<string, PfBus>, t: PowerFlow.BusType)
    requires forall id :: id in order ==> id in busses
    requires BussesShaped(busses) && SortedIds(order)
    ensures forall i, j :: 0 <= i < j < |NodesOfType(order, busses, t)| ==>
      Key(NodesOfType(order, busses, t)[i]) != Key(NodesOfType(order, busses, t)[j])
  {
    if |order| > 0 {
      var init := order[..|order| - 1];
      var last := order[|order| - 1];
      NodesOfTypeDistinct(init, busses, t);
      NodesOfTypeSpec(init, busses, t);
      var front := NodesOfType(init, busses, t);
      var back := if busses[last].busType == t then busses[last].nodes else [];
      assert NodesOfType(order, busses, t) == front + back;
      forall i, j | 0 <= i < j < |front + back|
        ensures Key((front + back)[i]) != Key((front + back)[j])
      {
        if j >= |front| {
          assert (front + back)[j] == back[j - |front|];
          if i >= |front| {
            assert (front + back)[i] == back[i - |front|];
          } else {
            var nd := front[i];
            assert nd in front;
            if nd.busId == last {
              var k :| 0 <= k < |init| && init[k] == last;
              assert order[k] == order[|order| - 1];
              StrLessIrreflexive(last);
            }
          }
        }
      }
    }
  }

  /** The ordered node vector repeats no node key, and it holds every node of
      every bus when all bus types are supported. */
  lemma OrderedNodesSpec(order: seq<string>, busses: map<string, PfBus>)
    requires forall id :: id in order ==> id in busses
    requires BussesShaped(busses) && SortedIds(order)
    ensures forall i, j :: 0 <= i < j < |OrderedNodes(order, busses)| ==>
      Key(OrderedNodes(order, busses)[i]) != Key(OrderedNodes(order, busses)[j])
    ensures forall id, p :: id in order && Supported(busses[id].busType) && 0 <= p < |busses[id].nodes| ==>
      busses[id].nodes[p] in OrderedNodes(order, busses)
    ensures forall nd :: nd in OrderedNodes(order, busses) ==>
      nd.busId in busses && nd.phaseIdx < |busses[nd.busId].nodes| && nd == busses[nd.busId].nodes[nd.phaseIdx]
  {
    var sl := NodesOfType(order, busses, PowerFlow.SL);
    var pq := NodesOfType(order, busses, PowerFlow.PQ);
    var pv := NodesOfType(order, busses, PowerFlow.PV);
    NodesOfTypeSpec(order, busses, PowerFlow.SL);
    NodesOfTypeSpec(order, busses, PowerFlow.PQ);
    NodesOfTypeSpec(order, busses, PowerFlow.PV);
    NodesOfTypeDistinct(order, busses, PowerFlow.SL);
    NodesOfTypeDistinct(order, busses, PowerFlow.PQ);
    NodesOfTypeDistinct(order, busses, PowerFlow.PV);
    var all := sl + pq + pv;
    forall i, j | 0 <= i < j < |all|
      ensures Key(all[i]) != Key(all[j])
    {
      var a, b := all[i], all[j];
      assert a in sl || a in pq || a in pv;
      assert b in sl || b in pq || b in pv;
      if i < |sl| && j < |sl| {
        assert a == sl[i] && b == sl[j];
      } else if |sl| <= i < |sl| + |pq| && |sl| <= j < |sl| + |pq| {
        assert a == pq[i - |sl|] && b == pq[j - |sl|];
      } else if |sl| + |pq| <= i {
        assert a == pv[i - |sl| - |pq|] && b == pv[j - |sl| - |pq|];
      } else {
        assert a in sl || a in pq;
        assert b in pq || b in pv;
        assert i < |sl| ==> a in sl;
        assert j >= |sl| + |pq| ==> b in pv;
        assert |sl| <= i ==> a in pq;
        assert j < |sl| + |pq| ==> b in pq;
      }
    }
  }

  /** The nodes of the slack, PQ and PV busses sit in the slack, PQ and PV
      ranges: iSl(i), iPq(i) and iPv(i) index the i-th node of each type. */
  lemma OrderedNodesRanges(order: seq<string>, busses: map<string, PfBus>, i: nat)
    requires forall id :: id in order ==> id in busses
    ensures var c := NodeCounts(order, busses);
      |OrderedNodes(order, busses)| == SelAllFromAll(c).stop &&
      (i < c.nSl ==> OrderedNodes(order, busses)[ISl(c, i)] == NodesOfType(order, busses, PowerFlow.SL)[i]) &&
      (i < c.nPq ==> OrderedNodes(order, busses)[IPq(c, i)] == NodesOfType(order, busses, PowerFlow.PQ)[i]) &&
      (i < c.nPv ==> OrderedNodes(order, busses)[IPv(c, i)] == NodesOfType(order, busses, PowerFlow.PV)[i])
  {
  }

  // ------------------------------------------------ admittance stamping

  /** The sparse Y matrix: absent entries are zero. */
  type SparseY = map<(nat, nat), Complex>

  function YAt(y: SparseY, a: nat, b: nat): Complex
  {
    if (a, b) in y then y[(a, b)] else CZero
  }

  /** `Y_(a, b) += x`. */
  function AddAt(y: SparseY, a: nat, b: nat, x: Complex): SparseY
  {
    y[(a, b) := CAdd(YAt(y, a, b), x)]
  }

  /** The term pairs (i, k), (k, i) for i < k' < k, in loop order. */
  function RowPairs(i: nat, k: nat): seq<(nat, nat)>
    decreases k
  {
    if k <= i + 1 then [] else RowPairs(i, k - 1) + [(i, k - 1), (k - 1, i)]
  }

  /** The term pairs of outer iteration i: the diagonal once, then each later
      term in both directions. */
  function TermPairs(i: nat, n: nat): seq<(nat, nat)>
  {
    [(i, i)] + RowPairs(i, n)
  }

  /** The term pairs of outer iterations 0..i-1. */
  function PairsUpTo(n: nat, i: nat): seq<(nat, nat)>
  {
    if i == 0 then [] else PairsUpTo(n, i - 1) + TermPairs(i - 1, n)
  }

  /** How many times p occurs in s. */
  function Occurrences(s: seq<(nat, nat)>, p: (nat, nat)): nat
  {
    if |s| == 0 then 0 else Occurrences(s[..|s| - 1], p) + (if s[|s| - 1] == p then 1 else 0)
  }

  lemma {:induction false} OccurrencesAppend(s: seq<(nat, nat)>, t: seq<(nat, nat)>, p: (nat, nat))
    ensures Occurrences(s + t, p) == Occurrences(s, p) + Occurrences(t, p)
    decreases |t|
  {
    if |t| > 0 {
      assert (s + t)[..|s + t| - 1] == s + t[..|t| - 1];
      OccurrencesAppend(s, t[..|t| - 1], p);
    } else {
      assert s + t == s;
    }
  }

  lemma OccurrencesTwo(x: (nat, nat), z: (nat, nat), p: (nat, nat))
    ensures Occurrences([x, z], p) == (if x == p then 1 else 0) + (if z == p then 1 else 0)
  {
    assert [x, z][..1] == [x];
    assert [x][..0] == [];
    assert Occurrences([x], p) == Occurrences([], p) + (if x == p then 1 else 0);
  }

  lemma {:induction false} RowPairsCount(i: nat, k: nat, p: (nat, nat))
    ensures Occurrences(RowPairs(i, k), p) ==
      if (p.0 == i && i < p.1 < k) || (p.1 == i && i < p.0 < k) then 1 else 0
    decreases k
  {
    if k > i + 1 {
      RowPairsCount(i, k - 1, p);
      OccurrencesAppend(RowPairs(i, k - 1), [(i, k - 1), (k - 1, i)], p);
      OccurrencesTwo((i, k - 1), (k - 1, i), p);
    }
  }

  lemma {:induction false} PairsUpToCount(n: nat, i: nat, p: (nat, nat))
    requires i <= n
    ensures Occurrences(PairsUpTo(n, i), p) == if (p.0 < i || p.1 < i) && p.0 < n && p.1 < n then 1 else 0
  {
    if i > 0 {
      PairsUpToCount(n, i - 1, p);
      RowPairsCount(i - 1, n, p);
      OccurrencesAppend(PairsUpTo(n, i - 1), TermPairs(i - 1, n), p);
      OccurrencesAppend([(i - 1, i - 1)], RowPairs(i - 1, n), p);
      assert [(i - 1, i - 1)][..0] == [];
    }
  }

  /** The stamping loops visit every term pair (i, k) of an n-term branch
      exactly once: each diagonal term once, each off-diagonal pair in both
      directions. */
  lemma BranchPairsExactlyOnce(n: nat, p: (nat, nat))
    ensures Occurrences(PairsUpTo(n, n), p) == if p.0 < n && p.1 < n then 1 else 0
  {
    PairsUpToCount(n, n, p);
  }

  /** Stamping term pairs: pair (i, k) adds m[i][k] at (tn[i], tn[k]), tn
      being the node index of each term. */
  function StampPairs(y: SparseY, tn: seq<nat>, m: seq<seq<Complex>>, pairs: seq<(nat, nat)>): SparseY
  {
    if |pairs| == 0 then y
    else
      var prev := StampPairs(y, tn, m, pairs[..|pairs| - 1]);
      var p := pairs[|pairs| - 1];
      if p.0 < |tn| && p.1 < |tn| && p.0 < |m| && p.1 < |m[p.0]| then AddAt(prev, tn[p.0], tn[p.1], m[p.0][p.1])
      else prev
  }

  /** What pair p adds at (a, b). */
  function Contribution(tn: seq<nat>, m: seq<seq<Complex>>, p: (nat, nat), a: nat, b: nat): Complex
  {
    if p.0 < |tn| && p.1 < |tn| && p.0 < |m| && p.1 < |m[p.0]| && tn[p.0] == a && tn[p.1] == b then m[p.0][p.1]
    else CZero
  }

  /** The total a list of term pairs adds at (a, b). */
  function SumPairs(tn: seq<nat>, m: seq<seq<Complex>>, pairs: seq<(nat, nat)>, a: nat, b: nat): Complex
  {
    if |pairs| == 0 then CZero
    else CAdd(SumPairs(tn, m, pairs[..|pairs| - 1], a, b), Contribution(tn, m, pairs[|pairs| - 1], a, b))
  }

  /** Stamping adds each entry's total to what was there. */
  lemma {:induction false} StampPairsAt(y: SparseY, tn: seq<nat>, m: seq<seq<Complex>>, pairs: seq<(nat, nat)>, a: nat, b: nat)
    ensures YAt(StampPairs(y, tn, m, pairs), a, b) == CAdd(YAt(y, a, b), SumPairs(tn, m, pairs, a, b))
  {
    if |pairs| > 0 {
      var init, p := pairs[..|pairs| - 1], pairs[|pairs| - 1];
      var prev := StampPairs(y, tn, m, init);
      StampPairsAt(y, tn, m, init, a, b);
      var c := Contribution(tn, m, p, a, b);
      if p.0 < |tn| && p.1 < |tn| && p.0 < |m| && p.1 < |m[p.0]| {
        AddAtAt(prev, tn[p.0], tn[p.1], m[p.0][p.1], a, b);
      }
      assert YAt(StampPairs(y, tn, m, pairs), a, b) == CAdd(YAt(prev, a, b), c);
      AddAssoc(YAt(y, a, b), SumPairs(tn, m, init, a, b), c);
    }
  }

  /** What `Y_(x, z) += v` leaves at (a, b). */
  lemma AddAtAt(y: SparseY, x: nat, z: nat, v: Complex, a: nat, b: nat)
    ensures YAt(AddAt(y, x, z, v), a, b) == CAdd(YAt(y, a, b), if x == a && z == b then v else CZero)
  {
  }

  lemma AddAssoc(c1: Complex, c2: Complex, c3: Complex)
    ensures CAdd(CAdd(c1, c2), c3) == CAdd(c1, CAdd(c2, c3))
  {
  }

  lemma {:induction false} SumPairsAppend(tn: seq<nat>, m: seq<seq<Complex>>, s: seq<(nat, nat)>, t: seq<(nat, nat)>, a: nat, b: nat)
    ensures SumPairs(tn, m, s + t, a, b) == CAdd(SumPairs(tn, m, s, a, b), SumPairs(tn, m, t, a, b))
    decreases |t|
  {
    if |t| > 0 {
      assert (s + t)[..|s + t| - 1] == s + t[..|t| - 1];
      SumPairsAppend(tn, m, s, t[..|t| - 1], a, b);
    } else {
      assert s + t == s;
    }
  }

  lemma {:induction false} StampPairsAppend(y: SparseY, tn: seq<nat>, m: seq<seq<Complex>>, s: seq<(nat, nat)>, t: seq<(nat, nat)>)
    ensures StampPairs(y, tn, m, s + t) == StampPairs(StampPairs(y, tn, m, s), tn, m, t)
    decreases |t|
  {
    if |t| > 0 {
      assert (s + t)[..|s + t| - 1] == s + t[..|t| - 1];
      StampPairsAppend(y, tn, m, s, t[..|t| - 1]);
    } else {
      assert s + t == s;
    }
  }

  predicate SymmetricC(m: seq<seq<Complex>>, n: nat)
    requires PowerFlow.Square(m, n)
  {
    forall i, k :: 0 <= i < n && 0 <= k < n ==> m[i][k] == m[k][i]
  }

  /** A pair stamped in both directions adds the same at (a, b) as at
      (b, a). */
  lemma SumPairsTwo(tn: seq<nat>, m: seq<seq<Complex>>, x: (nat, nat), z: (nat, nat), a: nat, b: nat)
    ensures SumPairs(tn, m, [x, z], a, b) == CAdd(CAdd(CZero, Contribution(tn, m, x, a, b)), Contribution(tn, m, z, a, b))
  {
    assert [x, z][..1] == [x];
    assert [x][..0] == [];
    assert SumPairs(tn, m, [x], a, b) == CAdd(SumPairs(tn, m, [], a, b), Contribution(tn, m, x, a, b));
  }

  lemma ContributionSwap(tn: seq<nat>, m: seq<seq<Complex>>, i: nat, k: nat, a: nat, b: nat)
    requires PowerFlow.Square(m, |tn|) && SymmetricC(m, |tn|)
    ensures Contribution(tn, m, (i, k), a, b) == Contribution(tn, m, (k, i), b, a)
  {
    if i < |tn| && k < |tn| {
      assert m[i][k] == m[k][i];
    }
  }

  lemma PairSymmetric(tn: seq<nat>, m: seq<seq<Complex>>, i: nat, k: nat, a: nat, b: nat)
    requires PowerFlow.Square(m, |tn|) && SymmetricC(m, |tn|)
    ensures SumPairs(tn, m, [(i, k), (k, i)], a, b) == SumPairs(tn, m, [(i, k), (k, i)], b, a)
  {
    SumPairsTwo(tn, m, (i, k), (k, i), a, b);
    SumPairsTwo(tn, m, (i, k), (k, i), b, a);
    ContributionSwap(tn, m, i, k, a, b);
    ContributionSwap(tn, m, k, i, a, b);
    AddTwoSwap(Contribution(tn, m, (i, k), a, b), Contribution(tn, m, (k, i), a, b));
  }

  lemma AddTwoSwap(c1: Complex, c2: Complex)
    ensures CAdd(CAdd(CZero, c1), c2) == CAdd(CAdd(CZero, c2), c1)
  {
  }

  lemma DiagSymmetric(tn: seq<nat>, m: seq<seq<Complex>>, d: nat, a: nat, b: nat)
    ensures SumPairs(tn, m, [(d, d)], a, b) == SumPairs(tn, m, [(d, d)], b, a)
  {
    assert [(d, d)][..0] == [];
  }

  lemma {:induction false} RowPairsSymmetric(tn: seq<nat>, m: seq<seq<Complex>>, i: nat, k: nat, a: nat, b: nat)
    requires PowerFlow.Square(m, |tn|) && SymmetricC(m, |tn|)
    ensures SumPairs(tn, m, RowPairs(i, k), a, b) == SumPairs(tn, m, RowPairs(i, k), b, a)
    decreases k
  {
    if k > i + 1 {
      var prev, two := RowPairs(i, k - 1), [(i, k - 1), (k - 1, i)];
      assert RowPairs(i, k) == prev + two;
      RowPairsSymmetric(tn, m, i, k - 1, a, b);
      SumPairsAppend(tn, m, prev, two, a, b);
      SumPairsAppend(tn, m, prev, two, b, a);
      PairSymmetric(tn, m, i, k - 1, a, b);
    }
  }

  lemma TermPairsSymmetric(tn: seq<nat>, m: seq<seq<Complex>>, i: nat, a: nat, b: nat)
    requires PowerFlow.Square(m, |tn|) && SymmetricC(m, |tn|)
    ensures SumPairs(tn, m, TermPairs(i, |tn|), a, b) == SumPairs(tn, m, TermPairs(i, |tn|), b, a)
  {
    RowPairsSymmetric(tn, m, i, |tn|, a, b);
    DiagSymmetric(tn, m, i, a, b);
    SumPairsAppend(tn, m, [(i, i)], RowPairs(i, |tn|), a, b);
    SumPairsAppend(tn, m, [(i, i)], RowPairs(i, |tn|), b, a);
  }

  lemma {:induction false} PairsUpToSymmetric(tn: seq<nat>, m: seq<seq<Complex>>, i: nat, a: nat, b: nat)
    requires PowerFlow.Square(m, |tn|) && SymmetricC(m, |tn|)
    ensures SumPairs(tn, m, PairsUpTo(|tn|, i), a, b) == SumPairs(tn, m, PairsUpTo(|tn|, i), b, a)
  {
    if i > 0 {
      PairsUpToSymmetric(tn, m, i - 1, a, b);
      TermPairsAfterSymmetric(tn, m, PairsUpTo(|tn|, i - 1), i - 1, PairsUpTo(|tn|, i), a, b);
    }
  }

  /** Appending the pairs of one more outer iteration keeps a list that
      adds the same at (a, b) as at (b, a) so. */
  lemma TermPairsAfterSymmetric(tn: seq<nat>, m: seq<seq<Complex>>, s: seq<(nat, nat)>, i: nat, u: seq<(nat, nat)>, a: nat, b: nat)
    requires PowerFlow.Square(m, |tn|) && SymmetricC(m, |tn|)
    requires SumPairs(tn, m, s, a, b) == SumPairs(tn, m, s, b, a)
    requires u == s + TermPairs(i, |tn|)
    ensures SumPairs(tn, m, u, a, b) == SumPairs(tn, m, u, b, a)
  {
    TermPairsSymmetric(tn, m, i, a, b);
    SumPairsAppend(tn, m, s, TermPairs(i, |tn|), a, b);
    SumPairsAppend(tn, m, s, TermPairs(i, |tn|), b, a);
  }

  /** A branch resolved against the node numbering: the node index of each
      of its terms, and its admittance matrix. */
  datatype Stamp = Stamp(tn: seq<nat>, m: seq<seq<Complex>>)

  predicate StampShaped(st: Stamp)
  {
    PowerFlow.Square(st.m, |st.tn|)
  }

  /** All branches stamped in order. */
  function StampBranches(y: SparseY, sts: seq<Stamp>): SparseY
  {
    if |sts| == 0 then y
    else
      var st := sts[|sts| - 1];
      StampPairs(StampBranches(y, sts[..|sts| - 1]), st.tn, st.m, PairsUpTo(|st.tn|, |st.tn|))
  }

  lemma StampBranchesSnoc(sts: seq<Stamp>, st: Stamp)
    ensures StampBranches(map[], sts + [st]) ==
              StampPairs(StampBranches(map[], sts), st.tn, st.m, PairsUpTo(|st.tn|, |st.tn|))
  {
    assert (sts + [st])[..|sts|] == sts;
  }

  /** The shunt terms of nodes 0..k-1 added to the diagonal. */
  function StampShunts(y: SparseY, nodes: seq<PfNode>, k: nat): SparseY
    requires k <= |nodes|
  {
    if k == 0 then y else AddAt(StampShunts(y, nodes, k - 1), k - 1, k - 1, nodes[k - 1].yZip)
  }

  lemma {:induction false} StampBranchesSymmetric(y: SparseY, sts: seq<Stamp>, a: nat, b: nat)
    requires YAt(y, a, b) == YAt(y, b, a)
    requires forall k :: 0 <= k < |sts| ==> StampShaped(sts[k]) && SymmetricC(sts[k].m, |sts[k].tn|)
    ensures YAt(StampBranches(y, sts), a, b) == YAt(StampBranches(y, sts), b, a)
  {
    if |sts| > 0 {
      var st := sts[|sts| - 1];
      var prev := StampBranches(y, sts[..|sts| - 1]);
      StampBranchesSymmetric(y, sts[..|sts| - 1], a, b);
      StampPairsAt(prev, st.tn, st.m, PairsUpTo(|st.tn|, |st.tn|), a, b);
      StampPairsAt(prev, st.tn, st.m, PairsUpTo(|st.tn|, |st.tn|), b, a);
      PairsUpToSymmetric(st.tn, st.m, |st.tn|, a, b);
    }
  }

  lemma {:induction false} StampShuntsSymmetric(y: SparseY, nodes: seq<PfNode>, k: nat, a: nat, b: nat)
    requires k <= |nodes|
    requires YAt(y, a, b) == YAt(y, b, a)
    ensures YAt(StampShunts(y, nodes, k), a, b) == YAt(StampShunts(y, nodes, k), b, a)
  {
    if k > 0 {
      StampShuntsSymmetric(y, nodes, k - 1, a, b);
    }
  }

  /** When every branch admittance matrix is symmetric, so is the assembled
      Y, shunts included. */
  lemma AssembledYSymmetric(sts: seq<Stamp>, nodes: seq<PfNode>, a: nat, b: nat)
    requires forall k :: 0 <= k < |sts| ==> StampShaped(sts[k]) && SymmetricC(sts[k].m, |sts[k].tn|)
    ensures YAt(StampShunts(StampBranches(map[], sts), nodes, |nodes|), a, b) ==
            YAt(StampShunts(StampBranches(map[], sts), nodes, |nodes|), b, a)
  {
    StampBranchesSymmetric(map[], sts, a, b);
    StampShuntsSymmetric(StampBranches(map[], sts), nodes, |nodes|, a, b);
  }

  /** The inner loop of the stamping: term i against every later term k,
      in both directions. */
  method StampRow(y0: SparseY, tn: seq<nat>, m: seq<seq<Complex>>, i: nat) returns (y: SparseY)
    requires PowerFlow.Square(m, |tn|) && i < |tn|
    ensures y == StampPairs(y0, tn, m, RowPairs(i, |tn|))
  {
    y := y0;
    var k := i + 1;
    while k < |tn|
      invariant i + 1 <= k <= |tn|
      invariant y == StampPairs(y0, tn, m, RowPairs(i, k))
    {
      var two := [(i, k), (k, i)];
      StampPairsAppend(y0, tn, m, RowPairs(i, k), two);
      assert two[..1] == [(i, k)] && [(i, k)][..0] == [];
      assert StampPairs(y, tn, m, [(i, k)]) == AddAt(StampPairs(y, tn, m, []), tn[i], tn[k], m[i][k]);
      y := AddAt(y, tn[i], tn[k], m[i][k]);
      y := AddAt(y, tn[k], tn[i], m[k][i]);
      k := k + 1;
    }
  }

  /** One branch stamped into Y: each diagonal term once, each pair of
      distinct terms in both directions. */
  method StampBranch(y0: SparseY, tn: seq<nat>, m: seq<seq<Complex>>) returns (y: SparseY)
    requires PowerFlow.Square(m, |tn|)
    ensures y == StampPairs(y0, tn, m, PairsUpTo(|tn|, |tn|))
  {
    y := y0;
    var i := 0;
    while i < |tn|
      invariant 0 <= i <= |tn|
      invariant y == StampPairs(y0, tn, m, PairsUpTo(|tn|, i))
    {
      y := StampTerm(y0, tn, m, i, y);
      i := i + 1;
    }
  }

  /** One pass of the outer loop: the diagonal term of term i, then term i
      against every later term. */
  method StampTerm(y0: SparseY, tn: seq<nat>, m: seq<seq<Complex>>, i: nat, y: SparseY) returns (y': SparseY)
    requires PowerFlow.Square(m, |tn|) && i < |tn|
    requires y == StampPairs(y0, tn, m, PairsUpTo(|tn|, i))
    ensures y' == StampPairs(y0, tn, m, PairsUpTo(|tn|, i + 1))
  {
    StampPairsAppend(y0, tn, m, PairsUpTo(|tn|, i), TermPairs(i, |tn|));
    assert PairsUpTo(|tn|, i + 1) == PairsUpTo(|tn|, i) + TermPairs(i, |tn|);
    assert [(i, i)][..0] == [];
    var yDiag := AddAt(y, tn[i], tn[i], m[i][i]);
    assert yDiag == StampPairs(y, tn, m, [(i, i)]);
    StampPairsAppend(y, tn, m, [(i, i)], RowPairs(i, |tn|));
    y' := StampRow(yDiag, tn, m, i);
  }


  // ------------------------------------------------ resolving branch terms

  /** The first position of p in vec (phaseIndex on a phase vector). */
  function PositionOf(vec: seq<Phase>, p: Phase): (r: Option<nat>)
    ensures r.Some? ==> r.value < |vec| && vec[r.value] == p
    ensures r.None? <==> p !in vec
  {
    if |vec| == 0 then None
    else if vec[0] == p then Some(0)
    else match PositionOf(vec[1..], p)
      case None => None
      case Some(k) => Some(k + 1)
  }

  /** Every phase of each branch end is a phase of that end's bus (when the
      bus exists): the source looks the phase up with phaseIndex and indexes
      the bus's nodes with the answer, so an absent phase is not handled. */
  predicate PhasesPresent(busses: map<string, PfBus>, branches: seq<PfBranch>)
  {
    forall k :: 0 <= k < |branches| ==>
      (branches[k].id0 in busses ==>
        forall p :: p in PowerFlow.CanonicalPhases(branches[k].phases0) ==>
          p in PowerFlow.CanonicalPhases(busses[branches[k].id0].phases)) &&
      (branches[k].id1 in busses ==>
        forall p :: p in PowerFlow.CanonicalPhases(branches[k].phases1) ==>
          p in PowerFlow.CanonicalPhases(busses[branches[k].id1].phases))
  }

  /** Term t of a branch: bus t / nPhase (0 or 1), branch phase t % nPhase,
      looked up among that bus's phases. */
  function TermKey(b: PfBranch, busses: map<string, PfBus>, t: nat): (key: (string, nat))
    requires BranchShaped(b) && t < 2 * b.nPhase
    requires b.id0 in busses && b.id1 in busses
    requires PhasesPresent(busses, [b])
    ensures key.0 in busses && key.1 < NPhase(busses[key.0].phases)
  {
    var atEnd0 := t < b.nPhase;
    var id := if atEnd0 then b.id0 else b.id1;
    var phase := if atEnd0 then PowerFlow.CanonicalPhases(b.phases0)[t]
                 else PowerFlow.CanonicalPhases(b.phases1)[t - b.nPhase];
    assert PhasesPresent(busses, [b]) && [b][0] == b;
    (id, PositionOf(PowerFlow.CanonicalPhases(busses[id].phases), phase).value)
  }

  /** The node numbering idx_ of every listed node is its position. */
  predicate Numbered(nodes: seq<PfNode>, idx: map<(string, nat), nat>)
  {
    forall i :: 0 <= i < |nodes| ==> Key(nodes[i]) in idx && idx[Key(nodes[i])] == i
  }

  /** The node indices of a branch's terms. */
  function TermNodes(b: PfBranch, busses: map<string, PfBus>, idx: map<(string, nat), nat>): seq<nat>
    requires BranchShaped(b) && b.id0 in busses && b.id1 in busses && PhasesPresent(busses, [b])
    requires forall t :: 0 <= t < 2 * b.nPhase ==> TermKey(b, busses, t) in idx
  {
    seq(2 * b.nPhase, t requires 0 <= t < 2 * b.nPhase => idx[TermKey(b, busses, t)])
  }

  /** A stamp made from a branch between known busses: the branch's
      matrix, and for each term t the node idx_ gives to phase t mod nPhase
      of bus t / nPhase (TermKey), a node below nNode. */
  predicate StampOf(st: Stamp, b: PfBranch, busses: map<string, PfBus>, idx: map<(string, nat), nat>, nNode: nat)
  {
    st.m == b.y && |st.tn| == 2 * b.nPhase &&
    BranchShaped(b) && b.id0 in busses && b.id1 in busses && PhasesPresent(busses, [b]) &&
    forall t :: 0 <= t < |st.tn| ==>
      TermKey(b, busses, t) in idx && st.tn[t] == idx[TermKey(b, busses, t)] && st.tn[t] < nNode
  }

  /** When every bus has a supported type, the ordered list holds each
      node of each bus exactly once. */
  lemma AllNodesListed(order: seq<string>, busses: map<string, PfBus>)
    requires (forall id :: id in order <==> id in busses) && BussesShaped(busses) && SortedIds(order)
    requires forall k :: 0 <= k < |order| ==> Supported(busses[order[k]].busType)
    ensures forall i, j :: 0 <= i < j < |OrderedNodes(order, busses)| ==>
      Key(OrderedNodes(order, busses)[i]) != Key(OrderedNodes(order, busses)[j])
    ensures forall id, p :: id in busses && 0 <= p < |busses[id].nodes| ==> busses[id].nodes[p] in OrderedNodes(order, busses)
  {
    OrderedNodesSpec(order, busses);
    forall id, p | id in busses && 0 <= p < |busses[id].nodes|
      ensures busses[id].nodes[p] in OrderedNodes(order, busses)
    {
      var k :| 0 <= k < |order| && order[k] == id;
    }
  }

  /** The node partition of validate: the nodes of each bus, busses in key
      order, appended to the list of the bus's type; the first bus of
      unsupported type stops it. */
  method PartitionNodes(order: seq<string>, busses: map<string, PfBus>)
      returns (bad: Option<PowerFlow.BusType>, sl: seq<PfNode>, pq: seq<PfNode>, pv: seq<PfNode>)
    requires forall id :: id in order ==> id in busses
    ensures bad == FirstUnsupported(order, busses)
    ensures bad.None? ==>
              sl == NodesOfType(order, busses, PowerFlow.SL) && pq == NodesOfType(order, busses, PowerFlow.PQ) &&
              pv == NodesOfType(order, busses, PowerFlow.PV)
  {
    sl, pq, pv := [], [], [];
    var b := 0;
    while b < |order|
      invariant 0 <= b <= |order|
      invariant forall k :: 0 <= k < b ==> Supported(busses[order[k]].busType)
      invariant sl == NodesOfType(order[..b], busses, PowerFlow.SL)
      invariant pq == NodesOfType(order[..b], busses, PowerFlow.PQ)
      invariant pv == NodesOfType(order[..b], busses, PowerFlow.PV)
    {
      var bus := busses[order[b]];
      assert order[..b + 1][..b] == order[..b];
      if bus.busType == PowerFlow.PQ {
        pq := pq + bus.nodes;
      } else if bus.busType == PowerFlow.PV {
        pv := pv + bus.nodes;
      } else if bus.busType == PowerFlow.SL {
        sl := sl + bus.nodes;
      } else {
        bad := Some(bus.busType);
        FirstUnsupportedAt(order, busses, b);
        return;
      }
      b := b + 1;
    }
    assert order[..b] == order;
    FirstUnsupportedSpec(order, busses);
    bad := None;
  }

  /** Every node's idx_ set to its position in the ordered list; the
      numbering of nodes not listed is left as it was. */
  method NumberNodes(nodes: seq<PfNode>, idx0: map<(string, nat), nat>) returns (idx: map<(string, nat), nat>)
    requires forall i, j :: 0 <= i < j < |nodes| ==> Key(nodes[i]) != Key(nodes[j])
    ensures Numbered(nodes, idx)
    ensures forall key :: key in idx0 && (forall i :: 0 <= i < |nodes| ==> Key(nodes[i]) != key) ==>
              key in idx && idx[key] == idx0[key]
  {
    idx := idx0;
    var i := 0;
    while i < |nodes|
      invariant 0 <= i <= |nodes|
      invariant forall k :: 0 <= k < i ==> Key(nodes[k]) in idx && idx[Key(nodes[k])] == k
      invariant forall key :: key in idx0 && (forall k :: 0 <= k < |nodes| ==> Key(nodes[k]) != key) ==>
                  key in idx && idx[key] == idx0[key]
    {
      idx := idx[Key(nodes[i]) := i];
      i := i + 1;
    }
  }

  /** Every term of a branch between known busses is a listed, numbered
      node. */
  lemma TermKeysNumbered(busses: map<string, PfBus>, b: PfBranch, nodes: seq<PfNode>, idx: map<(string, nat), nat>)
    requires BussesShaped(busses) && BranchShaped(b) && b.id0 in busses && b.id1 in busses
    requires PhasesPresent(busses, [b]) && Numbered(nodes, idx)
    requires forall id, p :: id in busses && 0 <= p < |busses[id].nodes| ==> busses[id].nodes[p] in nodes
    ensures forall t :: 0 <= t < 2 * b.nPhase ==> TermKey(b, busses, t) in idx && idx[TermKey(b, busses, t)] < |nodes|
  {
    forall t | 0 <= t < 2 * b.nPhase
      ensures TermKey(b, busses, t) in idx && idx[TermKey(b, busses, t)] < |nodes|
    {
      var key := TermKey(b, busses, t);
      var bus := busses[key.0];
      assert bus.nodes[key.1] in nodes;
      var pos :| 0 <= pos < |nodes| && nodes[pos] == bus.nodes[key.1];
      assert Key(nodes[pos]) == key;
    }
  }

  /** The node index of each term of a branch, as the stamping loops look
      it up: bus, then the phase's position among the bus's phases, then
      that node's idx_. */
  method ResolveTerms(busses: map<string, PfBus>, b: PfBranch, nodes: seq<PfNode>, idx: map<(string, nat), nat>)
      returns (tn: seq<nat>)
    requires BussesShaped(busses) && BranchShaped(b) && b.id0 in busses && b.id1 in busses
    requires PhasesPresent(busses, [b]) && Numbered(nodes, idx)
    requires forall id, p :: id in busses && 0 <= p < |busses[id].nodes| ==> busses[id].nodes[p] in nodes
    ensures StampOf(Stamp(tn, b.y), b, busses, idx, |nodes|)
  {
    TermKeysNumbered(busses, b, nodes, idx);
    tn := TermNodes(b, busses, idx);
  }

  /** One more branch, between known busses, resolved and stamped. */
  method StampNext(busses: map<string, PfBus>, b: PfBranch, nodes: seq<PfNode>, idx: map<(string, nat), nat>,
                   sts: seq<Stamp>, y0: SparseY)
      returns (st: Stamp, y: SparseY)
    requires BussesShaped(busses) && BranchShaped(b) && b.id0 in busses && b.id1 in busses
    requires PhasesPresent(busses, [b]) && Numbered(nodes, idx)
    requires forall id, p :: id in busses && 0 <= p < |busses[id].nodes| ==> busses[id].nodes[p] in nodes
    requires y0 == StampBranches(map[], sts)
    ensures StampOf(st, b, busses, idx, |nodes|) && y == StampBranches(map[], sts + [st])
  {
    var tn := ResolveTerms(busses, b, nodes, idx);
    st := Stamp(tn, b.y);
    StampBranchesSnoc(sts, st);
    y := StampBranch(y0, tn, b.y);
  }

  /** The branch loop of validate: each branch checked for unknown busses
      (end 0 first) and stamped, in order. */
  method StampAllBranches(busses: map<string, PfBus>, branches: seq<PfBranch>, nodes: seq<PfNode>,
                          idx: map<(string, nat), nat>)
      returns (unknown: Option<string>, sts: seq<Stamp>, y: SparseY)
    requires BussesShaped(busses) && (forall k :: 0 <= k < |branches| ==> BranchShaped(branches[k]))
    requires PhasesPresent(busses, branches) && Numbered(nodes, idx)
    requires forall id, p :: id in busses && 0 <= p < |busses[id].nodes| ==> busses[id].nodes[p] in nodes
    ensures unknown == FirstUnknown(branches, busses)
    ensures unknown.None? ==>
              |sts| == |branches| && (forall k :: 0 <= k < |branches| ==> StampOf(sts[k], branches[k], busses, idx, |nodes|)) &&
              y == StampBranches(map[], sts)
  {
    y := map[];
    sts := [];
    var br := 0;
    while br < |branches|
      invariant 0 <= br <= |branches| && |sts| == br
      invariant forall k :: 0 <= k < br ==> branches[k].id0 in busses && branches[k].id1 in busses
      invariant forall k :: 0 <= k < br ==> StampOf(sts[k], branches[k], busses, idx, |nodes|)
      invariant y == StampBranches(map[], sts)
    {
      var branch := branches[br];
      if branch.id0 !in busses {
        unknown := Some(branch.id0);
        FirstUnknownAt(branches, busses, br);
        return;
      }
      if branch.id1 !in busses {
        unknown := Some(branch.id1);
        FirstUnknownAt(branches, busses, br);
        return;
      }
      sts, y := StampKnown(busses, branches, nodes, idx, br, sts, y);
      br := br + 1;
    }
    FirstUnknownSpec(branches, busses);
    unknown := None;
  }

  /** One pass of the branch loop for a branch between known busses. */
  method StampKnown(busses: map<string, PfBus>, branches: seq<PfBranch>, nodes: seq<PfNode>,
                    idx: map<(string, nat), nat>, br: nat, sts: seq<Stamp>, y: SparseY)
      returns (sts': seq<Stamp>, y': SparseY)
    requires BussesShaped(busses) && (forall k :: 0 <= k < |branches| ==> BranchShaped(branches[k]))
    requires PhasesPresent(busses, branches) && Numbered(nodes, idx)
    requires forall id, p :: id in busses && 0 <= p < |busses[id].nodes| ==> busses[id].nodes[p] in nodes
    requires br < |branches| && |sts| == br
    requires branches[br].id0 in busses && branches[br].id1 in busses
    requires forall k :: 0 <= k < br ==> StampOf(sts[k], branches[k], busses, idx, |nodes|)
    requires y == StampBranches(map[], sts)
    ensures |sts'| == br + 1 && (forall k :: 0 <= k < br + 1 ==> StampOf(sts'[k], branches[k], busses, idx, |nodes|))
    ensures y' == StampBranches(map[], sts')
  {
    var branch := branches[br];
    assert PhasesPresent(busses, [branch]) by {
      assert branches[br] == branch;
    }
    var st;
    st, y' := StampNext(busses, branch, nodes, idx, sts, y);
    sts' := sts + [st];
  }

  /** The shunt loop of validate: node i's YZip added at (i, i). */
  method AddShunts(y0: SparseY, nodes: seq<PfNode>) returns (y: SparseY)
    ensures y == StampShunts(y0, nodes, |nodes|)
  {
    y := y0;
    var i := 0;
    while i < |nodes|
      invariant 0 <= i <= |nodes|
      invariant y == StampShunts(y0, nodes, i)
    {
      y := AddAt(y, i, i, nodes[i].yZip);
      i := i + 1;
    }
  }

  /** The vector loop of validate: V, S and IZip copied from the nodes in
      order. */
  method NodeVectors(nodes: seq<PfNode>) returns (v: seq<Complex>, s: seq<Complex>, iZip: seq<Complex>)
    ensures |v| == |nodes| && |s| == |nodes| && |iZip| == |nodes|
    ensures forall i :: 0 <= i < |nodes| ==> v[i] == nodes[i].v && s[i] == nodes[i].s && iZip[i] == nodes[i].iZip
  {
    var n := |nodes|;
    v := seq(n, _ => CZero);
    s := seq(n, _ => CZero);
    iZip := seq(n, _ => CZero);
    var i := 0;
    while i < n
      invariant 0 <= i <= n && |v| == n && |s| == n && |iZip| == n
      invariant forall k :: 0 <= k < i ==> v[k] == nodes[k].v && s[k] == nodes[k].s && iZip[k] == nodes[k].iZip
    {
      v := v[i := nodes[i].v];
      s := s[i := nodes[i].s];
      iZip := iZip[i := nodes[i].iZip];
      i := i + 1;
    }
  }

  datatype Outcome = Validated | UnsupportedBusType(busType: PowerFlow.BusType) | UnknownBus(id: string)

  /** The first unsupported bus type in key order, if any. */
  function FirstUnsupported(order: seq<string>, busses: map<string, PfBus>): Option<PowerFlow.BusType>
    requires forall id :: id in order ==> id in busses
  {
    if |order| == 0 then None
    else
      var r := FirstUnsupported(order[..|order| - 1], busses);
      if r.Some? then r
      else if !Supported(busses[order[|order| - 1]].busType) then Some(busses[order[|order| - 1]].busType)
      else None
  }

  /** No unsupported bus exactly when every bus is supported; otherwise the
      answer is the type of an unsupported bus with only supported busses
      before it. */
  lemma {:induction false} FirstUnsupportedSpec(order: seq<string>, busses: map<string, PfBus>)
    requires forall id :: id in order ==> id in busses
    ensures var r := FirstUnsupported(order, busses);
      (r.None? <==> forall k :: 0 <= k < |order| ==> Supported(busses[order[k]].busType)) &&
      (r.Some? ==>
        exists k :: 0 <= k < |order| && r.value == busses[order[k]].busType && !Supported(r.value) &&
          forall k' :: 0 <= k' < k ==> Supported(busses[order[k']].busType))
  {
    if |order| > 0 {
      var prefix := order[..|order| - 1];
      assert forall k :: 0 <= k < |prefix| ==> prefix[k] == order[k];
      FirstUnsupportedSpec(prefix, busses);
    }
  }

  /** The bus at position b is the first unsupported one. */
  lemma {:induction false} FirstUnsupportedAt(order: seq<string>, busses: map<string, PfBus>, b: nat)
    requires forall id :: id in order ==> id in busses
    requires b < |order| && !Supported(busses[order[b]].busType)
    requires forall k :: 0 <= k < b ==> Supported(busses[order[k]].busType)
    ensures FirstUnsupported(order, busses) == Some(busses[order[b]].busType)
  {
    var prefix := order[..|order| - 1];
    assert forall k :: 0 <= k < |prefix| ==> prefix[k] == order[k];
    if b < |order| - 1 {
      FirstUnsupportedAt(prefix, busses, b);
    } else {
      FirstUnsupportedSpec(prefix, busses);
    }
  }

  /** The first id of a branch end naming no bus, branches in order and
      end 0 before end 1. */
  function FirstUnknown(branches: seq<PfBranch>, busses: map<string, PfBus>): Option<string>
  {
    if |branches| == 0 then None
    else
      var r := FirstUnknown(branches[..|branches| - 1], busses);
      var last := branches[|branches| - 1];
      if r.Some? then r
      else if last.id0 !in busses then Some(last.id0)
      else if last.id1 !in busses then Some(last.id1)
      else None
  }

  /** No unknown bus exactly when both ends of every branch are busses;
      otherwise the answer is a missing end of a branch with only known
      busses before it, end 0 taking precedence. */
  lemma {:induction false} FirstUnknownSpec(branches: seq<PfBranch>, busses: map<string, PfBus>)
    ensures var r := FirstUnknown(branches, busses);
      (r.None? <==> forall k :: 0 <= k < |branches| ==> branches[k].id0 in busses && branches[k].id1 in busses) &&
      (r.Some? ==>
        exists k :: 0 <= k < |branches| &&
          (forall k' :: 0 <= k' < k ==> branches[k'].id0 in busses && branches[k'].id1 in busses) &&
          r.value == (if branches[k].id0 !in busses then branches[k].id0 else branches[k].id1) &&
          r.value !in busses)
  {
    if |branches| > 0 {
      var prefix := branches[..|branches| - 1];
      assert forall k :: 0 <= k < |prefix| ==> prefix[k] == branches[k];
      FirstUnknownSpec(prefix, busses);
    }
  }

  /** Branch br is the first with an unknown bus. */
  lemma {:induction false} FirstUnknownAt(branches: seq<PfBranch>, busses: map<string, PfBus>, br: nat)
    requires br < |branches| && (branches[br].id0 !in busses || branches[br].id1 !in busses)
    requires forall k :: 0 <= k < br ==> branches[k].id0 in busses && branches[k].id1 in busses
    ensures FirstUnknown(branches, busses) ==
              Some(if branches[br].id0 !in busses then branches[br].id0 else branches[br].id1)
  {
    var prefix := branches[..|branches| - 1];
    assert forall k :: 0 <= k < |prefix| ==> prefix[k] == branches[k];
    if br < |branches| - 1 {
      FirstUnknownAt(prefix, busses, br);
    } else {
      FirstUnknownSpec(prefix, busses);
    }
  }

  /** What validate ends with: the first unsupported bus type is fatal,
      then the first unknown bus of a branch. */
  function Validation(order: seq<string>, busses: map<string, PfBus>, branches: seq<PfBranch>): Outcome
    requires forall id :: id in order ==> id in busses
  {
    match FirstUnsupported(order, busses)
    case Some(t) => UnsupportedBusType(t)
    case None =>
      match FirstUnknown(branches, busses)
      case Some(id) => UnknownBus(id)
      case None => Validated
  }

  /** Y is the stamp of every branch, in order, each term at the node idx_
      gives its bus and phase, followed by the shunts. */
  ghost predicate Assembled(busses: map<string, PfBus>, branches: seq<PfBranch>, nodes: seq<PfNode>,
                            idx: map<(string, nat), nat>, y: SparseY)
  {
    exists sts: seq<Stamp> :: |sts| == |branches| &&
      (forall k :: 0 <= k < |branches| ==> StampOf(sts[k], branches[k], busses, idx, |nodes|)) &&
      y == StampShunts(StampBranches(map[], sts), nodes, |nodes|)
  }

  /** V, S and IZip are the nodes' values, in order. */
  predicate Copied(nodes: seq<PfNode>, v: seq<Complex>, s: seq<Complex>, iZip: seq<Complex>)
  {
    |v| == |nodes| && |s| == |nodes| && |iZip| == |nodes| &&
    forall i :: 0 <= i < |nodes| ==> v[i] == nodes[i].v && s[i] == nodes[i].s && iZip[i] == nodes[i].iZip
  }

  /** The work of validate on values: partition and order the nodes, number
      them, stamp the branches and shunts, copy the vectors. */
  method Assemble(order: seq<string>, busses: map<string, PfBus>, branches: seq<PfBranch>,
                  idx0: map<(string, nat), nat>)
      returns (outcome: Outcome, nodes: seq<PfNode>, idx: map<(string, nat), nat>, nSl: nat, nPq: nat, nPv: nat,
               y: SparseY, v: seq<Complex>, s: seq<Complex>, iZip: seq<Complex>)
    requires (forall id :: id in order <==> id in busses) && BussesShaped(busses) && SortedIds(order)
    requires (forall k :: 0 <= k < |branches| ==> BranchShaped(branches[k])) && PhasesPresent(busses, branches)
    ensures outcome == Validation(order, busses, branches)
    ensures outcome.Validated? ==>
      nodes == OrderedNodes(order, busses) && Counts(nSl, nPq, nPv) == NodeCounts(order, busses) &&
      Numbered(nodes, idx) && Assembled(busses, branches, nodes, idx, y) && Copied(nodes, v, s, iZip)
  {
    nodes, idx, y, v, s, iZip := [], idx0, map[], [], [], [];
    nSl, nPq, nPv := 0, 0, 0;
    var bad, slNodes, pqNodes, pvNodes := PartitionNodes(order, busses);
    if bad.Some? {
      outcome := UnsupportedBusType(bad.value);
      return;
    }
    FirstUnsupportedSpec(order, busses);
    nodes := slNodes + pqNodes + pvNodes;
    nSl, nPq, nPv := |slNodes|, |pqNodes|, |pvNodes|;
    assert nodes == OrderedNodes(order, busses);
    AllNodesListed(order, busses);
    idx := NumberNodes(nodes, idx0);
    var unknown, sts, yBranches := StampAllBranches(busses, branches, nodes, idx);
    if unknown.Some? {
      outcome := UnknownBus(unknown.value);
      return;
    }
    y := AddShunts(yBranches, nodes);
    v, s, iZip := NodeVectors(nodes);
    outcome := Validated;
  }

  // ------------------------------------------------ the model

  class PowerFlowModel {
    /** busses_: a map from id to bus; busOrder is its key order. */
    var busses: map<string, PfBus>
    var busOrder: seq<string>
    var branches: seq<PfBranch>
    var nodes: seq<PfNode>
    /** The idx_ field of each node, by node key. */
    var idx: map<(string, nat), nat>
    var nSl: nat
    var nPq: nat
    var nPv: nat
    var y: SparseY
    var v: seq<Complex>
    var s: seq<Complex>
    var iZip: seq<Complex>

    ghost predicate Valid()
      reads this
    {
      SortedIds(busOrder) && (forall id :: id in busOrder <==> id in busses) && BussesShaped(busses) &&
      (forall k :: 0 <= k < |branches| ==> BranchShaped(branches[k]))
    }

    constructor ()
      ensures Valid() && busses == map[] && busOrder == [] && branches == [] && nodes == []
    {
      busses := map[];
      busOrder := [];
      branches := [];
      nodes := [];
      idx := map[];
      nSl, nPq, nPv := 0, 0, 0;
      y := map[];
      v, s, iZip := [], [], [];
    }

    function NodeCountsNow(): Counts
      reads this
    {
      Counts(nSl, nPq, nPv)
    }

    /** addBus: a new bus under id, replacing any bus already there. */
    method AddBus(id: string, busType: PowerFlow.BusType, phases: Mask,
                  yZipIn: seq<Complex>, iZipIn: seq<Complex>, sZipIn: seq<Complex>, j: real,
                  vIn: seq<Complex>, sIn: seq<Complex>)
      requires Valid()
      requires |yZipIn| == NPhase(phases) && |iZipIn| == NPhase(phases) && |sZipIn| == NPhase(phases)
      requires |vIn| == NPhase(phases) && |sIn| == NPhase(phases)
      modifies this
      ensures Valid()
      ensures id in busses && busses[id].busType == busType && busses[id].phases == phases
      ensures busses[id].yZip == yZipIn && busses[id].iZip == iZipIn && busses[id].sZip == sZipIn
      ensures busses[id].v == vIn && busses[id].s == sIn && busses[id].j == j
      ensures forall other :: other != id ==>
                (other in busses <==> other in old(busses)) && (other in busses ==> busses[other] == old(busses)[other])
      ensures id in old(busses) ==> busOrder == old(busOrder)
      ensures branches == old(branches) && nodes == old(nodes)
    {
      var bus := NewPfBus(id, busType, phases, yZipIn, iZipIn, sZipIn, j, vIn, sIn);
      if id !in busses {
        InsertIdSpec(busOrder, id);
        busOrder := InsertId(busOrder, id);
      }
      busses := busses[id := bus];
    }

    /** addBranch: appended to the branch vector. */
    method AddBranch(id0: string, id1: string, phases0: Mask, phases1: Mask, yIn: seq<seq<Complex>>)
      requires Valid()
      requires NPhase(phases1) == NPhase(phases0) && PowerFlow.Square(yIn, 2 * NPhase(phases0))
      modifies this
      ensures Valid()
      ensures branches == old(branches) + [NewPfBranch(id0, id1, phases0, phases1, yIn)]
      ensures busses == old(busses) && busOrder == old(busOrder)
    {
      branches := branches + [NewPfBranch(id0, id1, phases0, phases1, yIn)];
    }

    /** reset: no busses and no branches. */
    method Reset()
      modifies this
      ensures Valid() && busses == map[] && busOrder == [] && branches == []
    {
      busses := map[];
      busOrder := [];
      branches := [];
    }

    /** validate, on the model's own state: see Assemble. A fatal outcome
        (an abort in the source) leaves the fields as they were. */
    method Validate() returns (outcome: Outcome)
      requires Valid() && PhasesPresent(busses, branches)
      modifies this
      ensures Valid() && busses == old(busses) && busOrder == old(busOrder) && branches == old(branches)
      ensures outcome == Validation(busOrder, busses, branches)
      ensures outcome.Validated? ==>
        nodes == OrderedNodes(busOrder, busses) && NodeCountsNow() == NodeCounts(busOrder, busses) &&
        Numbered(nodes, idx) && Assembled(busses, branches, nodes, idx, y) && Copied(nodes, v, s, iZip)
      ensures !outcome.Validated? ==>
        nodes == old(nodes) && idx == old(idx) && NodeCountsNow() == old(NodeCountsNow()) &&
        y == old(y) && v == old(v) && s == old(s) && iZip == old(iZip)
    {
      var nodesNew, idxNew, nSlNew, nPqNew, nPvNew, yNew, vNew, sNew, iZipNew;
      outcome, nodesNew, idxNew, nSlNew, nPqNew, nPvNew, yNew, vNew, sNew, iZipNew := Assemble(busOrder, busses, branches, idx);
      if outcome.Validated? {
        Install(nodesNew, idxNew, nSlNew, nPqNew, nPvNew, yNew, vNew, sNew, iZipNew);
      }
    }

    /** The fields validate computes, set together. */
    method Install(nodesNew: seq<PfNode>, idxNew: map<(string, nat), nat>, nSlNew: nat, nPqNew: nat, nPvNew: nat,
                   yNew: SparseY, vNew: seq<Complex>, sNew: seq<Complex>, iZipNew: seq<Complex>)
      modifies this
      ensures busses == old(busses) && busOrder == old(busOrder) && branches == old(branches)
      ensures nodes == nodesNew && idx == idxNew && NodeCountsNow() == Counts(nSlNew, nPqNew, nPvNew)
      ensures y == yNew && v == vNew && s == sNew && iZip == iZipNew
    {
      nodes, idx, nSl, nPq, nPv := nodesNew, idxNew, nSlNew, nPqNew, nPvNew;
      y, v, s, iZip := yNew, vNew, sNew, iZipNew;
    }
  }
}
