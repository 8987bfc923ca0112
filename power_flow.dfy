// Bus types, phases and the phase set of the power-flow core
// (SgtCore/PowerFlow.h and SgtCore/PowerFlow.cc): the string codecs, the
// `Phases` bitmask with its canonical phase vector and index map, Carson's
// primitive impedance matrix and the nodal admittance of a line.

module PowerFlow {
  import opened Shared

  // ------------------------------------------------ bus types

  datatype BusType = SL | PQ | PV | NA | BAD

  function BusTypeName(t: BusType): string
  {
    match t
    case SL => "SL"
    case PQ => "PQ"
    case PV => "PV"
    case NA => "NA"
    case BAD => "BAD"
  }

  /** from_string scans this table up to its BAD sentinel; NA is not in it. */
  const BusTypeTable: seq<BusType> := [SL, PQ, PV]

  /** A table scan that keeps the last entry whose name equals str, and
      `bad` when none does. */
  function LastMatch<T>(table: seq<T>, name: T -> string, str: string, bad: T): T
  {
    if |table| == 0 then bad
    else if str == name(table[|table| - 1]) then table[|table| - 1]
    else LastMatch(table[..|table| - 1], name, str, bad)
  }

  /** When the names in the table are distinct, the scan finds the entry
      named str if there is one, and otherwise yields `bad`. */
  lemma {:induction false} LastMatchSpec<T>(table: seq<T>, name: T -> string, str: string, bad: T)
    requires forall i, j :: 0 <= i < j < |table| ==> name(table[i]) != name(table[j])
    ensures forall k :: 0 <= k < |table| && name(table[k]) == str ==> LastMatch(table, name, str, bad) == table[k]
    ensures (forall k :: 0 <= k < |table| ==> name(table[k]) != str) ==> LastMatch(table, name, str, bad) == bad
  {
    if |table| > 0 {
      LastMatchSpec(table[..|table| - 1], name, str, bad);
    }
  }

  /** The result of the scan is `bad` or an entry named str. */
  lemma {:induction false} LastMatchFound<T>(table: seq<T>, name: T -> string, str: string, bad: T)
    ensures LastMatch(table, name, str, bad) == bad
            || (LastMatch(table, name, str, bad) in table && name(LastMatch(table, name, str, bad)) == str)
  {
    if |table| > 0 {
      LastMatchFound(table[..|table| - 1], name, str, bad);
    }
  }

  function BusTypeFromString(str: string): BusType
  {
    LastMatch(BusTypeTable, BusTypeName, str, BusType.BAD)
  }

  /** from_string inverts to_string on SL, PQ and PV; "NA", "BAD" and every
      other string give BAD, and any other result names the string. */
  lemma BusTypeRoundTrip(t: BusType, str: string)
    ensures t in {SL, PQ, PV} ==> BusTypeFromString(BusTypeName(t)) == t
    ensures BusTypeFromString("NA") == BusType.BAD
    ensures BusTypeFromString(str) == BusType.BAD || BusTypeName(BusTypeFromString(str)) == str
  {
    LastMatchSpec(BusTypeTable, BusTypeName, BusTypeName(t), BusType.BAD);
    LastMatchSpec(BusTypeTable, BusTypeName, "NA", BusType.BAD);
    LastMatchFound(BusTypeTable, BusTypeName, str, BusType.BAD);
    if t in {SL, PQ, PV} {
      assert t == BusTypeTable[0] || t == BusTypeTable[1] || t == BusTypeTable[2];
    }
  }

  // ------------------------------------------------ phases

  datatype Phase = BAL | A | B | C | G | N | SP | SM | SN | BAD

  /** A mask is the set of positions of its set bits: `&` is intersection,
      `|` union and `==` equality of these sets. */
  type Mask = set<nat>

  /** The bit of each phase: BAL is 0x1 (bit 0), A 0x2, B 0x4, C 0x8, G 0x10,
      N 0x20, SP 0x40, SM 0x80, SN 0x100 and BAD 0x200 (bit 9). */
  function PhaseBit(p: Phase): nat
  {
    match p
    case BAL => 0
    case A => 1
    case B => 2
    case C => 3
    case G => 4
    case N => 5
    case SP => 6
    case SM => 7
    case SN => 8
    case BAD => 9
  }

  function PhaseName(p: Phase): string
  {
    match p
    case BAL => "BAL"
    case A => "A"
    case B => "B"
    case C => "C"
    case G => "G"
    case N => "N"
    case SP => "SP"
    case SM => "SM"
    case SN => "SN"
    case BAD => "BAD"
  }

  /** Distinct phases have distinct bits. */
  lemma PhaseBitsDistinct(p: Phase, q: Phase)
    ensures p != q ==> PhaseBit(p) != PhaseBit(q)
  {
  }

  /** The canonical order: the table rebuild walks up to its BAD sentinel. */
  const AllPhases: seq<Phase> := [BAL, A, B, C, G, N, SP, SM, SN, Phase.BAD]

  /** A phase's position in the canonical order is its bit position. */
  function PhaseOrder(p: Phase): nat
  {
    PhaseBit(p)
  }

  lemma AllPhasesOrder(k: nat)
    requires k < |AllPhases|
    ensures PhaseOrder(AllPhases[k]) == k
    ensures AllPhases[k] == Phase.BAD <==> k == 9
  {
  }

  /** hasPhase on a raw mask: p's bit is set. */
  predicate MaskHas(mask: Mask, p: Phase)
  {
    PhaseBit(p) in mask
  }

  /** `Phase | Phase` builds the mask holding exactly the two phases. */
  lemma PhaseUnionMask(a: Phase, b: Phase, p: Phase)
    ensures MaskHas({PhaseBit(a)} + {PhaseBit(b)}, p) <==> p == a || p == b
  {
    PhaseBitsDistinct(a, p);
    PhaseBitsDistinct(b, p);
  }

  /** The present phases among the first k of the canonical order. */
  function Present(mask: Mask, k: nat): seq<Phase>
    requires k <= 9
  {
    if k == 0 then []
    else Present(mask, k - 1) + (if MaskHas(mask, AllPhases[k - 1]) then [AllPhases[k - 1]] else [])
  }

  /** The phase vector `rebuild` leaves for a mask. */
  function CanonicalPhases(mask: Mask): seq<Phase>
  {
    Present(mask, 9)
  }

  /** Present lists, in increasing canonical order, exactly the phases before
      position k whose bit is set. */
  lemma {:induction false} PresentSpec(mask: Mask, k: nat)
    requires k <= 9
    ensures forall i, j :: 0 <= i < j < |Present(mask, k)| ==> PhaseOrder(Present(mask, k)[i]) < PhaseOrder(Present(mask, k)[j])
    ensures forall p :: p in Present(mask, k) <==> PhaseOrder(p) < k && MaskHas(mask, p)
  {
    if k > 0 {
      PresentSpec(mask, k - 1);
      AllPhasesOrder(k - 1);
      forall p | PhaseOrder(p) == k - 1
        ensures p == AllPhases[k - 1]
      {
      }
    }
  }

  /** The canonical vector: every phase but BAD whose bit is set, each once,
      in the order BAL, A, B, C, G, N, SP, SM, SN. */
  lemma CanonicalPhasesSpec(mask: Mask)
    ensures forall p :: p in CanonicalPhases(mask) <==> p != Phase.BAD && MaskHas(mask, p)
    ensures forall i, j :: 0 <= i < j < |CanonicalPhases(mask)| ==>
      PhaseOrder(CanonicalPhases(mask)[i]) < PhaseOrder(CanonicalPhases(mask)[j])
  {
    PresentSpec(mask, 9);
  }

  /** The index map `rebuild` leaves: each listed phase maps to its position,
      and nothing else is a key. */
  predicate IndexesVector(vec: seq<Phase>, idx: map<Phase, nat>)
  {
    (forall i :: 0 <= i < |vec| ==> vec[i] in idx && idx[vec[i]] == i)
    && (forall p :: p in idx ==> p in vec)
  }

  /** The phase names joined by "|", as Phases::to_string writes them. */
  function JoinNames(vec: seq<Phase>): string
    requires |vec| > 0
  {
    if |vec| == 1 then PhaseName(vec[0])
    else JoinNames(vec[..|vec| - 1]) + "|" + PhaseName(vec[|vec| - 1])
  }

  function CountBars(s: string): nat
  {
    if |s| == 0 then 0 else CountBars(s[..|s| - 1]) + (if s[|s| - 1] == '|' then 1 else 0)
  }

  lemma {:induction false} CountBarsAppend(s: string, t: string)
    ensures CountBars(s + t) == CountBars(s) + CountBars(t)
  {
    if |t| > 0 {
      assert (s + t)[..|s + t| - 1] == s + t[..|t| - 1];
      CountBarsAppend(s, t[..|t| - 1]);
    } else {
      assert s + t == s;
    }
  }

  lemma {:induction false} CountBarsNone(s: string)
    requires forall i :: 0 <= i < |s| ==> s[i] != '|'
    ensures CountBars(s) == 0
  {
    if |s| > 0 {
      CountBarsNone(s[..|s| - 1]);
    }
  }

  /** No phase name holds a "|", so the joined string has one separator
      fewer than there are phases, and it starts with the first name. */
  lemma {:induction false} JoinNamesSpec(vec: seq<Phase>)
    requires |vec| > 0
    ensures CountBars(JoinNames(vec)) == |vec| - 1
    ensures PhaseName(vec[0]) <= JoinNames(vec)
  {
    var last := PhaseName(vec[|vec| - 1]);
    CountBarsNone(last);
    if |vec| > 1 {
      var init := vec[..|vec| - 1];
      JoinNamesSpec(init);
      CountBarsAppend(JoinNames(init) + "|", last);
      CountBarsAppend(JoinNames(init), "|");
      assert init[0] == vec[0];
      assert CountBars("|") == 1 by {
        assert "|"[..0] == "";
      }
    }
  }

  /** from_string scans this table up to its BAD sentinel. */
  const PhaseTable: seq<Phase> := [BAL, A, B, C, G, N, SP, SM, SN]

  function PhaseFromString(str: string): Phase
  {
    LastMatch(PhaseTable, PhaseName, str, Phase.BAD)
  }

  /** from_string inverts to_string on every phase (BAD, absent from the
      table, comes back as the default), and any result other than BAD
      names the string. */
  lemma PhaseRoundTrip(p: Phase, str: string)
    ensures PhaseFromString(PhaseName(p)) == p
    ensures PhaseFromString(str) == Phase.BAD || PhaseName(PhaseFromString(str)) == str
  {
    LastMatchSpec(PhaseTable, PhaseName, PhaseName(p), Phase.BAD);
    LastMatchFound(PhaseTable, PhaseName, str, Phase.BAD);
    if p != Phase.BAD {
      assert PhaseTable[PhaseOrder(p)] == p;
    }
  }

  /** `Phases`: a mask plus, kept in step by `rebuild`, the vector of the
      phases it holds in canonical order and the map from each to its index. */
  class Phases {
    var mask: Mask
    var phaseVec: seq<Phase>
    var idxMap: map<Phase, nat>

    ghost predicate Valid()
      reads this
    {
      phaseVec == CanonicalPhases(mask) && IndexesVector(phaseVec, idxMap)
    }

    /** The default constructor: the empty mask. */
    constructor Empty()
      ensures mask == {} && phaseVec == [] && idxMap == map[]
      ensures Valid()
    {
      mask := {};
      phaseVec := [];
      idxMap := map[];
      new;
      CanonicalPhasesSpec({});
      assert CanonicalPhases({}) == [];
    }

    constructor FromMask(m: Mask)
      ensures mask == m && Valid()
    {
      mask := m;
      phaseVec := [];
      idxMap := map[];
      new;
      Rebuild();
    }

    constructor FromPhase(p: Phase)
      ensures mask == {PhaseBit(p)} && Valid()
    {
      mask := {PhaseBit(p)};
      phaseVec := [];
      idxMap := map[];
      new;
      Rebuild();
    }

    /** Recomputes the phase vector and the index map from the mask. */
    method Rebuild()
      modifies this
      ensures mask == old(mask) && Valid()
    {
      phaseVec := [];
      idxMap := map[];
      var i, j := 0, 0;
      AllPhasesOrder(9);
      while AllPhases[i] != Phase.BAD
        invariant 0 <= i <= 9 && mask == old(mask)
        invariant phaseVec == Present(mask, i) && j == |phaseVec|
        invariant IndexesVector(phaseVec, idxMap)
        decreases 9 - i
      {
        AllPhasesOrder(i);
        PresentSpec(mask, i);
        if HasPhase(AllPhases[i]) {
          phaseVec := phaseVec + [AllPhases[i]];
          idxMap := idxMap[AllPhases[i] := j];
          j := j + 1;
        }
        i := i + 1;
      }
      AllPhasesOrder(i);
    }

    /** `&=`: intersects the mask, then rebuilds. */
    method AndAssign(other: Phases)
      modifies this
      ensures mask == old(mask) * old(other.mask) && Valid()
    {
      mask := mask * other.mask;
      Rebuild();
    }

    /** `|=`: unites the mask, then rebuilds. */
    method OrAssign(other: Phases)
      modifies this
      ensures mask == old(mask) + old(other.mask) && Valid()
    {
      mask := mask + other.mask;
      Rebuild();
    }

    predicate HasPhase(p: Phase)
      reads this
    {
      MaskHas(mask, p)
    }

    predicate IsSubsetOf(other: Phases)
      reads this, other
    {
      mask * other.mask == mask
    }

    function Size(): (n: nat)
      reads this
      requires Valid()
      ensures n <= 9
    {
      PresentSpec(mask, 9);
      CountOrdered(phaseVec);
      |phaseVec|
    }

    function At(i: nat): Phase
      reads this
      requires i < |phaseVec|
    {
      phaseVec[i]
    }

    /** phaseIndex: -1 for an absent phase, the phase's position in the
        vector otherwise; a mask holding the BAD bit makes `idxMap_.at`
        throw for BAD. */
    function PhaseIndex(p: Phase): (r: Result<int>)
      reads this
      requires Valid()
      ensures r.Ok? && r.value == -1 <==> !HasPhase(p)
      ensures r.Ok? && r.value >= 0 ==> r.value < |phaseVec| && phaseVec[r.value] == p
      ensures r.Err? <==> p == Phase.BAD && HasPhase(p)
    {
      CanonicalPhasesSpec(mask);
      if !HasPhase(p) then Ok(-1)
      else if p in idxMap then Ok(idxMap[p] as int)
      else Err("map::at")
    }

    /** to_string: the names in canonical order joined by "|" (the first
        element is read unconditionally, so the set must not be empty). */
    method ToString() returns (s: string)
      requires Valid() && |phaseVec| > 0
      ensures s == JoinNames(phaseVec)
    {
      s := PhaseName(phaseVec[0]);
      var i := 1;
      while i < |phaseVec|
        invariant 1 <= i <= |phaseVec|
        invariant s == JoinNames(phaseVec[..i])
      {
        assert phaseVec[..i + 1][..i] == phaseVec[..i];
        s := s + "|" + PhaseName(phaseVec[i]);
        i := i + 1;
      }
      assert phaseVec[..i] == phaseVec;
    }
  }

  /** A strictly ordered vector of phases that all come before BAD has at
      most nine entries; used for `size()`. */
  lemma CountOrdered(vec: seq<Phase>)
    requires forall i, j :: 0 <= i < j < |vec| ==> PhaseOrder(vec[i]) < PhaseOrder(vec[j])
    requires forall i :: 0 <= i < |vec| ==> PhaseOrder(vec[i]) < 9
    ensures |vec| <= 9
  {
    if |vec| > 9 {
      OrderedBound(vec, 9);
    }
  }

  lemma {:induction false} OrderedBound(vec: seq<Phase>, k: nat)
    requires k < |vec|
    requires forall i, j :: 0 <= i < j < |vec| ==> PhaseOrder(vec[i]) < PhaseOrder(vec[j])
    ensures PhaseOrder(vec[k]) >= k
  {
    if k > 0 {
      OrderedBound(vec, k - 1);
    }
  }

  /** `operator&` on two sets: a new set built from the intersected mask. */
  method Intersect(a: Phases, b: Phases) returns (r: Phases)
    ensures fresh(r) && r.mask == a.mask * b.mask && r.Valid()
  {
    r := new Phases.FromMask(a.mask * b.mask);
  }

  /** `operator|` on two sets: a new set built from the united mask. */
  method Unite(a: Phases, b: Phases) returns (r: Phases)
    ensures fresh(r) && r.mask == a.mask + b.mask && r.Valid()
  {
    r := new Phases.FromMask(a.mask + b.mask);
  }

  /** isSubsetOf: every phase of the one set is in the other, and the
      vectors follow: the canonical vector of the intersection and of the
      union hold exactly the common phases and all phases. */
  lemma MaskSetOps(a: Mask, b: Mask, p: Phase)
    ensures a * b == a <==> a <= b
    ensures p in CanonicalPhases(a * b) <==> p in CanonicalPhases(a) && p in CanonicalPhases(b)
    ensures p in CanonicalPhases(a + b) <==> p in CanonicalPhases(a) || p in CanonicalPhases(b)
  {
    CanonicalPhasesSpec(a);
    CanonicalPhasesSpec(b);
    CanonicalPhasesSpec(a * b);
    CanonicalPhasesSpec(a + b);
  }

  // ------------------------------------------------ line impedance and admittance

  /** Entry (i, k), i <= k, of Carson's primitive impedance per unit length.
      The logarithms are parameters: lnRecip(x) stands for log(1/x) and
      lnRhoOverFreq for log(rhoEarth/freq). */
  function CarsonEntry(i: nat, k: nat, dij: seq<seq<real>>, resPerL: seq<real>, freq: real,
                       lnRhoOverFreq: real, lnRecip: real -> real): Complex
    requires i <= k < |dij| && k < |dij[i]| && i < |resPerL|
  {
    var freqCoeffReal := 0.0000009869611 * freq;
    var freqCoeffImag := 0.000001256642 * freq;
    var freqAdditiveTerm := 0.5 * lnRhoOverFreq + 6.490501;
    if i == k then Complex(resPerL[i] + freqCoeffReal, freqCoeffImag * (lnRecip(dij[i][i]) + freqAdditiveTerm))
    else Complex(freqCoeffReal, freqCoeffImag * (lnRecip(dij[i][k]) + freqAdditiveTerm))
  }

  predicate SquareReal(m: seq<seq<real>>, n: nat)
  {
    |m| == n && forall r :: 0 <= r < n ==> |m[r]| == n
  }

  /** The impedance carson returns: entry (i, k) and entry (k, i) both come
      from the upper triangle of Dij, scaled by the length L. */
  function CarsonZ(i: nat, k: nat, dij: seq<seq<real>>, resPerL: seq<real>, L: real, freq: real,
                   lnRhoOverFreq: real, lnRecip: real -> real): Complex
    requires SquareReal(dij, |resPerL|) && i < |resPerL| && k < |resPerL|
  {
    if i <= k then CScale(L, CarsonEntry(i, k, dij, resPerL, freq, lnRhoOverFreq, lnRecip))
    else CScale(L, CarsonEntry(k, i, dij, resPerL, freq, lnRhoOverFreq, lnRecip))
  }

  /** carson's Z is symmetric, and only the upper triangle of Dij (diagonal
      included) matters. */
  lemma CarsonSymmetric(i: nat, k: nat, dij: seq<seq<real>>, dij2: seq<seq<real>>, resPerL: seq<real>,
                        L: real, freq: real, lnRhoOverFreq: real, lnRecip: real -> real)
    requires SquareReal(dij, |resPerL|) && SquareReal(dij2, |resPerL|) && i < |resPerL| && k < |resPerL|
    requires forall a, b :: 0 <= a <= b < |resPerL| ==> dij[a][b] == dij2[a][b]
    ensures CarsonZ(i, k, dij, resPerL, L, freq, lnRhoOverFreq, lnRecip)
            == CarsonZ(k, i, dij, resPerL, L, freq, lnRhoOverFreq, lnRecip)
    ensures CarsonZ(i, k, dij, resPerL, L, freq, lnRhoOverFreq, lnRecip)
            == CarsonZ(i, k, dij2, resPerL, L, freq, lnRhoOverFreq, lnRecip)
  {
  }

  /** `Z *= L` on an n-by-n matrix. */
  method ScaleMatrix(z: array2<Complex>, L: real)
    modifies z
    ensures forall a, b :: 0 <= a < z.Length0 && 0 <= b < z.Length1 ==> z[a, b] == CScale(L, old(z[a, b]))
  {
    var i := 0;
    while i < z.Length0
      invariant 0 <= i <= z.Length0
      invariant forall a, b :: 0 <= a < z.Length0 && 0 <= b < z.Length1 ==>
        z[a, b] == if a < i then CScale(L, old(z[a, b])) else old(z[a, b])
    {
      var k := 0;
      while k < z.Length1
        invariant 0 <= k <= z.Length1
        invariant forall a, b :: 0 <= a < z.Length0 && 0 <= b < z.Length1 ==>
          z[a, b] == if a < i || (a == i && b < k) then CScale(L, old(z[a, b])) else old(z[a, b])
      {
        z[i, k] := CScale(L, z[i, k]);
        k := k + 1;
      }
      i := i + 1;
    }
  }

  /** carson: the primitive impedance matrix, filled row by row on and
      above the diagonal and mirrored below it, then scaled by L. */
  method Carson(nWire: nat, dij: seq<seq<real>>, resPerL: seq<real>, L: real, freq: real,
                lnRhoOverFreq: real, lnRecip: real -> real) returns (z: array2<Complex>)
    requires |resPerL| == nWire && SquareReal(dij, nWire)
    ensures fresh(z) && z.Length0 == nWire && z.Length1 == nWire
    ensures forall i, k :: 0 <= i < nWire && 0 <= k < nWire ==>
      z[i, k] == CarsonZ(i, k, dij, resPerL, L, freq, lnRhoOverFreq, lnRecip)
  {
    z := ZeroMatrix(nWire, nWire);
    var i := 0;
    while i < nWire
      invariant 0 <= i <= nWire
      invariant forall a, b :: 0 <= a < nWire && 0 <= b < nWire && (a < i || b < i) ==>
        z[a, b] == if a <= b then CarsonEntry(a, b, dij, resPerL, freq, lnRhoOverFreq, lnRecip)
                   else CarsonEntry(b, a, dij, resPerL, freq, lnRhoOverFreq, lnRecip)
    {
      z[i, i] := CarsonEntry(i, i, dij, resPerL, freq, lnRhoOverFreq, lnRecip);
      var k := i + 1;
      while k < nWire
        invariant i + 1 <= k <= nWire
        invariant forall a, b ::
                    0 <= a < nWire && 0 <= b < nWire && (a < i || b < i || (a == i && b < k) || (b == i && a < k)) ==>
          z[a, b] == if a <= b then CarsonEntry(a, b, dij, resPerL, freq, lnRhoOverFreq, lnRecip)
                     else CarsonEntry(b, a, dij, resPerL, freq, lnRhoOverFreq, lnRecip)
      {
        z[i, k] := CarsonEntry(i, k, dij, resPerL, freq, lnRhoOverFreq, lnRecip);
        z[k, i] := z[i, k];
        k := k + 1;
      }
      i := i + 1;
    }
    ScaleMatrix(z, L);
  }

  predicate Square(m: seq<seq<Complex>>, n: nat)
  {
    |m| == n && forall r :: 0 <= r < n ==> |m[r]| == n
  }

  /** Entry (r, c) of the 2n-by-2n nodal admittance [YL, -YL; -YL, YL]. */
  function YNodeAt(yLine: seq<seq<Complex>>, n: nat, r: nat, c: nat): Complex
    requires Square(yLine, n) && r < 2 * n && c < 2 * n
  {
    var i := if r < n then r else r - n;
    var j := if c < n then c else c - n;
    if (r < n) == (c < n) then yLine[i][j] else CNeg(yLine[i][j])
  }

  function YNodeRow(yLine: seq<seq<Complex>>, n: nat, r: nat): seq<Complex>
    requires Square(yLine, n) && r < 2 * n
  {
    seq(2 * n, c requires 0 <= c < 2 * n => YNodeAt(yLine, n, r, c))
  }

  /** Every row of the nodal admittance sums to zero: the current into one
      end of the line leaves at the other. */
  lemma YNodeRowSum(yLine: seq<seq<Complex>>, n: nat, r: nat)
    requires Square(yLine, n) && r < 2 * n
    ensures CSum(YNodeRow(yLine, n, r)) == CZero
  {
    var row := YNodeRow(yLine, n, r);
    var i := if r < n then r else r - n;
    var left, right := row[..n], row[n..];
    assert row == left + right;
    CSumAppend(left, right);
    if r < n {
      assert left == yLine[i];
      CSumNeg(left, right);
    } else {
      assert right == yLine[i];
      CSumNeg(right, left);
    }
  }

  /** The nodal admittance is symmetric when the line admittance is. */
  lemma YNodeSymmetric(yLine: seq<seq<Complex>>, n: nat, r: nat, c: nat)
    requires Square(yLine, n) && r < 2 * n && c < 2 * n
    requires forall i, j :: 0 <= i < n && 0 <= j < n ==> yLine[i][j] == yLine[j][i]
    ensures YNodeAt(yLine, n, r, c) == YNodeAt(yLine, n, c, r)
  {
  }

  /** Rows r with r < i or n <= r < n + i hold their final values, and so
      do the first j columns of each block in rows i and i + n. */
  predicate YNodeFilled(yNode: array2<Complex>, yLine: seq<seq<Complex>>, n: nat, i: nat, j: nat)
    reads yNode
    requires Square(yLine, n) && yNode.Length0 == 2 * n && yNode.Length1 == 2 * n
  {
    forall r, c ::
      0 <= r < 2 * n && 0 <= c < 2 * n && (r < i || n <= r < n + i || ((r == i || r == i + n) && (c < j || n <= c < n + j)))
      ==> yNode[r, c] == YNodeAt(yLine, n, r, c)
  }

  /** The four assignments of the inner loop body, for (i, j). */
  method WriteYNodeBlocks(yNode: array2<Complex>, yLine: seq<seq<Complex>>, n: nat, i: nat, j: nat)
    requires Square(yLine, n) && yNode.Length0 == 2 * n && yNode.Length1 == 2 * n && i < n && j < n
    requires YNodeFilled(yNode, yLine, n, i, j)
    modifies yNode
    ensures YNodeFilled(yNode, yLine, n, i, j + 1)
  {
    yNode[i, j] := yLine[i][j];
    yNode[i, j + n] := CNeg(yLine[i][j]);
    yNode[i + n, j] := CNeg(yLine[i][j]);
    yNode[i + n, j + n] := yLine[i][j];
  }

  /** ZLine2YNode, given YLine = inv(ZLine) (the inversion is a library
      call): the four n-by-n blocks written entry by entry. */
  method ZLine2YNode(yLine: seq<seq<Complex>>, n: nat) returns (yNode: array2<Complex>)
    requires Square(yLine, n)
    ensures fresh(yNode) && yNode.Length0 == 2 * n && yNode.Length1 == 2 * n
    ensures forall r, c :: 0 <= r < 2 * n && 0 <= c < 2 * n ==> yNode[r, c] == YNodeAt(yLine, n, r, c)
  {
    yNode := ZeroMatrix(2 * n, 2 * n);
    var i := 0;
    while i < n
      invariant 0 <= i <= n
      invariant YNodeFilled(yNode, yLine, n, i, 0)
    {
      var j := 0;
      while j < n
        invariant 0 <= j <= n
        invariant YNodeFilled(yNode, yLine, n, i, j)
      {
        WriteYNodeBlocks(yNode, yLine, n, i, j);
        j := j + 1;
      }
      assert YNodeFilled(yNode, yLine, n, i + 1, 0);
      i := i + 1;
    }
  }
}
