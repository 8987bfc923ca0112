// The post-processing of a parsed MATPOWER case in SgtCore/MatpowerParser.cc.
// The bus, gen, branch and gencost tables of the case (MATPOWER User's
// Manual, Appendix B "Data File Format") are read row by row into info
// records. Those records are then turned into the network's busses, ZIP
// loads, generators and branches, here given as component records in
// creation order. The text grammar that fills the tables is not part of
// this model: a case arrives as its tables of numbers.

module MatpowerParser {
  import opened Shared
  import PowerFlow
  import Calculator
  import TimeSeriesParser
  import Network

  type Row = seq<real>

  /** The numeric tables of a parsed case. */
  datatype MpData = MpData(mvaBase: real, bus: seq<Row>, gen: seq<Row>, branch: seq<Row>, genCost: seq<Row>)

  /** Conversion of a double to `int`, which truncates toward zero. */
  function ToInt(x: real): int
  {
    TimeSeriesParser.TruncToZero(x)
  }

  // ------------------------------------------------------------------ ids

  function Zeros(k: nat): (z: string)
    ensures |z| == k && forall i :: 0 <= i < k ==> z[i] == '0'
  {
    seq(k, _ => '0')
  }

  /** `num2PaddedString`: the decimal text of n, right-aligned in a field of
      width 5 filled with '0'. The fill goes in front of a minus sign. */
  function Padded(n: int): string
  {
    var d := Calculator.Decimal(n);
    Zeros(if |d| < 5 then 5 - |d| else 0) + d
  }

  /** The padded text is at least five characters long, ends in the decimal
      text and is '0' before it. */
  lemma PaddedShape(n: int)
    ensures var s, d := Padded(n), Calculator.Decimal(n);
            |s| == Max(5, |d|) && s[|s| - |d|..] == d && forall i :: 0 <= i < |s| - |d| ==> s[i] == '0'
  {
    var d := Calculator.Decimal(n);
    var z := Zeros(if |d| < 5 then 5 - |d| else 0);
    assert (z + d)[|z|..] == d;
  }

  /** Two parts joined by an underscore, as the ids join their numbers. */
  function Joined(x: string, y: string): string
  {
    x + "_" + y
  }

  function BusId(id: int): string
  {
    "bus_" + Padded(id)
  }

  function ZipId(iZip: int, iBus: int): string
  {
    "zip_" + Joined(Padded(iZip), Padded(iBus))
  }

  function GenId(iGen: int, iBus: int): string
  {
    "gen_" + Joined(Padded(iGen), Padded(iBus))
  }

  function BranchId(iBranch: int, iBus0: int, iBus1: int): string
  {
    "branch_" + Joined(Padded(iBranch), Joined(Padded(iBus0), Padded(iBus1)))
  }

  predicate AllDigits(s: string)
  {
    forall i :: 0 <= i < |s| ==> Calculator.IsDigit(s[i])
  }

  predicate NoUnderscore(s: string)
  {
    forall i :: 0 <= i < |s| ==> s[i] != '_'
  }

  /** The value of a run of digits, and 0 for any other text. */
  function DigitsValue(s: string): int
  {
    if AllDigits(s) then Calculator.DigitsVal(s) else 0
  }

  /** The index of the first minus sign, or the length when there is none. */
  function DashIndex(s: string): (k: nat)
    ensures k <= |s|
  {
    if |s| == 0 then 0 else if s[0] == '-' then 0 else 1 + DashIndex(s[1..])
  }

  /** How a padded number reads: fill and digits, or fill, a minus sign and
      digits. */
  function ReadFilled(s: string): int
  {
    var k := DashIndex(s);
    if k == |s| then DigitsValue(s) else -DigitsValue(s[k + 1..])
  }

  lemma {:induction false} ZerosValue(k: nat)
    ensures AllDigits(Zeros(k)) && Calculator.DigitsVal(Zeros(k)) == 0
  {
    if k > 0 {
      assert Zeros(k)[..k - 1] == Zeros(k - 1);
      ZerosValue(k - 1);
    }
  }

  /** Leading zeros do not change the value of a run of digits. */
  lemma {:induction false} LeadingZeros(k: nat, d: string)
    requires AllDigits(d)
    ensures AllDigits(Zeros(k) + d)
    ensures Calculator.DigitsVal(Zeros(k) + d) == Calculator.DigitsVal(d)
  {
    var s := Zeros(k) + d;
    if |d| == 0 {
      assert s == Zeros(k);
      ZerosValue(k);
    } else {
      assert s[..|s| - 1] == Zeros(k) + d[..|d| - 1];
      assert s[|s| - 1] == d[|d| - 1];
      LeadingZeros(k, d[..|d| - 1]);
    }
  }

  lemma {:induction false} NoDash(s: string)
    requires AllDigits(s)
    ensures DashIndex(s) == |s|
  {
    if |s| > 0 {
      NoDash(s[1..]);
    }
  }

  lemma {:induction false} DashAfterZeros(k: nat, t: string)
    requires |t| > 0 && t[0] == '-'
    ensures DashIndex(Zeros(k) + t) == k
  {
    if k > 0 {
      assert (Zeros(k) + t)[1..] == Zeros(k - 1) + t;
      DashAfterZeros(k - 1, t);
    } else {
      assert Zeros(k) + t == t;
    }
  }

  /** The decimal text of an integer is digits, or a minus sign and digits. */
  lemma DecimalShape(n: int)
    ensures n >= 0 ==> AllDigits(Calculator.Decimal(n)) && Calculator.DigitsVal(Calculator.Decimal(n)) == n
    ensures n < 0 ==> Calculator.Decimal(n)[0] == '-' && AllDigits(Calculator.Decimal(n)[1..])
                      && Calculator.DigitsVal(Calculator.Decimal(n)[1..]) == -n
    ensures NoUnderscore(Calculator.Decimal(n))
  {
    Calculator.NatDigitsShape(if n < 0 then -n else n);
    if n < 0 {
      assert Calculator.Decimal(n)[1..] == Calculator.NatDigits(-n);
    }
  }

  /** Zero-filled decimal text reads back as its number, whatever the fill. */
  lemma FilledReadsBack(k: nat, n: int)
    ensures ReadFilled(Zeros(k) + Calculator.Decimal(n)) == n
  {
    var d := Calculator.Decimal(n);
    var s := Zeros(k) + d;
    DecimalShape(n);
    if n >= 0 {
      LeadingZeros(k, d);
      NoDash(s);
    } else {
      DashAfterZeros(k, d);
      assert s[k + 1..] == d[1..];
    }
  }

  /** A padded number reads back as its number, so different numbers have
      different padded texts. */
  lemma PaddedReadsBack(n: int)
    ensures ReadFilled(Padded(n)) == n
  {
    var d := Calculator.Decimal(n);
    FilledReadsBack(if |d| < 5 then 5 - |d| else 0, n);
  }

  lemma PaddedInjective(a: int, b: int)
    requires Padded(a) == Padded(b)
    ensures a == b
  {
    PaddedReadsBack(a);
    PaddedReadsBack(b);
  }

  /** A number that is not negative pads to at least five digits, whose
      value is the number. */
  lemma PaddedDigits(n: nat)
    ensures |Padded(n)| >= 5 && AllDigits(Padded(n)) && Calculator.DigitsVal(Padded(n)) == n
  {
    var d := Calculator.Decimal(n);
    DecimalShape(n);
    LeadingZeros(if |d| < 5 then 5 - |d| else 0, d);
  }

  lemma PaddedNoUnderscore(n: int)
    ensures NoUnderscore(Padded(n))
  {
    DecimalShape(n);
    PaddedShape(n);
    var d := Calculator.Decimal(n);
    var s := Padded(n);
    forall i | 0 <= i < |s|
      ensures s[i] != '_'
    {
      if i >= |s| - |d| {
        assert s[i] == d[i - (|s| - |d|)];
      }
    }
  }

  function UnderscoreIndex(s: string): (k: nat)
    ensures k <= |s|
  {
    if |s| == 0 then 0 else if s[0] == '_' then 0 else 1 + UnderscoreIndex(s[1..])
  }

  lemma {:induction false} UnderscoreAfter(x: string, y: string)
    requires NoUnderscore(x)
    ensures UnderscoreIndex(Joined(x, y)) == |x|
  {
    if |x| > 0 {
      assert Joined(x, y)[1..] == Joined(x[1..], y);
      UnderscoreAfter(x[1..], y);
    }
  }

  /** The first underscore of a joined text ends its first part, so the
      parts of a join without underscores in its first part are recovered
      from the text. */
  lemma SplitJoined(x: string, y: string, x': string, y': string)
    requires NoUnderscore(x) && NoUnderscore(x')
    requires Joined(x, y) == Joined(x', y')
    ensures x == x' && y == y'
  {
    UnderscoreAfter(x, y);
    UnderscoreAfter(x', y');
    var s := Joined(x, y);
    assert x == s[..|x|] == x';
    assert y == s[|x| + 1..] == y';
  }

  lemma StripPrefix(p: string, t: string, t': string)
    requires p + t == p + t'
    ensures t == t'
  {
    assert t == (p + t)[|p|..];
    assert t' == (p + t')[|p|..];
  }

  /** Different numbers give different ids, so no two busses, ZIPs,
      generators or branches of one case collide. */
  lemma BusIdInjective(a: int, b: int)
    requires BusId(a) == BusId(b)
    ensures a == b
  {
    StripPrefix("bus_", Padded(a), Padded(b));
    PaddedInjective(a, b);
  }

  lemma ZipIdInjective(i: int, a: int, j: int, b: int)
    requires ZipId(i, a) == ZipId(j, b)
    ensures i == j && a == b
  {
    StripPrefix("zip_", Joined(Padded(i), Padded(a)), Joined(Padded(j), Padded(b)));
    PaddedNoUnderscore(i);
    PaddedNoUnderscore(j);
    SplitJoined(Padded(i), Padded(a), Padded(j), Padded(b));
    PaddedInjective(i, j);
    PaddedInjective(a, b);
  }

  lemma GenIdInjective(i: int, a: int, j: int, b: int)
    requires GenId(i, a) == GenId(j, b)
    ensures i == j && a == b
  {
    StripPrefix("gen_", Joined(Padded(i), Padded(a)), Joined(Padded(j), Padded(b)));
    PaddedNoUnderscore(i);
    PaddedNoUnderscore(j);
    SplitJoined(Padded(i), Padded(a), Padded(j), Padded(b));
    PaddedInjective(i, j);
    PaddedInjective(a, b);
  }

  lemma BranchIdInjective(i: int, f: int, t: int, j: int, f': int, t': int)
    requires BranchId(i, f, t) == BranchId(j, f', t')
    ensures i == j && f == f' && t == t'
  {
    var rest, rest' := Joined(Padded(f), Padded(t)), Joined(Padded(f'), Padded(t'));
    StripPrefix("branch_", Joined(Padded(i), rest), Joined(Padded(j), rest'));
    PaddedNoUnderscore(i);
    PaddedNoUnderscore(j);
    PaddedNoUnderscore(f);
    PaddedNoUnderscore(f');
    SplitJoined(Padded(i), rest, Padded(j), rest');
    SplitJoined(Padded(f), Padded(t), Padded(f'), Padded(t'));
    PaddedInjective(i, j);
    PaddedInjective(f, f');
    PaddedInjective(t, t');
  }

  // ---------------------------------------------------------- info records

  datatype BusInfo = BusInfo(
    id: int, busType: int, pd: real, qd: real, gs: real, bs: real, busArea: int,
    vMag: real, vAngDeg: real, kVBase: real, zone: int, vMagMax: real, vMagMin: real,
    lamP: real, lamQ: real, muVMax: real, muVMin: real)

  datatype GenInfo = GenInfo(
    busId: int, pg: real, qg: real, qMax: real, qMin: real, vg: real, mvaBase: real,
    status: int, pMax: real, pMin: real)

  datatype BranchInfo = BranchInfo(
    busIdF: int, busIdT: int, r: real, x: real, b: real, rateA: real, rateB: real, rateC: real,
    tap: real, shiftDeg: real, status: int, angMinDeg: real, angMaxDeg: real)

  datatype GenCostInfo = GenCostInfo(model: int, startup: real, shutdown: real, costs: seq<real>)

  /** Every bus row has the 13 columns read, and the 17 when the first row
      has more than 13 (columns 14 to 17 are read from every row then). */
  predicate BusRowsFit(bus: seq<Row>)
  {
    forall i :: 0 <= i < |bus| ==> |bus[i]| >= 13 && (|bus[0]| > 13 ==> |bus[i]| >= 17)
  }

  /** The info record of a bus row. The base voltage is column 10 when it is
      above 1e-6 kV and the default otherwise; the four price columns stay 0
      unless the table is wide. */
  function BusInfoOf(row: Row, defaultKV: real, wide: bool): (b: BusInfo)
    requires |row| >= 13 && (wide ==> |row| >= 17)
    ensures b.kVBase == (if row[9] > 0.000001 then row[9] else defaultKV)
    ensures b.kVBase > 0.000001 || b.kVBase == defaultKV
    ensures wide ==> b.lamP == row[13] && b.lamQ == row[14] && b.muVMax == row[15] && b.muVMin == row[16]
    ensures !wide ==> b.lamP == 0.0 && b.lamQ == 0.0 && b.muVMax == 0.0 && b.muVMin == 0.0
  {
    BusInfo(ToInt(row[0]), ToInt(row[1]), row[2], row[3], row[4], row[5], ToInt(row[6]),
            row[7], row[8], if row[9] > 0.000001 then row[9] else defaultKV, ToInt(row[10]),
            row[11], row[12],
            if wide then row[13] else 0.0, if wide then row[14] else 0.0,
            if wide then row[15] else 0.0, if wide then row[16] else 0.0)
  }

  function GenInfoOf(row: Row): GenInfo
    requires |row| >= 10
  {
    GenInfo(ToInt(row[0]), row[1], row[2], row[3], row[4], row[5], row[6], ToInt(row[7]), row[8], row[9])
  }

  function BranchInfoOf(row: Row): BranchInfo
    requires |row| >= 13
  {
    BranchInfo(ToInt(row[0]), ToInt(row[1]), row[2], row[3], row[4], row[5], row[6], row[7],
               row[8], row[9], ToInt(row[10]), row[11], row[12])
  }

  /** The number of cost terms, column 4. */
  function CostCount(row: Row): int
    requires |row| >= 4
  {
    ToInt(row[3])
  }

  /** A gencost row holds its four leading columns and, when its count is
      not negative, that many cost terms after them. */
  predicate GenCostRowFits(row: Row)
  {
    |row| >= 4 && (CostCount(row) < 0 || 4 + CostCount(row) <= |row|)
  }

  predicate CountNotNegative(row: Row)
  {
    |row| >= 4 && CostCount(row) >= 0
  }

  function GenCostOf(row: Row): (c: GenCostInfo)
    requires GenCostRowFits(row) && CostCount(row) >= 0
    ensures |c.costs| == CostCount(row)
    ensures forall k :: 0 <= k < |c.costs| ==> c.costs[k] == row[4 + k]
  {
    GenCostInfo(ToInt(row[0]), row[1], row[2], row[4..4 + CostCount(row)])
  }

  /** The bus table, row by row, into info records. */
  method ExtractBuses(bus: seq<Row>, defaultKV: real) returns (busVec: seq<BusInfo>)
    requires BusRowsFit(bus)
    ensures |busVec| == |bus|
    ensures forall i :: 0 <= i < |bus| ==> busVec[i] == BusInfoOf(bus[i], defaultKV, |bus[0]| > 13)
    ensures busVec == BusInfos(bus, defaultKV)
  {
    busVec := [];
    for i := 0 to |bus|
      invariant |busVec| == i
      invariant forall k :: 0 <= k < i ==> busVec[k] == BusInfoOf(bus[k], defaultKV, |bus[0]| > 13)
    {
      busVec := busVec + [BusInfoOf(bus[i], defaultKV, |bus[0]| > 13)];
    }
    assert busVec == BusInfos(bus, defaultKV);
  }

  method ExtractGens(gen: seq<Row>) returns (genVec: seq<GenInfo>)
    requires forall i :: 0 <= i < |gen| ==> |gen[i]| >= 10
    ensures |genVec| == |gen|
    ensures forall i :: 0 <= i < |gen| ==> genVec[i] == GenInfoOf(gen[i])
    ensures genVec == GenInfos(gen)
  {
    genVec := [];
    for i := 0 to |gen|
      invariant |genVec| == i
      invariant forall k :: 0 <= k < i ==> genVec[k] == GenInfoOf(gen[k])
    {
      genVec := genVec + [GenInfoOf(gen[i])];
    }
    assert genVec == GenInfos(gen);
  }

  method ExtractBranches(branch: seq<Row>) returns (branchVec: seq<BranchInfo>)
    requires forall i :: 0 <= i < |branch| ==> |branch[i]| >= 13
    ensures |branchVec| == |branch|
    ensures forall i :: 0 <= i < |branch| ==> branchVec[i] == BranchInfoOf(branch[i])
    ensures branchVec == BranchInfos(branch)
  {
    branchVec := [];
    for i := 0 to |branch|
      invariant |branchVec| == i
      invariant forall k :: 0 <= k < i ==> branchVec[k] == BranchInfoOf(branch[k])
    {
      branchVec := branchVec + [BranchInfoOf(branch[i])];
    }
    assert branchVec == BranchInfos(branch);
  }

  /** One gencost row: the costs are pushed one by one after reserving room
      for them. A negative count converts to a huge unsigned size, and
      `reserve` then throws `std::length_error`. */
  method ExtractGenCost(row: Row) returns (r: Result<GenCostInfo>)
    requires GenCostRowFits(row)
    ensures r.Ok? <==> CostCount(row) >= 0
    ensures r.Ok? ==> r.value == GenCostOf(row)
    ensures r.Err? ==> r.msg == "length_error"
  {
    var nCost := ToInt(row[3]);
    if nCost < 0 {
      return Err("length_error");
    }
    var costs: seq<real> := [];
    var i := 0;
    while i < nCost
      invariant 0 <= i <= nCost
      invariant costs == row[4..4 + i]
    {
      costs := costs + [row[4 + i]];
      i := i + 1;
    }
    r := Ok(GenCostInfo(ToInt(row[0]), row[1], row[2], costs));
  }

  /** The gencost table into info records; the first row with a negative
      count ends the parse. */
  method ExtractGenCosts(genCost: seq<Row>) returns (r: Result<seq<GenCostInfo>>)
    requires forall i :: 0 <= i < |genCost| ==> GenCostRowFits(genCost[i])
    ensures r.Ok? <==> forall i :: 0 <= i < |genCost| ==> CountNotNegative(genCost[i])
    ensures r.Ok? ==> |r.value| == |genCost| && forall i :: 0 <= i < |genCost| ==> r.value[i] == GenCostOf(genCost[i])
    ensures r.Err? ==> r.msg == "length_error"
  {
    var vec: seq<GenCostInfo> := [];
    for i := 0 to |genCost|
      invariant |vec| == i
      invariant forall k :: 0 <= k < i ==> CountNotNegative(genCost[k]) && vec[k] == GenCostOf(genCost[k])
    {
      var c := ExtractGenCost(genCost[i]);
      if c.Err? {
        return Err(c.msg);
      }
      vec := vec + [c.value];
    }
    r := Ok(vec);
  }

  // ------------------------------------------------------------ conversions

  /** The MATPOWER bus type column: 1 is PQ, 2 is PV, 3 is the slack bus;
      anything else (4, isolated, included) is a bad bus. */
  function BusTypeOf(t: int): (bt: PowerFlow.BusType)
    ensures bt == PowerFlow.PQ <==> t == 1
    ensures bt == PowerFlow.PV <==> t == 2
    ensures bt == PowerFlow.SL <==> t == 3
    ensures bt == PowerFlow.BusType.BAD <==> t !in {1, 2, 3}
  {
    match t
    case 1 => PowerFlow.PQ
    case 2 => PowerFlow.PV
    case 3 => PowerFlow.SL
    case _ => PowerFlow.BusType.BAD
  }

  /** A voltage in per-unit of the kV base, in kV. */
  function Pu2KV(v: real, kVBase: real): real
  {
    v * kVBase
  }

  function Deg2Rad(deg: real, pi: real): real
  {
    pi * deg / 180.0
  }

  /** Dividing by k and multiplying by k cancel. */
  lemma DivCancel(x: real, k: real)
    requires k != 0.0
    ensures k * (x / k) == x
  {
  }

  /** A bus shunt given in MW at 1 p.u. voltage, in siemens of the kV base
      (divided by the base twice, which over the reals is dividing by its
      square). */
  function YBusShunt2Siemens(y: Complex, kVBase: real): (r: Complex)
    requires kVBase != 0.0
    ensures CScale(kVBase, CScale(kVBase, r)) == y
  {
    DivCancel(y.re / kVBase, kVBase);
    DivCancel(y.im / kVBase, kVBase);
    Complex(y.re / kVBase / kVBase, y.im / kVBase / kVBase)
  }

  /** A branch admittance in per-unit of kVBase²/MVABase, in siemens. */
  function YBranch2Siemens(y: Complex, kVBase: real, mvaBase: real): (r: Complex)
    requires kVBase != 0.0
    ensures CScale(kVBase, CScale(kVBase, r)) == CScale(mvaBase, y)
  {
    DivCancel(y.re * mvaBase / kVBase, kVBase);
    DivCancel(y.im * mvaBase / kVBase, kVBase);
    Complex(y.re * mvaBase / kVBase / kVBase, y.im * mvaBase / kVBase / kVBase)
  }

  /** The branch conversion is the network's per-unit admittance conversion
      with the case's MVA base as power base. */
  lemma BranchAdmittanceIsPerUnit(y: Complex, kVBase: real, mvaBase: real)
    requires kVBase != 0.0
    ensures YBranch2Siemens(y, kVBase, mvaBase) == Network.Pu2Y(Network.NewNetwork("", mvaBase), y, kVBase)
  {
  }

  /** `1.0 / Complex(R, X)`: the series admittance of the series impedance
      R + jX, None when the impedance is zero and the quotient is not finite. */
  function Recip(r: real, x: real): (y: Option<Complex>)
    ensures y.Some? <==> Complex(r, x) != CZero
    ensures y.Some? ==> CMul(Complex(r, x), y.value) == Complex(1.0, 0.0)
  {
    if r == 0.0 && x == 0.0 then None
    else
      SquaresPositive(r, x);
      var d :| d == r * r + x * x && d > 0.0;
      RecipProduct(r, x, d);
      Some(Complex(r / d, -x / d))
  }

  lemma RecipProduct(a: real, b: real, d: real)
    requires d == a * a + b * b && d > 0.0
    ensures a * (a / d) - b * (-b / d) == 1.0
    ensures a * (-b / d) + b * (a / d) == 0.0
  {
    assert a * (a / d) == (a * a) / d;
    assert b * (-b / d) == -(b * b) / d;
    assert (a * a) / d + (b * b) / d == d / d;
    assert a * (-b / d) == -(a * b) / d;
    assert b * (a / d) == (a * b) / d;
  }

  /** The squared modulus of a nonzero complex number is positive. */
  lemma SquaresPositive(a: real, b: real)
    requires a != 0.0 || b != 0.0
    ensures a * a + b * b > 0.0
  {
    if a != 0.0 {
      SquarePositive(a);
      SquareNotNegative(b);
    } else {
      SquarePositive(b);
      SquareNotNegative(a);
    }
  }

  lemma SquarePositive(x: real)
    requires x != 0.0
    ensures x * x > 0.0
  {
    if x > 0.0 {
      assert x * x > 0.0;
    } else {
      assert (-x) * (-x) > 0.0;
    }
  }

  lemma SquareNotNegative(x: real)
    ensures !(x * x < 0.0)
  {
    if x > 0.0 {
      assert x * x > 0.0;
    } else if x < 0.0 {
      assert (-x) * (-x) > 0.0;
    }
  }

  /** The tap magnitude: a tap column below 1e-6 in magnitude means 1, and
      the ratio of the two bus bases is folded in. */
  function TapMagnitude(tap: real, vBase0: real, vBase1: real): real
    requires vBase1 != 0.0
  {
    (if -0.000001 < tap < 0.000001 then 1.0 else tap) * vBase0 / vBase1
  }

  /** An unset tap between two busses of the same base is nominal. */
  lemma UnsetTapIsNominal(tap: real, vBase: real)
    requires -0.000001 < tap < 0.000001 && vBase != 0.0
    ensures TapMagnitude(tap, vBase, vBase) == 1.0
  {
  }

  /** A set tap is that ratio on top of the base ratio. */
  lemma SetTapScalesBaseRatio(tap: real, vBase0: real, vBase1: real)
    requires !(-0.000001 < tap < 0.000001) && vBase1 != 0.0
    ensures TapMagnitude(tap, vBase0, vBase1) == tap * (vBase0 / vBase1)
  {
  }

  /** Scaling both bus bases by the same factor leaves the tap unchanged. */
  lemma TapScaleFree(tap: real, vBase0: real, vBase1: real, k: real)
    requires vBase1 != 0.0 && k != 0.0
    ensures TapMagnitude(tap, k * vBase0, k * vBase1) == TapMagnitude(tap, vBase0, vBase1)
  {
    var t := if -0.000001 < tap < 0.000001 then 1.0 else tap;
    RatioScaleFree(t, vBase0, vBase1, k);
  }

  lemma RatioScaleFree(t: real, a: real, b: real, k: real)
    requires b != 0.0 && k != 0.0
    ensures t * (k * a) / (k * b) == t * a / b
  {
    calc {
      t * (k * a) / (k * b);
      (k * (t * a)) / (k * b);
      { assert (k * (t * a)) / (k * b) * (k * b) == k * (t * a); }
      t * a / b;
    }
  }

  // -------------------------------------------------------------- components

  /** The scale factors applied to a case: all 1 here; the parser plugin
      reads them from its input. */
  datatype Scales = Scales(v: real, p: real, g: real)

  const UnitScales := Scales(1.0, 1.0, 1.0)

  datatype BusRecord = BusRecord(
    id: string, busType: PowerFlow.BusType, vNom: Complex, vBase: real, vMagSetpoint: real,
    vMagMin: real, vMagMax: real, inService: bool, v: Complex)

  datatype ZipRecord = ZipRecord(id: string, busId: string, yConst: Complex, sConst: Complex)

  datatype GenRecord = GenRecord(
    id: string, busId: string, inService: bool, s: Complex,
    pMin: real, pMax: real, qMin: real, qMax: real,
    cStartup: real, cShutdown: real, c0: real, c1: real, c2: real)

  datatype BranchRecord = BranchRecord(
    id: string, bus0: string, bus1: string, inService: bool, tapRatio: Complex,
    ySeries: Option<Complex>, yShunt: Complex, rateA: real, rateB: real, rateC: real)

  function Abs(x: real): real { if x < 0.0 then -x else x }

  /** The bus of an info record: nominal voltage the kV base, base
      voltage the kV base times vBaseScale, voltage the polar form of the
      case's magnitude and angle, limits the case's in kV; each voltage is
      scaled by the voltage scale. A new bus's magnitude setpoint is the
      magnitude of its nominal voltage. */
  function BusRecordOf(info: BusInfo, id: string, sc: Scales, vBaseScale: real,
                       polar: (real, real) -> Complex, pi: real): (b: BusRecord)
    ensures b.id == id && b.busType == BusTypeOf(info.busType) && b.inService
  {
    BusRecord(id, BusTypeOf(info.busType), CScale(sc.v, Complex(info.kVBase, 0.0)),
              vBaseScale * info.kVBase, Abs(sc.v * info.kVBase),
              sc.v * Pu2KV(info.vMagMin, info.kVBase), sc.v * Pu2KV(info.vMagMax, info.kVBase),
              true, CScale(sc.v, polar(Pu2KV(info.vMag, info.kVBase), Deg2Rad(info.vAngDeg, pi))))
  }

  /** When the base voltage is scaled like the voltages, the bus's voltages
      in per-unit of its base are the case's per-unit values: the nominal
      voltage is 1 p.u., the limits are the case's limits, and the voltage
      magnitude is the case's magnitude. */
  lemma BusPerUnit(info: BusInfo, id: string, sc: Scales, polar: (real, real) -> Complex, pi: real)
    requires info.kVBase != 0.0 && sc.v != 0.0
    ensures var b := BusRecordOf(info, id, sc, sc.v, polar, pi);
            b.vNom.re / b.vBase == 1.0 && b.vNom.im == 0.0
            && b.vMagMin / b.vBase == info.vMagMin && b.vMagMax / b.vBase == info.vMagMax
  {
    var b := BusRecordOf(info, id, sc, sc.v, polar, pi);
    var k := sc.v * info.kVBase;
    assert k != 0.0 by { ProductNonzero(sc.v, info.kVBase); }
    assert b.vBase == k;
    PerUnitOf(info.vMagMin, sc.v, info.kVBase);
    PerUnitOf(info.vMagMax, sc.v, info.kVBase);
    PerUnitOf(1.0, sc.v, info.kVBase);
  }

  lemma ProductNonzero(a: real, b: real)
    requires a != 0.0 && b != 0.0
    ensures a * b != 0.0
  {
  }

  lemma PerUnitOf(x: real, s: real, k: real)
    requires s != 0.0 && k != 0.0
    ensures s * (x * k) / (s * k) == x
  {
    ProductNonzero(s, k);
    assert s * (x * k) == x * (s * k);
  }

  /** The ZIP load of a bus: a constant power that is minus the case's
      demand (already in MW), and a constant admittance that is the case's
      shunt in siemens, each scaled. */
  function ZipRecordOf(info: BusInfo, id: string, busId: string, sc: Scales): (z: ZipRecord)
    requires info.kVBase != 0.0
    ensures z.id == id && z.busId == busId
  {
    ZipRecord(id, busId, CScale(sc.g, YBusShunt2Siemens(Complex(info.gs, info.bs), info.kVBase)),
              CScale(sc.p, CNeg(Complex(info.pd, info.qd))))
  }

  /** The ZIP's constant power is the negated demand and its admittance,
      times the square of the base voltage, the shunt: both scaled. */
  lemma ZipLoad(info: BusInfo, id: string, busId: string, sc: Scales)
    requires info.kVBase != 0.0
    ensures ZipRecordOf(info, id, busId, sc).sConst == Complex(-(sc.p * info.pd), -(sc.p * info.qd))
    ensures CScale(info.kVBase, CScale(info.kVBase, ZipRecordOf(info, id, busId, sc).yConst))
            == CScale(sc.g, Complex(info.gs, info.bs))
  {
    var k := info.kVBase;
    var y := YBusShunt2Siemens(Complex(info.gs, info.bs), k);
    assert k * (k * (sc.g * y.re)) == sc.g * (k * (k * y.re));
    assert k * (k * (sc.g * y.im)) == sc.g * (k * (k * y.im));
  }

  /** A generator of a gen record: in service when its status is nonzero,
      its power and limits scaled, and no costs yet. */
  function GenRecordOf(info: GenInfo, id: string, busId: string, sc: Scales): (g: GenRecord)
    ensures g.id == id && g.busId == busId && (g.inService <==> info.status != 0)
    ensures g.cStartup == 0.0 && g.cShutdown == 0.0 && g.c0 == 0.0 && g.c1 == 0.0 && g.c2 == 0.0
  {
    GenRecord(id, busId, info.status != 0, CScale(sc.p, Complex(info.pg, info.qg)),
              sc.p * info.pMin, sc.p * info.pMax, sc.p * info.qMin, sc.p * info.qMax,
              0.0, 0.0, 0.0, 0.0, 0.0)
  }

  /** `netw.node(id)`: the first bus of the id. */
  function FindBus(buses: seq<BusRecord>, id: string): (r: Option<nat>)
    ensures r.Some? ==> r.value < |buses| && buses[r.value].id == id
                        && forall k :: 0 <= k < r.value ==> buses[k].id != id
    ensures r.None? ==> forall k :: 0 <= k < |buses| ==> buses[k].id != id
  {
    if |buses| == 0 then None
    else if buses[0].id == id then Some(0)
    else match FindBus(buses[1..], id)
      case None => None
      case Some(k) => Some(k + 1)
  }

  /** A branch between two busses of nonzero base voltage. The tap ratio is
      the tap magnitude at the phase shift, and both admittances are
      converted with the base of the second bus, then scaled. */
  function BranchRecordOf(info: BranchInfo, id: string, bus0: BusRecord, bus1: BusRecord,
                          sc: Scales, mvaBase: real, polar: (real, real) -> Complex, pi: real): (b: BranchRecord)
    requires bus1.vBase != 0.0
    ensures b.id == id && b.bus0 == bus0.id && b.bus1 == bus1.id && (b.inService <==> info.status != 0)
    ensures b.ySeries.Some? <==> Complex(info.r, info.x) != CZero
  {
    var ySeries := match Recip(info.r, info.x)
      case None => None
      case Some(y) => Some(CScale(sc.g, YBranch2Siemens(y, bus1.vBase, mvaBase)));
    BranchRecord(id, bus0.id, bus1.id, info.status != 0,
                 polar(TapMagnitude(info.tap, bus0.vBase, bus1.vBase), Deg2Rad(info.shiftDeg, pi)),
                 ySeries, CScale(sc.g, YBranch2Siemens(Complex(0.0, info.b), bus1.vBase, mvaBase)),
                 sc.p * info.rateA, sc.p * info.rateB, sc.p * info.rateC)
  }

  /** In siemens, the series admittance of a branch of nonzero impedance
      times the impedance in per-unit and the square of the second bus's
      base is the MVA base times the admittance scale. */
  lemma BranchSeriesAdmittance(info: BranchInfo, id: string, bus0: BusRecord, bus1: BusRecord,
                               sc: Scales, mvaBase: real, polar: (real, real) -> Complex, pi: real)
    requires bus1.vBase != 0.0 && Complex(info.r, info.x) != CZero
    ensures var y := BranchRecordOf(info, id, bus0, bus1, sc, mvaBase, polar, pi).ySeries.value;
            CMul(Complex(info.r, info.x), CScale(bus1.vBase, CScale(bus1.vBase, y))) == Complex(sc.g * mvaBase, 0.0)
  {
    var z := Complex(info.r, info.x);
    var w := Recip(info.r, info.x).value;
    var k := bus1.vBase;
    var y := YBranch2Siemens(w, k, mvaBase);
    assert CScale(k, CScale(k, CScale(sc.g, y))) == CScale(sc.g, CScale(k, CScale(k, y))) by {
      ScalesCommute(sc.g, k, y);
    }
    assert CMul(z, CScale(sc.g * mvaBase, w)) == CScale(sc.g * mvaBase, CMul(z, w)) by {
      MulScaled(z, w, sc.g * mvaBase);
    }
    assert CScale(sc.g, CScale(mvaBase, w)) == CScale(sc.g * mvaBase, w);
  }

  lemma ScalesCommute(g: real, k: real, y: Complex)
    ensures CScale(k, CScale(k, CScale(g, y))) == CScale(g, CScale(k, CScale(k, y)))
  {
    assert k * (k * (g * y.re)) == g * (k * (k * y.re));
    assert k * (k * (g * y.im)) == g * (k * (k * y.im));
  }

  lemma MulScaled(z: Complex, w: Complex, a: real)
    ensures CMul(z, CScale(a, w)) == CScale(a, CMul(z, w))
  {
    assert z.re * (a * w.re) - z.im * (a * w.im) == a * (z.re * w.re - z.im * w.im);
    assert z.re * (a * w.im) + z.im * (a * w.re) == a * (z.re * w.im + z.im * w.re);
  }

  /** The busses and their ZIP loads, one of each per bus row, the ZIP
      counter running with the row. */
  method BuildBusses(busVec: seq<BusInfo>, busId: int -> string, zipId: (int, int) -> string,
                     sc: Scales, vBaseScale: real, polar: (real, real) -> Complex, pi: real)
    returns (buses: array<BusRecord>, zips: seq<ZipRecord>)
    requires forall i :: 0 <= i < |busVec| ==> busVec[i].kVBase != 0.0
    ensures fresh(buses) && buses.Length == |busVec| && |zips| == |busVec|
    ensures forall i :: 0 <= i < |busVec| ==>
              buses[i] == BusRecordOf(busVec[i], busId(busVec[i].id), sc, vBaseScale, polar, pi)
    ensures forall i :: 0 <= i < |busVec| ==>
              zips[i] == ZipRecordOf(busVec[i], zipId(i, busVec[i].id), busId(busVec[i].id), sc)
  {
    buses := new BusRecord[|busVec|](i requires 0 <= i < |busVec| reads {} =>
               BusRecordOf(busVec[i], busId(busVec[i].id), sc, vBaseScale, polar, pi));
    zips := [];
    var nZip := 0;
    while nZip < |busVec|
      invariant 0 <= nZip <= |busVec| && |zips| == nZip
      invariant forall i :: 0 <= i < nZip ==> zips[i] == ZipRecordOf(busVec[i], zipId(i, busVec[i].id), busId(busVec[i].id), sc)
    {
      var info := busVec[nZip];
      zips := zips + [ZipRecordOf(info, zipId(nZip, info.id), busId(info.id), sc)];
      nZip := nZip + 1;
    }
  }

  /** The generators, one per gen row, numbered by their row. */
  method BuildGens(genVec: seq<GenInfo>, genId: (int, int) -> string, busId: int -> string, sc: Scales)
    returns (gens: array<GenRecord>)
    ensures fresh(gens) && gens.Length == |genVec|
    ensures forall i :: 0 <= i < |genVec| ==>
              gens[i] == GenRecordOf(genVec[i], genId(i, genVec[i].busId), busId(genVec[i].busId), sc)
  {
    gens := new GenRecord[|genVec|](i requires 0 <= i < |genVec| reads {} =>
              GenRecordOf(genVec[i], genId(i, genVec[i].busId), busId(genVec[i].busId), sc));
  }

  /** The branches, one per branch row, each joining the busses its row
      names. A row naming a bus that does not exist dereferences a null
      pointer. */
  method BuildBranches(branchVec: seq<BranchInfo>, buses: seq<BusRecord>,
                       branchId: (int, int, int) -> string, busId: int -> string,
                       sc: Scales, mvaBase: real, polar: (real, real) -> Complex, pi: real)
    returns (r: Result<seq<BranchRecord>>)
    requires forall k :: 0 <= k < |buses| ==> buses[k].vBase != 0.0
    ensures r.Ok? <==> forall i :: 0 <= i < |branchVec| ==>
              FindBus(buses, busId(branchVec[i].busIdF)).Some? && FindBus(buses, busId(branchVec[i].busIdT)).Some?
    ensures r.Ok? ==> |r.value| == |branchVec| && forall i :: 0 <= i < |branchVec| ==>
              r.value[i] == BranchRecordOf(branchVec[i], branchId(i, branchVec[i].busIdF, branchVec[i].busIdT),
                                           buses[FindBus(buses, busId(branchVec[i].busIdF)).value],
                                           buses[FindBus(buses, busId(branchVec[i].busIdT)).value],
                                           sc, mvaBase, polar, pi)
    ensures r.Err? ==> r.msg == "null dereference"
  {
    var out: seq<BranchRecord> := [];
    for i := 0 to |branchVec|
      invariant |out| == i
      invariant forall k :: 0 <= k < i ==>
                  FindBus(buses, busId(branchVec[k].busIdF)).Some? && FindBus(buses, busId(branchVec[k].busIdT)).Some?
      invariant forall k :: 0 <= k < i ==>
                  out[k] == BranchRecordOf(branchVec[k], branchId(k, branchVec[k].busIdF, branchVec[k].busIdT),
                                           buses[FindBus(buses, busId(branchVec[k].busIdF)).value],
                                           buses[FindBus(buses, busId(branchVec[k].busIdT)).value],
                                           sc, mvaBase, polar, pi)
    {
      var info := branchVec[i];
      var i0 := FindBus(buses, busId(info.busIdF));
      var i1 := FindBus(buses, busId(info.busIdT));
      if i0.None? || i1.None? {
        return Err("null dereference");
      }
      out := out + [BranchRecordOf(info, branchId(i, info.busIdF, info.busIdT), buses[i0.value], buses[i1.value],
                                   sc, mvaBase, polar, pi)];
    }
    r := Ok(out);
  }

  // -------------------------------------------------------------- gen costs

  /** The cost coefficients c0, c1, c2 of a generator: the constant, linear
      and quadratic terms. */
  datatype Coeffs = Coeffs(c0: real, c1: real, c2: real)

  /** The value at p of a MATPOWER polynomial cost, whose terms are listed
      from the highest power down to the constant. */
  function Polynomial(costs: seq<real>, p: real): real
  {
    if |costs| == 0 then 0.0 else Polynomial(costs[..|costs| - 1], p) * p + costs[|costs| - 1]
  }

  function CostAt(c: Coeffs, p: real): real
  {
    c.c2 * p * p + c.c1 * p + c.c0
  }

  /** The coefficients as the source assigns them, starting from zero: c0
      from costs[2] once there is one term, c1 from costs[1] once there are
      two, c2 from costs[0] once there are three. With one or two terms the
      read of costs[2] is past the end of the vector. */
  function CoeffsAsWritten(costs: seq<real>): (r: Result<Coeffs>)
    requires |costs| <= 3
    ensures r.Ok? <==> |costs| == 0 || |costs| == 3
  {
    var n := |costs|;
    if n == 0 then Ok(Coeffs(0.0, 0.0, 0.0))
    else if n < 3 then Err("read past the end of the costs")
    else Ok(Coeffs(costs[2], costs[1], costs[0]))
  }

  /** The coefficients the MATPOWER ordering means: the last term is the
      constant, the one before it the linear term, the one before that the
      quadratic term; missing terms stay 0. */
  function CoeffsOf(costs: seq<real>): (c: Coeffs)
    requires |costs| <= 3
  {
    var n := |costs|;
    Coeffs(if n >= 1 then costs[n - 1] else 0.0,
           if n >= 2 then costs[n - 2] else 0.0,
           if n >= 3 then costs[n - 3] else 0.0)
  }

  /** The corrected coefficients evaluate to the case's polynomial. */
  lemma CoeffsMatchPolynomial(costs: seq<real>, p: real)
    requires |costs| <= 3
    ensures CostAt(CoeffsOf(costs), p) == Polynomial(costs, p)
  {
    var n := |costs|;
    if n == 1 {
      assert Polynomial(costs[..0], p) == 0.0;
    } else if n == 2 {
      assert costs[..1][..0] == [];
      assert Polynomial(costs[..1], p) == costs[0];
    } else if n == 3 {
      assert costs[..2][..1] == costs[..1];
      assert costs[..1][..0] == [];
      assert Polynomial(costs[..1], p) == costs[0];
      assert Polynomial(costs[..2], p) == costs[0] * p + costs[1];
    }
  }

  /** With three terms the source's assignment is the intended one. */
  lemma AsWrittenAgreesOnThree(costs: seq<real>)
    requires |costs| == 3
    ensures CoeffsAsWritten(costs) == Ok(CoeffsOf(costs))
  {
  }

  /** A single constant cost, which MATPOWER allows, is read past the end
      of the vector as written, while the intended reading makes it c0. */
  lemma ConstantCostAsWritten(a: real)
    ensures CoeffsAsWritten([a]).Err?
    ensures CoeffsOf([a]) == Coeffs(a, 0.0, 0.0)
  {
  }

  /** A linear cost [a, b] likewise: as written it fails; intended, c1 = a
      and c0 = b. */
  lemma LinearCostAsWritten(a: real, b: real)
    ensures CoeffsAsWritten([a, b]).Err?
    ensures CoeffsOf([a, b]) == Coeffs(b, a, 0.0)
  {
  }

  // The two readings of the gencost coefficients: as written, c0 is read
  // from costs[2] whenever there is a term (past the end with one or two
  // terms); intended, the terms are taken from the end of the row.

  /** The coefficients a row gives under a reading. */
  function CostCoeffs(rd: Reading, costs: seq<real>): (r: Result<Coeffs>)
    requires |costs| <= 3
    ensures r.Ok? ==> r.value == CoeffsOf(costs)
    ensures rd == Intended ==> r.Ok?
    ensures rd == AsWritten ==> (r.Err? <==> 0 < |costs| < 3)
  {
    if rd == AsWritten then CoeffsAsWritten(costs) else Ok(CoeffsOf(costs))
  }

  /** Why a gencost row cannot be applied, if it cannot: a model other than
      2 (polynomial), more than three terms, no generator of its index, or,
      as written, a read past the end of the terms. */
  function CostRowFailure(rd: Reading, c: GenCostInfo, i: nat, nGens: nat): (r: Option<string>)
    ensures r.None? ==> c.model == 2 && |c.costs| <= 3 && i < nGens && CostCoeffs(rd, c.costs).Ok?
  {
    if c.model != 2 then Some("Can only use model 2 for generator costs.")
    else if |c.costs| > 3 then Some("Can't have more than three costs for generator..")
    else if i >= nGens then Some("generator index out of range")
    else if CostCoeffs(rd, c.costs).Err? then Some(CostCoeffs(rd, c.costs).msg)
    else None
  }

  /** The failure of the first row, from index `from` on, that has one. */
  function FirstCostFailure(rd: Reading, costs: seq<GenCostInfo>, from: nat, nGens: nat): (r: Option<string>)
    requires from <= |costs|
    ensures r.None? <==> forall i :: from <= i < |costs| ==> CostRowFailure(rd, costs[i], i, nGens).None?
    decreases |costs| - from
  {
    if from == |costs| then None
    else if CostRowFailure(rd, costs[from], from, nGens).Some? then CostRowFailure(rd, costs[from], from, nGens)
    else FirstCostFailure(rd, costs, from + 1, nGens)
  }

  /** A polynomial row of one or two terms, which MATPOWER allows, fails the
      parse as written and is applied when read as intended. */
  lemma ShortRowFailsAsWritten(c: GenCostInfo, nGens: nat)
    requires c.model == 2 && 0 < |c.costs| < 3 && 0 < nGens
    ensures FirstCostFailure(AsWritten, [c], 0, nGens).Some?
    ensures FirstCostFailure(Intended, [c], 0, nGens).None?
  {
    assert CostRowFailure(AsWritten, c, 0, nGens).Some?;
    assert CostRowFailure(Intended, c, 0, nGens).None?;
  }

  /** g has the startup and shutdown costs of row c and coefficients that
      evaluate to the row's polynomial. */
  ghost predicate CostsApplied(g: GenRecord, c: GenCostInfo)
  {
    g.cStartup == c.startup && g.cShutdown == c.shutdown
    && forall p :: CostAt(Coeffs(g.c0, g.c1, g.c2), p) == Polynomial(c.costs, p)
  }

  /** setCStartup, setCShutdown and setC0/C1/C2 of a generator from a row
      that can be applied. */
  function WithCosts(rd: Reading, g: GenRecord, c: GenCostInfo): (r: GenRecord)
    requires |c.costs| <= 3 && CostCoeffs(rd, c.costs).Ok?
    ensures CostsApplied(r, c)
    ensures r.(cStartup := g.cStartup, cShutdown := g.cShutdown, c0 := g.c0, c1 := g.c1, c2 := g.c2) == g
    ensures Uncosted(r) == Uncosted(g)
  {
    var k := CostCoeffs(rd, c.costs).value;
    CoeffsMatchAll(c.costs);
    g.(cStartup := c.startup, cShutdown := c.shutdown, c0 := k.c0, c1 := k.c1, c2 := k.c2)
  }

  lemma CoeffsMatchAll(costs: seq<real>)
    requires |costs| <= 3
    ensures forall p :: CostAt(CoeffsOf(costs), p) == Polynomial(costs, p)
  {
    forall p {
      CoeffsMatchPolynomial(costs, p);
    }
  }

  /** Row i of the gencost table sets the costs of generator i. The first
      bad row aborts the parse. */
  method ApplyGenCosts(rd: Reading, gens: array<GenRecord>, costs: seq<GenCostInfo>) returns (r: Result<()>)
    modifies gens
    ensures r.Err? <==> FirstCostFailure(rd, costs, 0, gens.Length).Some?
    ensures r.Err? ==> r.msg == FirstCostFailure(rd, costs, 0, gens.Length).value
    ensures r.Ok? ==> forall i :: 0 <= i < gens.Length ==>
              gens[i] == if i < |costs| then WithCosts(rd, old(gens[i]), costs[i]) else old(gens[i])
    ensures r.Ok? ==> |costs| <= gens.Length
    ensures r.Ok? ==> forall i :: 0 <= i < |costs| ==> CostsApplied(gens[i], costs[i])
  {
    for i := 0 to |costs|
      invariant FirstCostFailure(rd, costs, 0, gens.Length) == FirstCostFailure(rd, costs, i, gens.Length)
      invariant forall k :: 0 <= k < i ==> CostRowFailure(rd, costs[k], k, gens.Length).None?
      invariant forall k :: 0 <= k < gens.Length ==>
                  gens[k] == if k < i then WithCosts(rd, old(gens[k]), costs[k]) else old(gens[k])
    {
      var failure := CostRowFailure(rd, costs[i], i, gens.Length);
      if failure.Some? {
        return Err(failure.value);
      }
      gens[i] := WithCosts(rd, gens[i], costs[i]);
    }
    if |costs| > 0 {
      assert CostRowFailure(rd, costs[|costs| - 1], |costs| - 1, gens.Length).None?;
    }
    r := Ok(());
  }

  /** The generators with the costs of the gencost rows applied, or the
      first row's failure. */
  method CostedGens(rd: Reading, gens: seq<GenRecord>, costs: seq<GenCostInfo>) returns (r: Result<seq<GenRecord>>)
    ensures r.Err? <==> FirstCostFailure(rd, costs, 0, |gens|).Some?
    ensures r.Ok? ==> |r.value| == |gens| && forall i :: 0 <= i < |gens| ==> r.value[i].id == gens[i].id
    ensures r.Ok? ==> forall i :: |costs| <= i < |gens| ==> r.value[i] == gens[i]
    ensures r.Ok? ==> forall i :: 0 <= i < |gens| ==> Uncosted(r.value[i]) == Uncosted(gens[i])
    ensures r.Ok? ==> |costs| <= |gens|
    ensures r.Ok? ==> forall i :: 0 <= i < |costs| ==> CostsApplied(r.value[i], costs[i])
  {
    var genArr := new GenRecord[|gens|](i requires 0 <= i < |gens| reads {} => gens[i]);
    var applied := ApplyGenCosts(rd, genArr, costs);
    if applied.Err? {
      return Err(applied.msg);
    }
    r := Ok(genArr[..]);
  }

  // ------------------------------------------------------------------ parse

  /** Every row holds the columns read from it. */
  predicate TablesFit(data: MpData)
  {
    BusRowsFit(data.bus)
    && (forall i :: 0 <= i < |data.gen| ==> |data.gen[i]| >= 10)
    && (forall i :: 0 <= i < |data.branch| ==> |data.branch[i]| >= 13)
    && (forall i :: 0 <= i < |data.genCost| ==> GenCostRowFits(data.genCost[i]))
  }

  /** The components of a parsed case, and its power base. */
  datatype Case = Case(pBase: real, buses: seq<BusRecord>, zips: seq<ZipRecord>,
                       gens: seq<GenRecord>, branches: seq<BranchRecord>)

  /** A generator with its costs cleared: the generator as its gen row
      alone makes it. */
  function Uncosted(g: GenRecord): (u: GenRecord)
    ensures u.id == g.id && u.busId == g.busId && u.s == g.s && u.inService == g.inService
    ensures u.c0 == 0.0 && u.c1 == 0.0 && u.c2 == 0.0 && u.cStartup == 0.0 && u.cShutdown == 0.0
  {
    g.(cStartup := 0.0, cShutdown := 0.0, c0 := 0.0, c1 := 0.0, c2 := 0.0)
  }

  /** Every branch row names buses that some bus row numbers. */
  predicate EndsNamed(busVec: seq<BusInfo>, branchVec: seq<BranchInfo>)
  {
    forall i :: 0 <= i < |branchVec| ==>
      (exists k :: 0 <= k < |busVec| && busVec[k].id == branchVec[i].busIdF)
      && (exists k :: 0 <= k < |busVec| && busVec[k].id == branchVec[i].busIdT)
  }

  /** A branch of the given id made from its row and the busses of the
      ids its ends name, the second of nonzero base voltage. */
  ghost predicate BranchBuilt(buses: seq<BusRecord>, info: BranchInfo, id: string, idF: string, idT: string,
                              sc: Scales, mvaBase: real, polar: (real, real) -> Complex, pi: real, b: BranchRecord)
  {
    var f := FindBus(buses, idF);
    var t := FindBus(buses, idT);
    f.Some? && t.Some? && buses[t.value].vBase != 0.0
    && b == BranchRecordOf(info, id, buses[f.value], buses[t.value], sc, mvaBase, polar, pi)
  }

  /** The case whose components are those of the info records: a bus and a
      ZIP load per bus row, a generator per gen row (up to its costs) and a
      branch per branch row between the busses it names. */
  ghost predicate CaseOf(busVec: seq<BusInfo>, genVec: seq<GenInfo>, branchVec: seq<BranchInfo>,
                         mvaBase: real, polar: (real, real) -> Complex, pi: real, c: Case)
  {
    c.pBase == mvaBase
    && NetworkOf(busVec, branchVec, mvaBase, polar, pi, c.buses, c.zips, c.branches)
    && |c.gens| == |genVec|
    && (forall i :: 0 <= i < |genVec| ==>
          Uncosted(c.gens[i]) == GenRecordOf(genVec[i], GenId(i, genVec[i].busId), BusId(genVec[i].busId), UnitScales))
  }

  /** The busses, ZIP loads and branches of the bus and branch rows. */
  ghost predicate NetworkOf(busVec: seq<BusInfo>, branchVec: seq<BranchInfo>, mvaBase: real,
                            polar: (real, real) -> Complex, pi: real,
                            buses: seq<BusRecord>, zips: seq<ZipRecord>, branches: seq<BranchRecord>)
  {
    |buses| == |busVec| && |zips| == |busVec| && |branches| == |branchVec|
    && (forall i :: 0 <= i < |busVec| ==>
          buses[i] == BusRecordOf(busVec[i], BusId(busVec[i].id), UnitScales, 1.0, polar, pi)
          && busVec[i].kVBase != 0.0
          && zips[i] == ZipRecordOf(busVec[i], ZipId(i, busVec[i].id), BusId(busVec[i].id), UnitScales))
    && (forall i :: 0 <= i < |branchVec| ==>
          BranchBuilt(buses, branchVec[i], BranchId(i, branchVec[i].busIdF, branchVec[i].busIdT),
                      BusId(branchVec[i].busIdF), BusId(branchVec[i].busIdT), UnitScales, mvaBase, polar, pi, branches[i]))
  }

  /** The bus of a number is found among busses numbered by the bus rows
      exactly when some row has that number. */
  lemma {:induction false} FoundIffNamed(busVec: seq<BusInfo>, buses: seq<BusRecord>, x: int)
    requires |buses| == |busVec| && forall k :: 0 <= k < |busVec| ==> buses[k].id == BusId(busVec[k].id)
    ensures FindBus(buses, BusId(x)).Some? <==> exists k :: 0 <= k < |busVec| && busVec[k].id == x
  {
    var f := FindBus(buses, BusId(x));
    if f.Some? {
      BusIdInjective(busVec[f.value].id, x);
    }
  }

  /** Every branch row's ends are found among the busses of the bus rows
      exactly when every branch row names numbered busses. */
  lemma {:induction false} EndsFound(busVec: seq<BusInfo>, buses: seq<BusRecord>, branchVec: seq<BranchInfo>)
    requires |buses| == |busVec| && forall k :: 0 <= k < |busVec| ==> buses[k].id == BusId(busVec[k].id)
    ensures EndsNamed(busVec, branchVec) <==> forall i :: 0 <= i < |branchVec| ==>
              FindBus(buses, BusId(branchVec[i].busIdF)).Some? && FindBus(buses, BusId(branchVec[i].busIdT)).Some?
  {
    if EndsNamed(busVec, branchVec) {
      forall i | 0 <= i < |branchVec|
        ensures FindBus(buses, BusId(branchVec[i].busIdF)).Some? && FindBus(buses, BusId(branchVec[i].busIdT)).Some?
      {
        FoundIffNamed(busVec, buses, branchVec[i].busIdF);
        FoundIffNamed(busVec, buses, branchVec[i].busIdT);
      }
    } else {
      var i :| 0 <= i < |branchVec|
               && !((exists k :: 0 <= k < |busVec| && busVec[k].id == branchVec[i].busIdF)
                    && (exists k :: 0 <= k < |busVec| && busVec[k].id == branchVec[i].busIdT));
      FoundIffNamed(busVec, buses, branchVec[i].busIdF);
      FoundIffNamed(busVec, buses, branchVec[i].busIdT);
    }
  }

  /** The info records of the tables. */
  ghost function BusInfos(bus: seq<Row>, defaultKV: real): (s: seq<BusInfo>)
    requires BusRowsFit(bus)
    ensures |s| == |bus| && forall i :: 0 <= i < |bus| ==> s[i] == BusInfoOf(bus[i], defaultKV, |bus[0]| > 13)
  {
    seq(|bus|, i requires 0 <= i < |bus| => BusInfoOf(bus[i], defaultKV, |bus[0]| > 13))
  }

  ghost function GenInfos(gen: seq<Row>): (s: seq<GenInfo>)
    requires forall i :: 0 <= i < |gen| ==> |gen[i]| >= 10
    ensures |s| == |gen| && forall i :: 0 <= i < |gen| ==> s[i] == GenInfoOf(gen[i])
  {
    seq(|gen|, i requires 0 <= i < |gen| => GenInfoOf(gen[i]))
  }

  ghost function BranchInfos(branch: seq<Row>): (s: seq<BranchInfo>)
    requires forall i :: 0 <= i < |branch| ==> |branch[i]| >= 13
    ensures |s| == |branch| && forall i :: 0 <= i < |branch| ==> s[i] == BranchInfoOf(branch[i])
  {
    seq(|branch|, i requires 0 <= i < |branch| => BranchInfoOf(branch[i]))
  }

  /** `parse`: the tables into components, in the source's order. With a
      nonzero default base every bus has a nonzero base voltage. */
  method Parse(data: MpData, defaultKV: real, rd: Reading, polar: (real, real) -> Complex, pi: real) returns (r: Result<Case>)
    requires TablesFit(data) && defaultKV != 0.0
    ensures r.Ok? ==> r.value.pBase == data.mvaBase
    ensures r.Ok? ==> |r.value.buses| == |data.bus| && |r.value.zips| == |data.bus|
                      && |r.value.gens| == |data.gen| && |r.value.branches| == |data.branch|
    ensures r.Ok? ==> forall i :: 0 <= i < |data.bus| ==>
              r.value.buses[i].id == BusId(ToInt(data.bus[i][0]))
              && r.value.buses[i].busType == BusTypeOf(ToInt(data.bus[i][1]))
              && r.value.zips[i].id == ZipId(i, ToInt(data.bus[i][0]))
    ensures r.Ok? ==> forall i :: 0 <= i < |data.gen| ==> r.value.gens[i].id == GenId(i, ToInt(data.gen[i][0]))
    ensures r.Ok? ==> forall i :: 0 <= i < |data.gen| && i >= |data.genCost| ==>
              r.value.gens[i].c0 == 0.0 && r.value.gens[i].c1 == 0.0 && r.value.gens[i].c2 == 0.0
    ensures r.Ok? ==> forall i :: 0 <= i < |data.genCost| ==>
              CountNotNegative(data.genCost[i]) && i < |r.value.gens|
              && CostRowFailure(rd, GenCostOf(data.genCost[i]), i, |data.gen|).None?
              && CostsApplied(r.value.gens[i], GenCostOf(data.genCost[i]))
    ensures r.Ok? ==> CaseOf(BusInfos(data.bus, defaultKV), GenInfos(data.gen), BranchInfos(data.branch),
                             data.mvaBase, polar, pi, r.value)
    ensures !EndsNamed(BusInfos(data.bus, defaultKV), BranchInfos(data.branch)) ==> r.Err?
  {
    var busVec := ExtractBuses(data.bus, defaultKV);
    var genVec := ExtractGens(data.gen);
    var branchVec := ExtractBranches(data.branch);
    var costsRead := ExtractGenCosts(data.genCost);
    if costsRead.Err? {
      return Err(costsRead.msg);
    }
    var costs := costsRead.value;
    r := BuildCase(busVec, genVec, branchVec, costs, data.mvaBase, rd, polar, pi);
    if r.Ok? {
      ParsedIds(data, defaultKV, polar, pi, r.value);
      forall i | 0 <= i < |data.genCost|
        ensures i < |r.value.gens| && CostRowFailure(rd, GenCostOf(data.genCost[i]), i, |data.gen|).None?
      {
        assert costs[i] == GenCostOf(data.genCost[i]);
        assert CostRowFailure(rd, costs[i], i, |genVec|).None?;
      }
    }
  }

  /** The ids of a case made from the tables are those of their rows. */
  lemma ParsedIds(data: MpData, defaultKV: real, polar: (real, real) -> Complex, pi: real, c: Case)
    requires TablesFit(data)
    requires CaseOf(BusInfos(data.bus, defaultKV), GenInfos(data.gen), BranchInfos(data.branch),
                    data.mvaBase, polar, pi, c)
    ensures forall i :: 0 <= i < |data.bus| ==>
              c.buses[i].id == BusId(ToInt(data.bus[i][0]))
              && c.buses[i].busType == BusTypeOf(ToInt(data.bus[i][1]))
              && c.zips[i].id == ZipId(i, ToInt(data.bus[i][0]))
    ensures forall i :: 0 <= i < |data.gen| ==> c.gens[i].id == GenId(i, ToInt(data.gen[i][0]))
  {
    var busVec := BusInfos(data.bus, defaultKV);
    var genVec := GenInfos(data.gen);
    forall i | 0 <= i < |data.gen|
      ensures c.gens[i].id == GenId(i, ToInt(data.gen[i][0]))
    {
      assert Uncosted(c.gens[i]).id == c.gens[i].id;
    }
  }

  /** The components of the info records: busses and ZIPs, generators,
      branches, then the generator costs. */
  method BuildCase(busVec: seq<BusInfo>, genVec: seq<GenInfo>, branchVec: seq<BranchInfo>,
                   costs: seq<GenCostInfo>, mvaBase: real, rd: Reading, polar: (real, real) -> Complex, pi: real)
    returns (r: Result<Case>)
    requires forall i :: 0 <= i < |busVec| ==> busVec[i].kVBase != 0.0
    ensures r.Ok? ==> r.value.pBase == mvaBase
    ensures r.Ok? ==> |r.value.buses| == |busVec| && |r.value.zips| == |busVec|
                      && |r.value.gens| == |genVec| && |r.value.branches| == |branchVec|
    ensures r.Ok? ==> forall i :: |costs| <= i < |genVec| ==>
              r.value.gens[i].c0 == 0.0 && r.value.gens[i].c1 == 0.0 && r.value.gens[i].c2 == 0.0
    ensures FirstCostFailure(rd, costs, 0, |genVec|).Some? ==> r.Err?
    ensures r.Ok? ==> |costs| <= |genVec| && FirstCostFailure(rd, costs, 0, |genVec|).None?
    ensures r.Ok? ==> forall i :: 0 <= i < |costs| ==> CostsApplied(r.value.gens[i], costs[i])
    ensures r.Ok? ==> CaseOf(busVec, genVec, branchVec, mvaBase, polar, pi, r.value)
    ensures r.Ok? <==> EndsNamed(busVec, branchVec) && FirstCostFailure(rd, costs, 0, |genVec|).None?
    ensures !EndsNamed(busVec, branchVec) ==> r.Err? && r.msg == "null dereference"
  {
    var network := BuildNetwork(busVec, branchVec, mvaBase, polar, pi);
    if network.Err? {
      return Err(network.msg);
    }
    var costed := BuildCostedGens(rd, genVec, costs);
    if costed.Err? {
      return Err(costed.msg);
    }
    var (buses, zips, branches) := network.value;
    r := Ok(Case(mvaBase, buses, zips, costed.value, branches));
  }

  /** The busses with their ZIP loads, then the branches between them. */
  method BuildNetwork(busVec: seq<BusInfo>, branchVec: seq<BranchInfo>, mvaBase: real,
                      polar: (real, real) -> Complex, pi: real)
    returns (r: Result<(seq<BusRecord>, seq<ZipRecord>, seq<BranchRecord>)>)
    requires forall i :: 0 <= i < |busVec| ==> busVec[i].kVBase != 0.0
    ensures r.Ok? <==> EndsNamed(busVec, branchVec)
    ensures r.Ok? ==> NetworkOf(busVec, branchVec, mvaBase, polar, pi, r.value.0, r.value.1, r.value.2)
    ensures r.Err? ==> r.msg == "null dereference"
  {
    var buses, zips := BuildBusses(busVec, BusId, ZipId, UnitScales, 1.0, polar, pi);
    var busSeq := buses[..];
    var branches := BuildBranches(branchVec, busSeq, BranchId, BusId, UnitScales, mvaBase, polar, pi);
    EndsFound(busVec, busSeq, branchVec);
    if branches.Err? {
      return Err(branches.msg);
    }
    forall i | 0 <= i < |branchVec|
      ensures BranchBuilt(busSeq, branchVec[i], BranchId(i, branchVec[i].busIdF, branchVec[i].busIdT),
                          BusId(branchVec[i].busIdF), BusId(branchVec[i].busIdT), UnitScales, mvaBase, polar, pi,
                          branches.value[i])
    {
      var t := FindBus(busSeq, BusId(branchVec[i].busIdT)).value;
      assert busSeq[t].vBase == 1.0 * busVec[t].kVBase;
    }
    r := Ok((busSeq, zips, branches.value));
  }

  /** The generators of the gen rows, with the costs of the gencost rows. */
  method BuildCostedGens(rd: Reading, genVec: seq<GenInfo>, costs: seq<GenCostInfo>) returns (r: Result<seq<GenRecord>>)
    ensures r.Err? <==> FirstCostFailure(rd, costs, 0, |genVec|).Some?
    ensures r.Ok? ==> |r.value| == |genVec|
    ensures r.Ok? ==> forall i :: 0 <= i < |genVec| ==> r.value[i].id == GenId(i, genVec[i].busId)
    ensures r.Ok? ==> forall i :: 0 <= i < |genVec| ==>
              Uncosted(r.value[i]) == GenRecordOf(genVec[i], GenId(i, genVec[i].busId), BusId(genVec[i].busId), UnitScales)
    ensures r.Ok? ==> forall i :: |costs| <= i < |genVec| ==>
              r.value[i].c0 == 0.0 && r.value[i].c1 == 0.0 && r.value[i].c2 == 0.0
    ensures r.Ok? ==> |costs| <= |genVec|
    ensures r.Ok? ==> forall i :: 0 <= i < |costs| ==> CostsApplied(r.value[i], costs[i])
  {
    var gens := BuildGens(genVec, GenId, BusId, UnitScales);
    var built := gens[..];
    assert |built| == |genVec|;
    r := CostedGens(rd, built, costs);

  }

  /** Different bus rows with different bus numbers give busses of
      different ids, and the ZIP loads of a parse always have distinct ids. */
  lemma ParsedIdsDistinct(data: MpData, c: Case, i: nat, j: nat)
    requires i < j < |data.bus| && |c.buses| == |data.bus| && |c.zips| == |data.bus|
    requires forall k :: 0 <= k < |data.bus| ==> |data.bus[k]| >= 1
    requires forall k :: 0 <= k < |data.bus| ==>
               c.buses[k].id == BusId(ToInt(data.bus[k][0])) && c.zips[k].id == ZipId(k, ToInt(data.bus[k][0]))
    ensures c.zips[i].id != c.zips[j].id
    ensures ToInt(data.bus[i][0]) != ToInt(data.bus[j][0]) ==> c.buses[i].id != c.buses[j].id
  {
    if c.zips[i].id == c.zips[j].id {
      ZipIdInjective(i, ToInt(data.bus[i][0]), j, ToInt(data.bus[j][0]));
    }
    if c.buses[i].id == c.buses[j].id {
      BusIdInjective(ToInt(data.bus[i][0]), ToInt(data.bus[j][0]));
    }
  }
}
