// The MATPOWER parser plugin of SgtCore/MatpowerParserPlugin.cc. It reads
// the same tables as SgtCore/MatpowerParser.cc (MATPOWER User's Manual,
// Appendix B "Data File Format") but names components with unpadded
// numbers, scales voltages and powers by the factors its input gives,
// tolerates reactive generator costs, promotes the first PV bus when the
// case has no slack bus, sets the voltage setpoint of every generator's
// bus and ignores, with a warning, generator costs it cannot use.

module MatpowerPlugin {
  import opened Shared
  import PowerFlow
  import Calculator
  import MP = MatpowerParser

  // ------------------------------------------------------------------ ids

  function BusId(id: int): string
  {
    "bus_" + Calculator.Decimal(id)
  }

  function ZipId(iZip: int, iBus: int): string
  {
    "zip_" + MP.Joined(Calculator.Decimal(iZip), Calculator.Decimal(iBus))
  }

  function GenId(iGen: int, iBus: int): string
  {
    "gen_" + MP.Joined(Calculator.Decimal(iGen), Calculator.Decimal(iBus))
  }

  function BranchId(iBranch: int, iBus0: int, iBus1: int): string
  {
    "branch_" + MP.Joined(Calculator.Decimal(iBranch),
                          MP.Joined(Calculator.Decimal(iBus0), Calculator.Decimal(iBus1)))
  }

  /** The decimal text of a number reads back as the number. */
  lemma DecimalReadsBack(n: int)
    ensures MP.ReadFilled(Calculator.Decimal(n)) == n
    ensures MP.NoUnderscore(Calculator.Decimal(n))
  {
    MP.FilledReadsBack(0, n);
    assert MP.Zeros(0) + Calculator.Decimal(n) == Calculator.Decimal(n);
    MP.DecimalShape(n);
  }

  lemma DecimalInjective(a: int, b: int)
    requires Calculator.Decimal(a) == Calculator.Decimal(b)
    ensures a == b
  {
    DecimalReadsBack(a);
    DecimalReadsBack(b);
  }

  /** Different numbers give different ids, so no two busses, ZIPs,
      generators or branches of one case collide. */
  lemma BusIdInjective(a: int, b: int)
    requires BusId(a) == BusId(b)
    ensures a == b
  {
    MP.StripPrefix("bus_", Calculator.Decimal(a), Calculator.Decimal(b));
    DecimalInjective(a, b);
  }

  lemma ZipIdInjective(i: int, a: int, j: int, b: int)
    requires ZipId(i, a) == ZipId(j, b)
    ensures i == j && a == b
  {
    var di, da, dj, db := Calculator.Decimal(i), Calculator.Decimal(a), Calculator.Decimal(j), Calculator.Decimal(b);
    MP.StripPrefix("zip_", MP.Joined(di, da), MP.Joined(dj, db));
    DecimalReadsBack(i);
    DecimalReadsBack(j);
    MP.SplitJoined(di, da, dj, db);
    DecimalInjective(i, j);
    DecimalInjective(a, b);
  }

  lemma GenIdInjective(i: int, a: int, j: int, b: int)
    requires GenId(i, a) == GenId(j, b)
    ensures i == j && a == b
  {
    var di, da, dj, db := Calculator.Decimal(i), Calculator.Decimal(a), Calculator.Decimal(j), Calculator.Decimal(b);
    MP.StripPrefix("gen_", MP.Joined(di, da), MP.Joined(dj, db));
    DecimalReadsBack(i);
    DecimalReadsBack(j);
    MP.SplitJoined(di, da, dj, db);
    DecimalInjective(i, j);
    DecimalInjective(a, b);
  }

  lemma BranchIdInjective(i: int, f: int, t: int, j: int, f': int, t': int)
    requires BranchId(i, f, t) == BranchId(j, f', t')
    ensures i == j && f == f' && t == t'
  {
    var di, dj := Calculator.Decimal(i), Calculator.Decimal(j);
    var df, dt, df', dt' := Calculator.Decimal(f), Calculator.Decimal(t), Calculator.Decimal(f'), Calculator.Decimal(t');
    var rest, rest' := MP.Joined(df, dt), MP.Joined(df', dt');
    MP.StripPrefix("branch_", MP.Joined(di, rest), MP.Joined(dj, rest'));
    DecimalReadsBack(i);
    DecimalReadsBack(j);
    DecimalReadsBack(f);
    DecimalReadsBack(f');
    MP.SplitJoined(di, rest, dj, rest');
    MP.SplitJoined(df, dt, df', dt');
    DecimalInjective(i, j);
    DecimalInjective(f, f');
    DecimalInjective(t, t');
  }

  /** The plugin's bus ids are not the parser's: bus 1 is "bus_1" here and
      "bus_00001" there. */
  lemma IdsUnpadded()
    ensures BusId(1) != MP.BusId(1)
  {
    assert Calculator.Decimal(1) == "1";
    MP.PaddedDigits(1);
    assert |BusId(1)| == 5 && |MP.BusId(1)| >= 9;
  }

  // -------------------------------------------------------------- scaling

  /** An optional scale factor of the input, 1 when absent. */
  function ScaleOrOne(s: Option<real>): real
  {
    if s.Some? then s.value else 1.0
  }

  /** The scale factors: scale_V_by and scale_P_by, each 1 when absent, and
      the admittance scale GScale = 1/RScale where RScale = VScale²/PScale.
      A zero voltage or power scale makes RScale or GScale infinite in the
      source; the model reports it. */
  function ScalesOf(vScale: Option<real>, pScale: Option<real>): (r: Result<MP.Scales>)
    ensures r.Ok? <==> ScaleOrOne(vScale) != 0.0 && ScaleOrOne(pScale) != 0.0
    ensures r.Ok? ==> r.value.v == ScaleOrOne(vScale) && r.value.p == ScaleOrOne(pScale)
  {
    var v, p := ScaleOrOne(vScale), ScaleOrOne(pScale);
    if v == 0.0 || p == 0.0 then Err("scale of zero")
    else
      MP.SquarePositive(v);
      var vv :| vv == v * v && vv > 0.0;
      QuotientNonzero(vv, p);
      var rScale := vv / p;
      Ok(MP.Scales(v, p, 1.0 / rScale))
  }

  lemma QuotientNonzero(a: real, b: real)
    requires a > 0.0 && b != 0.0
    ensures a / b > 0.0 || a / b < 0.0
  {
  }

  /** The admittance scale times the square of the voltage scale is the
      power scale, as S = Y·V² requires of scaled quantities. */
  lemma ScalesConsistent(vScale: Option<real>, pScale: Option<real>)
    requires ScalesOf(vScale, pScale).Ok?
    ensures var sc := ScalesOf(vScale, pScale).value; sc.g * sc.v * sc.v == sc.p
  {
    var v, p := ScaleOrOne(vScale), ScaleOrOne(pScale);
    MP.SquarePositive(v);
    var vv :| vv == v * v && vv > 0.0;
    QuotientNonzero(vv, p);
    var rScale := vv / p;
    InverseTimes(rScale, vv, p);
  }

  lemma InverseTimes(rs: real, vv: real, p: real)
    requires p != 0.0 && rs == vv / p && (rs > 0.0 || rs < 0.0)
    ensures 1.0 / rs * vv == p
  {
    assert rs * p == vv;
  }

  /** Without scale factors the plugin scales nothing, as the parser does. */
  lemma DefaultScales()
    ensures ScalesOf(None, None) == Ok(MP.UnitScales)
  {
  }

  // ------------------------------------------------------------- gencosts

  /** The gencost table is empty, has one row per generator, or has two
      (the second set being reactive costs, which are ignored with a
      warning); any other count is fatal. Ok(true) when the warning is
      given. */
  function CheckGenCostCount(nCost: nat, nGen: nat): (r: Result<bool>)
    ensures r.Ok? <==> nCost == 0 || nCost == nGen || nCost == 2 * nGen
    ensures r.Ok? && r.value ==> nCost == 2 * nGen
    ensures r.Err? ==> r.msg == "There are a different number of generators to generator costs."
  {
    if nCost == 0 then Ok(false)
    else if nCost == 2 * nGen then Ok(true)
    else if nCost != nGen then Err("There are a different number of generators to generator costs.")
    else Ok(false)
  }

  /** A count that passes the check leaves a row for every generator whose
      costs are read. */
  lemma CostRowsCoverGens(nCost: nat, nGen: nat)
    requires CheckGenCostCount(nCost, nGen).Ok? && nCost > 0
    ensures nGen <= nCost
    ensures nGen > 0
  {
  }

  /** The rows read from a gencost table: none when it is empty, otherwise
      the first of them, one per generator, each holding its columns. */
  predicate CostRowsFit(genCost: seq<MP.Row>, nGen: nat)
  {
    |genCost| > 0 ==> nGen <= |genCost| && forall i :: 0 <= i < nGen ==> MP.GenCostRowFits(genCost[i])
  }

  /** The costs of the first nGen rows of a non-empty table; none of an
      empty one. A negative term count makes `reserve` throw. */
  method ExtractGenCosts(genCost: seq<MP.Row>, nGen: nat) returns (r: Result<seq<MP.GenCostInfo>>)
    requires CostRowsFit(genCost, nGen)
    ensures |genCost| == 0 ==> r == Ok([])
    ensures |genCost| > 0 ==>
              (r.Ok? <==> forall i :: 0 <= i < nGen ==> MP.CountNotNegative(genCost[i]))
    ensures r.Ok? && |genCost| > 0 ==>
              |r.value| == nGen && forall i :: 0 <= i < nGen ==> r.value[i] == MP.GenCostOf(genCost[i])
    ensures r.Err? ==> r.msg == "length_error"
  {
    var vec: seq<MP.GenCostInfo> := [];
    if |genCost| > 0 {
      for i := 0 to nGen
        invariant |vec| == i
        invariant forall k :: 0 <= k < i ==> MP.CountNotNegative(genCost[k]) && vec[k] == MP.GenCostOf(genCost[k])
      {
        var c := MP.ExtractGenCost(genCost[i]);
        if c.Err? {
          return Err(c.msg);
        }
        vec := vec + [c.value];
      }
    }
    r := Ok(vec);
  }

  /** A cost row the plugin ignores with a warning: more than three terms,
      or a model other than 2 (polynomial). */
  predicate CostIgnored(c: MP.GenCostInfo)
  {
    |c.costs| > 3 || c.model != 2
  }

  /** The first row from `from` on that is not ignored and cannot be read:
      as written, a polynomial of one or two terms, whose c0 is read past
      the end of the terms. */
  function FirstReadFailure(rd: Reading, costs: seq<MP.GenCostInfo>, from: nat): (r: Option<string>)
    requires from <= |costs|
    ensures r.None? <==> forall i :: from <= i < |costs| && !CostIgnored(costs[i]) ==>
                           MP.CostCoeffs(rd, costs[i].costs).Ok?
    decreases |costs| - from
  {
    if from == |costs| then None
    else if !CostIgnored(costs[from]) && MP.CostCoeffs(rd, costs[from].costs).Err? then
      Some(MP.CostCoeffs(rd, costs[from].costs).msg)
    else FirstReadFailure(rd, costs, from + 1)
  }

  /** Row i of the costs sets the costs of generator i unless it is
      ignored; the warnings name the ignored rows. */
  method ApplyGenCosts(rd: Reading, gens: array<MP.GenRecord>, costs: seq<MP.GenCostInfo>)
    returns (r: Result<seq<nat>>)
    requires |costs| <= gens.Length
    modifies gens
    ensures r.Err? <==> FirstReadFailure(rd, costs, 0).Some?
    ensures r.Ok? ==> forall i :: 0 <= i < gens.Length ==>
              gens[i] == if i < |costs| && !CostIgnored(costs[i]) then MP.WithCosts(rd, old(gens[i]), costs[i])
                         else old(gens[i])
    ensures r.Ok? ==> forall i :: 0 <= i < |costs| ==> (i in r.value <==> CostIgnored(costs[i]))
    ensures r.Ok? ==> forall i :: i in r.value ==> i < |costs|
  {
    var ignored: seq<nat> := [];
    for i := 0 to |costs|
      invariant FirstReadFailure(rd, costs, 0) == FirstReadFailure(rd, costs, i)
      invariant forall k :: 0 <= k < |costs| ==> (k in ignored <==> k < i && CostIgnored(costs[k]))
      invariant forall k :: k in ignored ==> k < i
      invariant forall k :: 0 <= k < i && !CostIgnored(costs[k]) ==> MP.CostCoeffs(rd, costs[k].costs).Ok?
      invariant forall k :: 0 <= k < gens.Length ==>
                  gens[k] == if k < i && !CostIgnored(costs[k]) then MP.WithCosts(rd, old(gens[k]), costs[k])
                             else old(gens[k])
    {
      if CostIgnored(costs[i]) {
        ignored := ignored + [i];
      } else {
        var coeffs := MP.CostCoeffs(rd, costs[i].costs);
        if coeffs.Err? {
          return Err(coeffs.msg);
        }
        gens[i] := MP.WithCosts(rd, gens[i], costs[i]);
      }
      assert FirstReadFailure(rd, costs, i) == FirstReadFailure(rd, costs, i + 1);
    }
    r := Ok(ignored);
  }

  // ------------------------------------------------------------ slack bus

  /** The position of the first bus of a type. */
  function FirstOfType(buses: seq<MP.BusRecord>, t: PowerFlow.BusType): (r: Option<nat>)
    ensures r.Some? ==> r.value < |buses| && buses[r.value].busType == t
                        && forall k :: 0 <= k < r.value ==> buses[k].busType != t
    ensures r.None? ==> forall k :: 0 <= k < |buses| ==> buses[k].busType != t
  {
    if |buses| == 0 then None
    else if buses[0].busType == t then Some(0)
    else match FirstOfType(buses[1..], t)
      case None => None
      case Some(k) => Some(k + 1)
  }

  /** MATPOWER's rule for a case without a slack bus: the first PV bus
      becomes the slack bus. The source asserts that there is one. */
  function SlackFallback(buses: seq<MP.BusRecord>): Result<seq<MP.BusRecord>>
  {
    if FirstOfType(buses, PowerFlow.SL).Some? then Ok(buses)
    else match FirstOfType(buses, PowerFlow.PV)
      case None => Err("no PV bus to make the slack bus")
      case Some(k) => Ok(buses[k := buses[k].(busType := PowerFlow.SL)])
  }

  /** After the fallback the case has a slack bus, and only the first PV
      bus of a case without one has changed, and only in its type. It
      fails exactly when the case has neither a slack nor a PV bus. */
  lemma SlackFallbackSpec(buses: seq<MP.BusRecord>)
    ensures SlackFallback(buses).Err? <==>
              forall k :: 0 <= k < |buses| ==> buses[k].busType != PowerFlow.SL && buses[k].busType != PowerFlow.PV
    ensures SlackFallback(buses).Ok? ==>
              var after := SlackFallback(buses).value;
              |after| == |buses| && exists k :: 0 <= k < |after| && after[k].busType == PowerFlow.SL
    ensures SlackFallback(buses).Ok? ==>
              var after := SlackFallback(buses).value;
              forall k :: 0 <= k < |buses| && after[k] != buses[k] ==>
                buses[k].busType == PowerFlow.PV && after[k] == buses[k].(busType := PowerFlow.SL)
                && (forall j :: 0 <= j < |buses| ==> buses[j].busType != PowerFlow.SL)
                && (forall j :: 0 <= j < k ==> buses[j].busType != PowerFlow.PV)
  {
    var sl := FirstOfType(buses, PowerFlow.SL);
    if sl.Some? {
      assert buses[sl.value].busType == PowerFlow.SL;
    } else {
      var pv := FirstOfType(buses, PowerFlow.PV);
      if pv.Some? {
        var after := SlackFallback(buses).value;
        assert after[pv.value].busType == PowerFlow.SL;
      }
    }
  }

  /** The two `find_if` scans over the network's busses and the type
      change of the bus the second one finds. */
  method EnsureSlack(buses: array<MP.BusRecord>) returns (r: Result<()>)
    modifies buses
    ensures SlackFallback(old(buses[..])).Ok? ==> r.Ok? && buses[..] == SlackFallback(old(buses[..])).value
    ensures SlackFallback(old(buses[..])).Err? ==> r.Err? && r.msg == SlackFallback(old(buses[..])).msg
                                                   && buses[..] == old(buses[..])
  {
    var i := 0;
    while i < buses.Length && buses[i].busType != PowerFlow.SL
      invariant 0 <= i <= buses.Length
      invariant forall k :: 0 <= k < i ==> buses[k].busType != PowerFlow.SL
    {
      i := i + 1;
    }
    if i < buses.Length {
      assert FirstOfType(buses[..], PowerFlow.SL).Some?;
      return Ok(());
    }
    var j := 0;
    while j < buses.Length && buses[j].busType != PowerFlow.PV
      invariant 0 <= j <= buses.Length
      invariant forall k :: 0 <= k < j ==> buses[k].busType != PowerFlow.PV
    {
      j := j + 1;
    }
    if j == buses.Length {
      return Err("no PV bus to make the slack bus");
    }
    assert FirstOfType(buses[..], PowerFlow.PV) == Some(j);
    buses[j] := buses[j].(busType := PowerFlow.SL);
    r := Ok(());
  }

  // ------------------------------------------------------------ voltages

  /* The two readings (Reading) of the plugin's voltage handling compared
     below. As written, a bus's base voltage is its kV base times the POWER
     scale (line 407) and a generator sets its bus's magnitude setpoint to
     the voltage scale times its per-unit setpoint in that base (line 488).
     Intended, the base is the kV base times the voltage scale, like the
     nominal voltage beside it, and the setpoint is the per-unit setpoint
     in that base. */

  function VBaseScale(rd: Reading, sc: MP.Scales): real
  {
    if rd == AsWritten then sc.p else sc.v
  }

  function SetpointOf(rd: Reading, vg: real, vBase: real, sc: MP.Scales): real
  {
    if rd == AsWritten then sc.v * MP.Pu2KV(vg, vBase) else MP.Pu2KV(vg, vBase)
  }

  /** b is a with at most the magnitude setpoints changed. */
  predicate OnlySetpoints(a: seq<MP.BusRecord>, b: seq<MP.BusRecord>)
  {
    |a| == |b| && forall k :: 0 <= k < |a| ==> b[k] == a[k].(vMagSetpoint := b[k].vMagSetpoint)
  }

  lemma OnlySetpointsTransitive(a: seq<MP.BusRecord>, b: seq<MP.BusRecord>, c: seq<MP.BusRecord>)
    requires OnlySetpoints(a, b) && OnlySetpoints(b, c)
    ensures OnlySetpoints(a, c)
  {
  }

  /** One generator setting the setpoint of the first bus of its bus id. */
  function SetpointStep(buses: seq<MP.BusRecord>, g: MP.GenInfo, busId: int -> string, sc: MP.Scales, rd: Reading)
    : (r: seq<MP.BusRecord>)
    ensures OnlySetpoints(buses, r)
  {
    match MP.FindBus(buses, busId(g.busId))
    case None => buses
    case Some(k) => buses[k := buses[k].(vMagSetpoint := SetpointOf(rd, g.vg, buses[k].vBase, sc))]
  }

  /** The busses after the generators have set their setpoints in order. */
  function WithSetpoints(buses: seq<MP.BusRecord>, gens: seq<MP.GenInfo>, busId: int -> string, sc: MP.Scales, rd: Reading)
    : (r: seq<MP.BusRecord>)
    ensures OnlySetpoints(buses, r)
    decreases |gens|
  {
    if |gens| == 0 then buses
    else
      OnlySetpointsTransitive(buses, WithSetpoints(buses, gens[..|gens| - 1], busId, sc, rd),
                              SetpointStep(WithSetpoints(buses, gens[..|gens| - 1], busId, sc, rd), gens[|gens| - 1], busId, sc, rd));
      SetpointStep(WithSetpoints(buses, gens[..|gens| - 1], busId, sc, rd), gens[|gens| - 1], busId, sc, rd)
  }

  lemma WithSetpointsNext(buses: seq<MP.BusRecord>, gens: seq<MP.GenInfo>, i: nat, busId: int -> string,
                          sc: MP.Scales, rd: Reading)
    requires i < |gens|
    ensures WithSetpoints(buses, gens[..i + 1], busId, sc, rd)
            == SetpointStep(WithSetpoints(buses, gens[..i], busId, sc, rd), gens[i], busId, sc, rd)
  {
    assert gens[..i + 1][..i] == gens[..i];
  }

  /** The last generator, if any, whose bus id is the given one. */
  function LastGenAt(gens: seq<MP.GenInfo>, busId: int -> string, id: string): (r: Option<nat>)
    ensures r.Some? ==> r.value < |gens| && busId(gens[r.value].busId) == id
                        && forall j :: r.value < j < |gens| ==> busId(gens[j].busId) != id
    ensures r.None? ==> forall j :: 0 <= j < |gens| ==> busId(gens[j].busId) != id
    decreases |gens|
  {
    if |gens| == 0 then None
    else if busId(gens[|gens| - 1].busId) == id then Some(|gens| - 1)
    else LastGenAt(gens[..|gens| - 1], busId, id)
  }

  /** Lookups by id see the same busses before and after setpoints change. */
  lemma FindBusSameIds(a: seq<MP.BusRecord>, b: seq<MP.BusRecord>, id: string)
    requires OnlySetpoints(a, b)
    ensures MP.FindBus(a, id) == MP.FindBus(b, id)
  {
    var ra, rb := MP.FindBus(a, id), MP.FindBus(b, id);
    if ra.Some? && rb.Some? {
      assert ra.value <= rb.value && rb.value <= ra.value;
    }
  }

  /** A bus that is the first of its id ends with the setpoint of the last
      generator attached to it, in the bus's base; a bus no generator names
      keeps its own setpoint. */
  lemma {:induction false} SetpointOfLastGen(buses: seq<MP.BusRecord>, gens: seq<MP.GenInfo>, busId: int -> string,
                                             sc: MP.Scales, rd: Reading, k: nat)
    requires k < |buses| && MP.FindBus(buses, buses[k].id) == Some(k)
    ensures var after := WithSetpoints(buses, gens, busId, sc, rd);
            after[k].vMagSetpoint == match LastGenAt(gens, busId, buses[k].id)
                                     case None => buses[k].vMagSetpoint
                                     case Some(j) => SetpointOf(rd, gens[j].vg, buses[k].vBase, sc)
    decreases |gens|
  {
    if |gens| > 0 {
      var init := gens[..|gens| - 1];
      var before := WithSetpoints(buses, init, busId, sc, rd);
      var g := gens[|gens| - 1];
      FindBusSameIds(buses, before, busId(g.busId));
      SetpointOfLastGen(buses, init, busId, sc, rd, k);
      if busId(g.busId) != buses[k].id {
        assert LastGenAt(gens, busId, buses[k].id) == LastGenAt(init, busId, buses[k].id);
        var f := MP.FindBus(before, busId(g.busId));
        if f.Some? {
          assert f.value != k;
        }
      }
    }
  }

  /** The bus of an info record under a reading. */
  function PluginBus(info: MP.BusInfo, sc: MP.Scales, rd: Reading, polar: (real, real) -> Complex, pi: real): MP.BusRecord
  {
    MP.BusRecordOf(info, BusId(info.id), sc, VBaseScale(rd, sc), polar, pi)
  }

  /** With the intended reading a bus is per-unit consistent whatever the
      scales: its nominal voltage is 1 p.u., its limits are the case's, and
      a generator's setpoint is the generator's per-unit setpoint. */
  lemma IntendedPerUnit(info: MP.BusInfo, sc: MP.Scales, vg: real, polar: (real, real) -> Complex, pi: real)
    requires info.kVBase != 0.0 && sc.v != 0.0
    ensures var b := PluginBus(info, sc, Intended, polar, pi);
            b.vNom.re / b.vBase == 1.0 && b.vMagMin / b.vBase == info.vMagMin
            && b.vMagMax / b.vBase == info.vMagMax
            && SetpointOf(Intended, vg, b.vBase, sc) / b.vBase == vg
  {
    var b := PluginBus(info, sc, Intended, polar, pi);
    MP.BusPerUnit(info, BusId(info.id), sc, polar, pi);
    var v, k := sc.v, info.kVBase;
    MP.ProductNonzero(v, k);
    SetpointPerUnit(vg, b.vBase, sc);
  }

  lemma SetpointPerUnit(vg: real, vBase: real, sc: MP.Scales)
    requires vBase != 0.0
    ensures SetpointOf(Intended, vg, vBase, sc) / vBase == vg
  {
  }

  /** As written, scaling powers alone (scale_P_by: 2) moves the voltages:
      a 10 kV bus gets a 20 kV base, so its nominal voltage is 0.5 p.u.,
      and a generator asking for 1 p.u. sets a 20 kV setpoint at a bus
      whose nominal voltage is 10 kV. Intended, both stay at 10 kV. */
  lemma PowerScaleMovesVoltages(info: MP.BusInfo, g: MP.GenInfo, polar: (real, real) -> Complex, pi: real)
    requires info.kVBase == 10.0 && g.vg == 1.0 && g.busId == info.id
    ensures ScalesOf(None, Some(2.0)) == Ok(MP.Scales(1.0, 2.0, 2.0))
    ensures var sc := MP.Scales(1.0, 2.0, 2.0);
            var b := WithSetpoints([PluginBus(info, sc, AsWritten, polar, pi)], [g], BusId, sc, AsWritten)[0];
            b.vNom == Complex(10.0, 0.0) && b.vBase == 20.0 && b.vMagSetpoint == 20.0
    ensures var sc := MP.Scales(1.0, 2.0, 2.0);
            var b := WithSetpoints([PluginBus(info, sc, Intended, polar, pi)], [g], BusId, sc, Intended)[0];
            b.vNom == Complex(10.0, 0.0) && b.vBase == 10.0 && b.vMagSetpoint == 10.0
  {
    var sc := MP.Scales(1.0, 2.0, 2.0);
    assert ScalesOf(None, Some(2.0)).value.g * 1.0 * 1.0 == 2.0 by { ScalesConsistent(None, Some(2.0)); }
    var bw := PluginBus(info, sc, AsWritten, polar, pi);
    var bi := PluginBus(info, sc, Intended, polar, pi);
    assert [g][..0] == [];
    assert MP.FindBus([bw], BusId(g.busId)) == Some(0);
    assert MP.FindBus([bi], BusId(g.busId)) == Some(0);
  }

  /** The two readings agree when only the voltage scale, or neither
      scale, is given. */
  lemma ReadingsAgreeWithoutPowerScale(sc: MP.Scales, vg: real, vBase: real)
    requires sc.p == sc.v && sc.v == 1.0
    ensures VBaseScale(AsWritten, sc) == VBaseScale(Intended, sc)
    ensures SetpointOf(AsWritten, vg, vBase, sc) == SetpointOf(Intended, vg, vBase, sc)
  {
  }

  // ---------------------------------------------------------- generators

  /** `netw.bus(busId)->setVMagSetpoint(...)` for one generator; false when
      no bus has the id and the pointer is null. */
  method SetSetpoint(buses: array<MP.BusRecord>, g: MP.GenInfo, busId: int -> string, sc: MP.Scales, rd: Reading)
    returns (found: bool)
    modifies buses
    ensures found <==> MP.FindBus(old(buses[..]), busId(g.busId)).Some?
    ensures found ==> buses[..] == SetpointStep(old(buses[..]), g, busId, sc, rd)
  {
    var at := MP.FindBus(buses[..], busId(g.busId));
    if at.None? {
      return false;
    }
    var k := at.value;
    buses[k] := buses[k].(vMagSetpoint := SetpointOf(rd, g.vg, buses[k].vBase, sc));
    found := true;
  }

  /** Every generator names a bus that exists. */
  predicate GensFound(buses: seq<MP.BusRecord>, gens: seq<MP.GenInfo>, busId: int -> string)
    decreases |gens|
  {
    |gens| == 0
    || (GensFound(buses, gens[..|gens| - 1], busId) && MP.FindBus(buses, busId(gens[|gens| - 1].busId)).Some?)
  }

  /** GensFound holds exactly when each generator's bus id names a bus. */
  lemma {:induction false} GensFoundEach(buses: seq<MP.BusRecord>, gens: seq<MP.GenInfo>, busId: int -> string)
    ensures GensFound(buses, gens, busId) <==>
              forall i :: 0 <= i < |gens| ==> MP.FindBus(buses, busId(gens[i].busId)).Some?
    decreases |gens|
  {
    if |gens| > 0 {
      var init := gens[..|gens| - 1];
      GensFoundEach(buses, init, busId);
      assert forall i :: 0 <= i < |init| ==> init[i] == gens[i];
    }
  }

  lemma GensFoundNext(buses: seq<MP.BusRecord>, gens: seq<MP.GenInfo>, i: nat, busId: int -> string)
    requires i < |gens|
    ensures GensFound(buses, gens[..i + 1], busId)
            <==> GensFound(buses, gens[..i], busId) && MP.FindBus(buses, busId(gens[i].busId)).Some?
    ensures MP.FindBus(buses, busId(gens[i].busId)).None? ==> !GensFound(buses, gens, busId)
  {
    assert gens[..i + 1][..i] == gens[..i];
    if MP.FindBus(buses, busId(gens[i].busId)).None? {
      GensFoundEach(buses, gens, busId);
    }
  }

  /** The setpoints the generators set, in order; false at the first
      generator whose bus id names no bus. */
  method SetGenSetpoints(genVec: seq<MP.GenInfo>, buses: array<MP.BusRecord>, busId: int -> string,
                         sc: MP.Scales, rd: Reading)
    returns (ok: bool)
    modifies buses
    ensures ok <==> GensFound(old(buses[..]), genVec, busId)
    ensures ok ==> buses[..] == WithSetpoints(old(buses[..]), genVec, busId, sc, rd)
  {
    ghost var initial := buses[..];
    for i := 0 to |genVec|
      invariant buses[..] == WithSetpoints(initial, genVec[..i], busId, sc, rd)
      invariant GensFound(initial, genVec[..i], busId)
    {
      var found := SetNextSetpoint(buses, genVec, i, initial, busId, sc, rd);
      if !found {
        return false;
      }
    }
    assert genVec[..|genVec|] == genVec;
    ok := true;
  }

  /** The step of generator i: the setpoints of the generators before it
      have been set. */
  method SetNextSetpoint(buses: array<MP.BusRecord>, gens: seq<MP.GenInfo>, i: nat, ghost initial: seq<MP.BusRecord>,
                         busId: int -> string, sc: MP.Scales, rd: Reading)
    returns (found: bool)
    requires i < |gens| && buses[..] == WithSetpoints(initial, gens[..i], busId, sc, rd)
    requires GensFound(initial, gens[..i], busId)
    modifies buses
    ensures found ==> buses[..] == WithSetpoints(initial, gens[..i + 1], busId, sc, rd)
                      && GensFound(initial, gens[..i + 1], busId)
    ensures !found ==> !GensFound(initial, gens, busId)
  {
    FindBusSameIds(initial, buses[..], busId(gens[i].busId));
    WithSetpointsNext(initial, gens, i, busId, sc, rd);
    GensFoundNext(initial, gens, i, busId);
    found := SetSetpoint(buses, gens[i], busId, sc, rd);
  }

  /** The generators, numbered by their row, each setting the setpoint of
      its bus; a generator of a bus id that names no bus dereferences a
      null pointer. */
  method AddGens(genVec: seq<MP.GenInfo>, buses: array<MP.BusRecord>, genId: (int, int) -> string,
                 busId: int -> string, sc: MP.Scales, rd: Reading)
    returns (r: Result<seq<MP.GenRecord>>)
    modifies buses
    ensures r.Ok? <==> GensFound(old(buses[..]), genVec, busId)
    ensures r.Ok? ==> |r.value| == |genVec| && forall i :: 0 <= i < |genVec| ==>
              r.value[i] == MP.GenRecordOf(genVec[i], genId(i, genVec[i].busId), busId(genVec[i].busId), sc)
    ensures r.Ok? ==> buses[..] == WithSetpoints(old(buses[..]), genVec, busId, sc, rd)
    ensures r.Err? ==> r.msg == "null dereference"
  {
    var ok := SetGenSetpoints(genVec, buses, busId, sc, rd);
    if !ok {
      return Err("null dereference");
    }
    r := Ok(seq(|genVec|, i requires 0 <= i < |genVec| =>
              MP.GenRecordOf(genVec[i], genId(i, genVec[i].busId), busId(genVec[i].busId), sc)));
  }

  // ------------------------------------------------------------------ parse

  /** Every row holds the columns read from it. */
  predicate TablesFit(data: MP.MpData)
  {
    MP.BusRowsFit(data.bus)
    && (forall i :: 0 <= i < |data.gen| ==> |data.gen[i]| >= 10)
    && (forall i :: 0 <= i < |data.branch| ==> |data.branch[i]| >= 13)
  }

  /** `parse`: the scales, the gencost count check, the info records, then
      the components in the source's order. Every bus has a nonzero base
      when the default base and the scales are nonzero. */
  method Parse(data: MP.MpData, defaultKV: real, vScale: Option<real>, pScale: Option<real>, rd: Reading,
               polar: (real, real) -> Complex, pi: real) returns (r: Result<MP.Case>)
    requires TablesFit(data) && defaultKV != 0.0
    requires CheckGenCostCount(|data.genCost|, |data.gen|).Ok? ==> CostRowsFit(data.genCost, |data.gen|)
    ensures CheckGenCostCount(|data.genCost|, |data.gen|).Err? ==> r.Err?
    ensures ScalesOf(vScale, pScale).Err? ==> r.Err?
    ensures r.Ok? ==> r.value.pBase == data.mvaBase
    ensures r.Ok? ==> |r.value.buses| == |data.bus| && |r.value.zips| == |data.bus|
                      && |r.value.gens| == |data.gen| && |r.value.branches| == |data.branch|
    ensures r.Ok? ==> HasSlack(r.value.buses)
    ensures r.Ok? ==> forall i :: 0 <= i < |data.bus| ==>
              r.value.buses[i].id == BusId(MP.ToInt(data.bus[i][0]))
              && r.value.zips[i].id == ZipId(i, MP.ToInt(data.bus[i][0]))
    ensures r.Ok? ==> forall i :: 0 <= i < |data.gen| ==> r.value.gens[i].id == GenId(i, MP.ToInt(data.gen[i][0]))
    ensures r.Ok? ==> forall i :: 0 <= i < |data.gen| && i < |data.genCost| ==>
              MP.CountNotNegative(data.genCost[i])
              && (!CostIgnored(MP.GenCostOf(data.genCost[i])) ==>
                    MP.CostCoeffs(rd, MP.GenCostOf(data.genCost[i]).costs).Ok?
                    && MP.CostsApplied(r.value.gens[i], MP.GenCostOf(data.genCost[i])))
    ensures r.Ok? ==> ScalesOf(vScale, pScale).Ok?
                      && CaseOf(MP.BusInfos(data.bus, defaultKV), MP.GenInfos(data.gen), MP.BranchInfos(data.branch),
                                data.mvaBase, ScalesOf(vScale, pScale).value, rd, polar, pi, r.value)
  {
    var scales := ScalesOf(vScale, pScale);
    if scales.Err? {
      return Err(scales.msg);
    }
    var busVec := MP.ExtractBuses(data.bus, defaultKV);
    var genVec := MP.ExtractGens(data.gen);
    var branchVec := MP.ExtractBranches(data.branch);
    var check := CheckGenCostCount(|data.genCost|, |data.gen|);
    if check.Err? {
      return Err(check.msg);
    }
    r := BuildCostedCase(data, busVec, genVec, branchVec, scales.value, rd, polar, pi);
    if r.Ok? {
      ParsedIds(data, defaultKV, r.value);
    }
  }

  /** The ids of the components built from the tables' info records are
      those of the rows. */
  lemma ParsedIds(data: MP.MpData, defaultKV: real, c: MP.Case)
    requires TablesFit(data)
    requires IdsOf(c.buses, MP.BusInfos(data.bus, defaultKV)) && |c.zips| == |data.bus| && |c.gens| == |data.gen|
    requires forall i :: 0 <= i < |data.bus| ==> c.zips[i].id == ZipId(i, MP.BusInfos(data.bus, defaultKV)[i].id)
    requires forall i :: 0 <= i < |data.gen| ==> c.gens[i].id == GenId(i, MP.GenInfos(data.gen)[i].busId)
    ensures forall i :: 0 <= i < |data.bus| ==>
              c.buses[i].id == BusId(MP.ToInt(data.bus[i][0])) && c.zips[i].id == ZipId(i, MP.ToInt(data.bus[i][0]))
    ensures forall i :: 0 <= i < |data.gen| ==> c.gens[i].id == GenId(i, MP.ToInt(data.gen[i][0]))
  {
  }

  /** The gencost rows read, then the components of the info records with
      those costs. */
  method BuildCostedCase(data: MP.MpData, busVec: seq<MP.BusInfo>, genVec: seq<MP.GenInfo>,
                         branchVec: seq<MP.BranchInfo>, sc: MP.Scales, rd: Reading,
                         polar: (real, real) -> Complex, pi: real) returns (r: Result<MP.Case>)
    requires forall i :: 0 <= i < |busVec| ==> busVec[i].kVBase != 0.0
    requires sc.v != 0.0 && sc.p != 0.0 && |genVec| == |data.gen|
    requires CheckGenCostCount(|data.genCost|, |data.gen|).Ok? && CostRowsFit(data.genCost, |data.gen|)
    ensures r.Ok? ==> r.value.pBase == data.mvaBase
    ensures r.Ok? ==> |r.value.zips| == |busVec| && |r.value.gens| == |genVec| && |r.value.branches| == |branchVec|
    ensures r.Ok? ==> IdsOf(r.value.buses, busVec) && HasSlack(r.value.buses)
    ensures r.Ok? ==> forall i :: 0 <= i < |busVec| ==> r.value.zips[i].id == ZipId(i, busVec[i].id)
    ensures r.Ok? ==> forall i :: 0 <= i < |genVec| ==> r.value.gens[i].id == GenId(i, genVec[i].busId)
    ensures r.Ok? ==> forall i :: 0 <= i < |data.gen| && i < |data.genCost| ==>
              MP.CountNotNegative(data.genCost[i])
              && (!CostIgnored(MP.GenCostOf(data.genCost[i])) ==>
                    MP.CostCoeffs(rd, MP.GenCostOf(data.genCost[i]).costs).Ok?
                    && MP.CostsApplied(r.value.gens[i], MP.GenCostOf(data.genCost[i])))
    ensures r.Ok? ==> CaseOf(busVec, genVec, branchVec, data.mvaBase, sc, rd, polar, pi, r.value)
  {
    var costs := ExtractGenCosts(data.genCost, |data.gen|);
    if costs.Err? {
      return Err(costs.msg);
    }
    r := BuildCase(busVec, genVec, branchVec, costs.value, data.mvaBase, sc, rd, polar, pi);
    if r.Ok? && |data.genCost| > 0 {
      RowCostsApplied(rd, data.genCost, |data.gen|, costs.value, r.value.gens);
    }
  }

  /** The costs read from the rows, applied to the generators, are the
      costs of the rows themselves. */
  lemma RowCostsApplied(rd: Reading, genCost: seq<MP.Row>, nGen: nat, costs: seq<MP.GenCostInfo>,
                        gens: seq<MP.GenRecord>)
    requires CostRowsFit(genCost, nGen) && |genCost| > 0 && |costs| == nGen
    requires forall i :: 0 <= i < nGen ==> MP.CountNotNegative(genCost[i]) && costs[i] == MP.GenCostOf(genCost[i])
    requires FirstReadFailure(rd, costs, 0).None?
    requires forall i :: 0 <= i < |costs| && !CostIgnored(costs[i]) ==> i < |gens| && MP.CostsApplied(gens[i], costs[i])
    ensures forall i :: 0 <= i < nGen && i < |genCost| ==>
              MP.CountNotNegative(genCost[i])
              && (!CostIgnored(MP.GenCostOf(genCost[i])) ==>
                    MP.CostCoeffs(rd, MP.GenCostOf(genCost[i]).costs).Ok? && i < |gens|
                    && MP.CostsApplied(gens[i], MP.GenCostOf(genCost[i])))
  {
    forall i | 0 <= i < nGen && i < |genCost|
      ensures MP.CountNotNegative(genCost[i])
              && (!CostIgnored(MP.GenCostOf(genCost[i])) ==>
                    MP.CostCoeffs(rd, MP.GenCostOf(genCost[i]).costs).Ok? && i < |gens|
                    && MP.CostsApplied(gens[i], MP.GenCostOf(genCost[i])))
    {
      assert MP.CountNotNegative(genCost[i]) && costs[i] == MP.GenCostOf(genCost[i]);
    }
  }

  predicate HasSlack(buses: seq<MP.BusRecord>)
  {
    exists k :: 0 <= k < |buses| && buses[k].busType == PowerFlow.SL
  }

  predicate BasesNonzero(buses: seq<MP.BusRecord>)
  {
    forall k :: 0 <= k < |buses| ==> buses[k].vBase != 0.0
  }

  /** The busses carry the ids of the bus rows, in order. */
  predicate IdsOf(buses: seq<MP.BusRecord>, busVec: seq<MP.BusInfo>)
  {
    |buses| == |busVec| && forall i :: 0 <= i < |buses| ==> buses[i].id == BusId(busVec[i].id)
  }

  /** b has the busses of a, with the same ids and bases. */
  predicate SameIdsAndBases(a: seq<MP.BusRecord>, b: seq<MP.BusRecord>)
  {
    |a| == |b| && forall k :: 0 <= k < |a| ==> b[k].id == a[k].id && b[k].vBase == a[k].vBase
  }

  lemma SameIdsAndBasesKeep(a: seq<MP.BusRecord>, b: seq<MP.BusRecord>, busVec: seq<MP.BusInfo>)
    requires SameIdsAndBases(a, b)
    ensures IdsOf(a, busVec) ==> IdsOf(b, busVec)
    ensures BasesNonzero(a) ==> BasesNonzero(b)
  {
  }

  lemma FallbackKeeps(a: seq<MP.BusRecord>)
    requires SlackFallback(a).Ok?
    ensures SameIdsAndBases(a, SlackFallback(a).value) && HasSlack(SlackFallback(a).value)
  {
    SlackFallbackSpec(a);
  }

  lemma SetpointsKeep(a: seq<MP.BusRecord>, b: seq<MP.BusRecord>)
    requires OnlySetpoints(a, b)
    ensures SameIdsAndBases(a, b)
    ensures HasSlack(a) ==> HasSlack(b)
  {
    if HasSlack(a) {
      var k :| 0 <= k < |a| && a[k].busType == PowerFlow.SL;
      assert b[k].busType == PowerFlow.SL;
    }
  }

  lemma BuiltBusses(busVec: seq<MP.BusInfo>, built: seq<MP.BusRecord>, sc: MP.Scales, rd: Reading,
                    polar: (real, real) -> Complex, pi: real)
    requires forall i :: 0 <= i < |busVec| ==> busVec[i].kVBase != 0.0
    requires sc.v != 0.0 && sc.p != 0.0
    requires |built| == |busVec| && forall i :: 0 <= i < |busVec| ==>
               built[i] == MP.BusRecordOf(busVec[i], BusId(busVec[i].id), sc, VBaseScale(rd, sc), polar, pi)
    ensures IdsOf(built, busVec) && BasesNonzero(built)
  {
    var s := VBaseScale(rd, sc);
    assert s != 0.0;
    forall i | 0 <= i < |built|
      ensures built[i].vBase != 0.0
    {
      var k := busVec[i].kVBase;
      MP.ProductNonzero(s, k);
      assert built[i].vBase == s * k;
    }
  }

  /** The busses of the bus rows as first made, before the slack fallback
      and the generator setpoints. */
  ghost function BussesOf(busVec: seq<MP.BusInfo>, sc: MP.Scales, rd: Reading,
                          polar: (real, real) -> Complex, pi: real): (s: seq<MP.BusRecord>)
    ensures |s| == |busVec| && forall i :: 0 <= i < |busVec| ==>
              s[i] == MP.BusRecordOf(busVec[i], BusId(busVec[i].id), sc, VBaseScale(rd, sc), polar, pi)
  {
    seq(|busVec|, i requires 0 <= i < |busVec| =>
          MP.BusRecordOf(busVec[i], BusId(busVec[i].id), sc, VBaseScale(rd, sc), polar, pi))
  }

  /** The busses after the slack fallback and the generator setpoints, and
      a ZIP load per bus row. */
  ghost predicate BusStageOf(busVec: seq<MP.BusInfo>, genVec: seq<MP.GenInfo>, sc: MP.Scales, rd: Reading,
                             polar: (real, real) -> Complex, pi: real,
                             buses: seq<MP.BusRecord>, zips: seq<MP.ZipRecord>)
  {
    var built := BussesOf(busVec, sc, rd, polar, pi);
    SlackFallback(built).Ok?
    && buses == WithSetpoints(SlackFallback(built).value, genVec, BusId, sc, rd)
    && |zips| == |busVec|
    && (forall i :: 0 <= i < |busVec| ==>
          busVec[i].kVBase != 0.0
          && zips[i] == MP.ZipRecordOf(busVec[i], ZipId(i, busVec[i].id), BusId(busVec[i].id), sc))
  }

  /** The case whose components are those of the info records: the bus
      stage, a generator per gen row (up to its costs) and a branch per
      branch row between the busses it names. */
  ghost predicate CaseOf(busVec: seq<MP.BusInfo>, genVec: seq<MP.GenInfo>, branchVec: seq<MP.BranchInfo>,
                         mvaBase: real, sc: MP.Scales, rd: Reading, polar: (real, real) -> Complex, pi: real,
                         c: MP.Case)
  {
    c.pBase == mvaBase
    && BusStageOf(busVec, genVec, sc, rd, polar, pi, c.buses, c.zips)
    && |c.gens| == |genVec|
    && (forall i :: 0 <= i < |genVec| ==>
          MP.Uncosted(c.gens[i]) == MP.GenRecordOf(genVec[i], GenId(i, genVec[i].busId), BusId(genVec[i].busId), sc))
    && |c.branches| == |branchVec|
    && (forall i :: 0 <= i < |branchVec| ==>
          MP.BranchBuilt(c.buses, branchVec[i], BranchId(i, branchVec[i].busIdF, branchVec[i].busIdT),
                         BusId(branchVec[i].busIdF), BusId(branchVec[i].busIdT), sc, mvaBase, polar, pi,
                         c.branches[i]))
  }

  /** The busses and their ZIP loads, the slack fallback, then the
      generators and the setpoints they set. */
  method BuildBusStage(busVec: seq<MP.BusInfo>, genVec: seq<MP.GenInfo>, sc: MP.Scales, rd: Reading,
                       polar: (real, real) -> Complex, pi: real)
    returns (r: Result<(seq<MP.BusRecord>, seq<MP.ZipRecord>, seq<MP.GenRecord>)>)
    requires forall i :: 0 <= i < |busVec| ==> busVec[i].kVBase != 0.0
    requires sc.v != 0.0 && sc.p != 0.0
    ensures r.Ok? ==> IdsOf(r.value.0, busVec) && BasesNonzero(r.value.0) && HasSlack(r.value.0)
    ensures r.Ok? ==> |r.value.1| == |busVec| && forall i :: 0 <= i < |busVec| ==> r.value.1[i].id == ZipId(i, busVec[i].id)
    ensures r.Ok? ==> |r.value.2| == |genVec| && forall i :: 0 <= i < |genVec| ==> r.value.2[i].id == GenId(i, genVec[i].busId)
    ensures r.Ok? ==> BusStageOf(busVec, genVec, sc, rd, polar, pi, r.value.0, r.value.1)
    ensures r.Ok? ==> forall i :: 0 <= i < |genVec| ==>
              r.value.2[i] == MP.GenRecordOf(genVec[i], GenId(i, genVec[i].busId), BusId(genVec[i].busId), sc)
  {
    var buses, zips := MP.BuildBusses(busVec, BusId, ZipId, sc, VBaseScale(rd, sc), polar, pi);
    var built := buses[..];
    assert built == BussesOf(busVec, sc, rd, polar, pi);
    BuiltBusses(busVec, built, sc, rd, polar, pi);
    var slack := EnsureSlack(buses);
    if slack.Err? {
      return Err(slack.msg);
    }
    var withSlack := buses[..];
    FallbackKeeps(built);
    SameIdsAndBasesKeep(built, withSlack, busVec);
    var gens := AddGens(genVec, buses, GenId, BusId, sc, rd);
    if gens.Err? {
      return Err(gens.msg);
    }
    var busSeq := buses[..];
    SetpointsKeep(withSlack, busSeq);
    SameIdsAndBasesKeep(withSlack, busSeq, busVec);
    r := Ok((busSeq, zips, gens.value));
  }

  /** The components of the info records: the bus stage, branches, then
      the generator costs. */
  method BuildCase(busVec: seq<MP.BusInfo>, genVec: seq<MP.GenInfo>, branchVec: seq<MP.BranchInfo>,
                   costs: seq<MP.GenCostInfo>, mvaBase: real, sc: MP.Scales, rd: Reading,
                   polar: (real, real) -> Complex, pi: real)
    returns (r: Result<MP.Case>)
    requires forall i :: 0 <= i < |busVec| ==> busVec[i].kVBase != 0.0
    requires sc.v != 0.0 && sc.p != 0.0 && |costs| <= |genVec|
    ensures r.Ok? ==> r.value.pBase == mvaBase
    ensures r.Ok? ==> |r.value.zips| == |busVec| && |r.value.gens| == |genVec| && |r.value.branches| == |branchVec|
    ensures r.Ok? ==> IdsOf(r.value.buses, busVec) && HasSlack(r.value.buses)
    ensures r.Ok? ==> forall i :: 0 <= i < |busVec| ==> r.value.zips[i].id == ZipId(i, busVec[i].id)
    ensures r.Ok? ==> forall i :: 0 <= i < |genVec| ==> r.value.gens[i].id == GenId(i, genVec[i].busId)
    ensures FirstReadFailure(rd, costs, 0).Some? ==> r.Err?
    ensures r.Ok? ==> forall i :: 0 <= i < |costs| && !CostIgnored(costs[i]) ==>
              i < |r.value.gens| && MP.CostsApplied(r.value.gens[i], costs[i])
    ensures r.Ok? ==> CaseOf(busVec, genVec, branchVec, mvaBase, sc, rd, polar, pi, r.value)
  {
    var stage := BuildBusStage(busVec, genVec, sc, rd, polar, pi);
    if stage.Err? {
      return Err(stage.msg);
    }
    var (busSeq, zips, gens) := stage.value;
    var branches := MP.BuildBranches(branchVec, busSeq, BranchId, BusId, sc, mvaBase, polar, pi);
    if branches.Err? {
      return Err(branches.msg);
    }
    forall i | 0 <= i < |branchVec|
      ensures MP.BranchBuilt(busSeq, branchVec[i], BranchId(i, branchVec[i].busIdF, branchVec[i].busIdT),
                             BusId(branchVec[i].busIdF), BusId(branchVec[i].busIdT), sc, mvaBase, polar, pi,
                             branches.value[i])
    {
      var t := MP.FindBus(busSeq, BusId(branchVec[i].busIdT)).value;
      assert busSeq[t].vBase != 0.0;
    }
    var costed := CostedGens(gens, costs, rd);
    if costed.Err? {
      return Err(costed.msg);
    }
    r := Ok(MP.Case(mvaBase, busSeq, zips, costed.value, branches.value));
  }

  /** The generators with the costs of their gencost rows applied. */
  method CostedGens(gens: seq<MP.GenRecord>, costs: seq<MP.GenCostInfo>, rd: Reading)
    returns (r: Result<seq<MP.GenRecord>>)
    requires |costs| <= |gens|
    ensures r.Err? <==> FirstReadFailure(rd, costs, 0).Some?
    ensures r.Ok? ==> |r.value| == |gens| && forall i :: 0 <= i < |gens| ==> r.value[i].id == gens[i].id
    ensures r.Ok? ==> forall i :: 0 <= i < |gens| ==>
              r.value[i] == if i < |costs| && !CostIgnored(costs[i]) then MP.WithCosts(rd, gens[i], costs[i]) else gens[i]
  {
    var genArr := new MP.GenRecord[|gens|](i requires 0 <= i < |gens| reads {} => gens[i]);
    var ignored := ApplyGenCosts(rd, genArr, costs);
    if ignored.Err? {
      return Err(ignored.msg);
    }
    r := Ok(genArr[..]);
  }
}
