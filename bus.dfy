// A network bus (SgtCore/Bus.cc): its per-phase voltage state, the
// generators and ZIP loads attached to it, the totals it accumulates over
// them and the application of its voltage setpoints.

module Bus {
  import opened Shared
  import PowerFlow

  // ------------------------------------------------ per-phase vectors

  /** A per-phase vector (`arma::Col<Complex>`). */
  type Vec = seq<Complex>

  function VZero(n: nat): (r: Vec)
    ensures |r| == n && forall i :: 0 <= i < n ==> r[i] == CZero
  {
    seq(n, _ => CZero)
  }

  function VAdd(a: Vec, b: Vec): (r: Vec)
    requires |a| == |b|
    ensures |r| == |a|
  {
    seq(|a|, i requires 0 <= i < |a| => CAdd(a[i], b[i]))
  }

  function VSub(a: Vec, b: Vec): (r: Vec)
    requires |a| == |b|
    ensures |r| == |a|
  {
    seq(|a|, i requires 0 <= i < |a| => CSub(a[i], b[i]))
  }

  /** Subtraction undoes addition, entry by entry. */
  lemma VSubAdd(a: Vec, b: Vec)
    requires |a| == |b|
    ensures VAdd(VSub(a, b), b) == a && VSub(VAdd(a, b), b) == a
  {
  }

  /** Adding one vector and removing another commute. */
  lemma VAddSubCommute(a: Vec, b: Vec, c: Vec)
    requires |a| == |b| == |c|
    ensures VAdd(VSub(a, b), c) == VSub(VAdd(a, c), b)
  {
  }

  lemma VAddZero(a: Vec)
    ensures VAdd(VZero(|a|), a) == a
  {
  }

  // ------------------------------------------------ attached devices

  /** A generator as the bus sees it: its service status, its per-phase
      injection S and its cost rate J. */
  datatype Gen = Gen(inService: bool, s: Vec, j: real)

  /** A ZIP load: its service status and its constant-admittance,
      constant-current and constant-power parts. */
  datatype Zip = Zip(inService: bool, yConst: Vec, iConst: Vec, sConst: Vec)

  predicate GensShaped(gens: seq<Gen>, n: nat)
  {
    forall k :: 0 <= k < |gens| ==> |gens[k].s| == n
  }

  predicate ZipsShaped(zips: seq<Zip>, n: nat)
  {
    forall k :: 0 <= k < |zips| ==> |zips[k].yConst| == n && |zips[k].iConst| == n && |zips[k].sConst| == n
  }

  /** The indices of the in-service generators. */
  function InServiceGens(gens: seq<Gen>): set<nat>
  {
    set k: nat | k < |gens| && gens[k].inService
  }

  function InServiceZips(zips: seq<Zip>): set<nat>
  {
    set k: nat | k < |zips| && zips[k].inService
  }

  /** Total injection of the in-service generators, accumulated in order. */
  function GenRequested(gens: seq<Gen>, n: nat): (r: Vec)
    requires GensShaped(gens, n)
    ensures |r| == n
  {
    if |gens| == 0 then VZero(n)
    else
      var prev := GenRequested(gens[..|gens| - 1], n);
      if gens[|gens| - 1].inService then VAdd(prev, gens[|gens| - 1].s) else prev
  }

  /** Total cost rate of the in-service generators. */
  function GenCost(gens: seq<Gen>): real
  {
    if |gens| == 0 then 0.0
    else GenCost(gens[..|gens| - 1]) + (if gens[|gens| - 1].inService then gens[|gens| - 1].j else 0.0)
  }

  /** Which ZIP part a total is taken over. */
  datatype ZipPart = YPart | IPart | SPart

  function PartOf(z: Zip, part: ZipPart): Vec
  {
    match part
    case YPart => z.yConst
    case IPart => z.iConst
    case SPart => z.sConst
  }

  /** Total of one ZIP part over every attached ZIP, in or out of service. */
  function ZipTotal(zips: seq<Zip>, part: ZipPart, n: nat): (r: Vec)
    requires ZipsShaped(zips, n)
    ensures |r| == n
  {
    if |zips| == 0 then VZero(n)
    else VAdd(ZipTotal(zips[..|zips| - 1], part, n), PartOf(zips[|zips| - 1], part))
  }

  /** Switching an in-service generator off removes exactly its injection
      from the requested total; switching off one already off changes
      nothing. */
  lemma {:induction false} SwitchOffGen(gens: seq<Gen>, n: nat, k: nat)
    requires GensShaped(gens, n) && k < |gens|
    ensures GensShaped(gens[k := gens[k].(inService := false)], n)
    ensures GenRequested(gens[k := gens[k].(inService := false)], n)
            == if gens[k].inService then VSub(GenRequested(gens, n), gens[k].s) else GenRequested(gens, n)
  {
    var off := gens[k := gens[k].(inService := false)];
    var last := |gens| - 1;
    assert off[..last] == if k == last then gens[..last] else gens[..last][k := gens[k].(inService := false)];
    if k == last {
      if gens[k].inService {
        VSubAdd(GenRequested(gens[..last], n), gens[k].s);
      }
    } else {
      SwitchOffGen(gens[..last], n, k);
      if gens[last].inService && gens[k].inService {
        VAddSubCommute(GenRequested(gens[..last], n), gens[k].s, gens[last].s);
      }
    }
  }

  /** With every generator out of service the requested total is zero. */
  lemma {:induction false} NoGenInService(gens: seq<Gen>, n: nat)
    requires GensShaped(gens, n) && InServiceGens(gens) == {}
    ensures GenRequested(gens, n) == VZero(n)
  {
    if |gens| > 0 {
      var last := |gens| - 1;
      assert last in InServiceGens(gens) <==> gens[last].inService;
      assert InServiceGens(gens[..last]) <= InServiceGens(gens);
      NoGenInService(gens[..last], n);
    }
  }

  /** ZIP totals ignore service status: any change of status flags leaves
      them unchanged. */
  lemma {:induction false} ZipTotalIgnoresService(zips: seq<Zip>, other: seq<Zip>, part: ZipPart, n: nat)
    requires ZipsShaped(zips, n) && |other| == |zips|
    requires forall k :: 0 <= k < |zips| ==> other[k] == zips[k].(inService := other[k].inService)
    ensures ZipsShaped(other, n)
    ensures ZipTotal(other, part, n) == ZipTotal(zips, part, n)
  {
    if |zips| > 0 {
      ZipTotalIgnoresService(zips[..|zips| - 1], other[..|other| - 1], part, n);
    }
  }

  // ------------------------------------------------ power of a ZIP load

  /** Power drawn by a constant admittance y at voltage v:
      `-conj(y) % conj(v) % v`. */
  function SYConstOf(y: Vec, v: Vec): (r: Vec)
    requires |y| == |v|
    ensures |r| == |v|
  {
    seq(|v|, i requires 0 <= i < |v| => CMul(CMul(CNeg(CConj(y[i])), CConj(v[i])), v[i]))
  }

  /** Power drawn by a constant current c at voltage v: `conj(c) % v`. */
  function SIConstOf(c: Vec, v: Vec): (r: Vec)
    requires |c| == |v|
    ensures |r| == |v|
  {
    seq(|v|, i requires 0 <= i < |v| => CMul(CConj(c[i]), v[i]))
  }

  /** The constant-admittance power is -conj(y) scaled by |v|^2, so it
      grows with the square of the voltage magnitude. */
  lemma SYConstScalesWithVSquared(y: Vec, v: Vec, i: nat)
    requires |y| == |v| && i < |v|
    ensures SYConstOf(y, v)[i] == CScale(-NormSq(v[i]), CConj(y[i]))
  {
    var a, b, c, d := y[i].re, y[i].im, v[i].re, v[i].im;
    var w := CMul(CNeg(CConj(y[i])), CConj(v[i]));
    assert w == Complex(-a * c + b * d, a * d + b * c);
    assert (-a * c + b * d) * c - (a * d + b * c) * d == -(c * c + d * d) * a;
    assert (-a * c + b * d) * d + (a * d + b * c) * c == -(c * c + d * d) * (-b);
  }

  // ------------------------------------------------ voltage setpoints

  /** `v *= mag / |v|`: v rescaled to magnitude mag. */
  function Rescaled(v: Complex, mag: real, absV: real): Complex
    requires absV != 0.0
  {
    CScale(mag / absV, v)
  }

  /** The voltage vector that applyVSetpoints sets: slack busses take the
      polar form of their magnitude and angle setpoints, PV busses rescale
      each phase to its magnitude setpoint, other busses keep theirs. */
  function SetpointVoltages(busType: PowerFlow.BusType, v: Vec, mag: seq<real>, ang: seq<real>,
                            polar: (real, real) -> Complex, abs: Complex -> real): (r: Vec)
    requires |mag| == |ang| == |v|
    requires busType == PowerFlow.PV ==> forall i :: 0 <= i < |v| ==> abs(v[i]) != 0.0
    ensures |r| == |v|
    ensures busType !in {PowerFlow.SL, PowerFlow.PV} ==> r == v
  {
    match busType
    case SL => seq(|v|, i requires 0 <= i < |v| => polar(mag[i], ang[i]))
    case PV => seq(|v|, i requires 0 <= i < |v| => Rescaled(v[i], mag[i], abs(v[i])))
    case _ => v
  }

  /** With a polar form that inverts (abs, arg), a slack bus ends at its
      magnitude and angle setpoints. */
  lemma SlackSetpointsReached(v: Vec, mag: seq<real>, ang: seq<real>,
                              polar: (real, real) -> Complex, abs: Complex -> real, arg: Complex -> real, i: nat)
    requires |mag| == |ang| == |v| && i < |v| && mag[i] >= 0.0
    requires forall m: real, a: real :: m >= 0.0 ==> abs(polar(m, a)) == m
    requires forall m: real, a: real :: m >= 0.0 ==> arg(polar(m, a)) == a
    ensures abs(SetpointVoltages(PowerFlow.SL, v, mag, ang, polar, abs)[i]) == mag[i]
    ensures arg(SetpointVoltages(PowerFlow.SL, v, mag, ang, polar, abs)[i]) == ang[i]
  {
    var m0, a0 := mag[i], ang[i];
    assert abs(polar(m0, a0)) == m0;
    var r := SetpointVoltages(PowerFlow.SL, v, mag, ang, polar, abs);
    assert r[i] == polar(mag[i], ang[i]);
  }

  /** With a magnitude that is homogeneous and an angle that positive
      scaling preserves, a PV bus ends at its magnitude setpoints with its
      angles unchanged. */
  lemma PvSetpointsReached(v: Vec, mag: seq<real>, ang: seq<real>,
                           polar: (real, real) -> Complex, abs: Complex -> real, arg: Complex -> real, i: nat)
    requires |mag| == |ang| == |v| && i < |v| && mag[i] > 0.0
    requires forall k :: 0 <= k < |v| ==> abs(v[k]) > 0.0
    requires forall k: real, z: Complex {:trigger CScale(k, z)} :: k >= 0.0 ==> abs(CScale(k, z)) == k * abs(z)
    requires forall k: real, z: Complex {:trigger CScale(k, z)} :: k > 0.0 ==> arg(CScale(k, z)) == arg(z)
    ensures abs(SetpointVoltages(PowerFlow.PV, v, mag, ang, polar, abs)[i]) == mag[i]
    ensures arg(SetpointVoltages(PowerFlow.PV, v, mag, ang, polar, abs)[i]) == arg(v[i])
  {
    var k := mag[i] / abs(v[i]);
    assert SetpointVoltages(PowerFlow.PV, v, mag, ang, polar, abs)[i] == Rescaled(v[i], mag[i], abs(v[i]));
    assert Rescaled(v[i], mag[i], abs(v[i])) == CScale(k, v[i]);
    assert k > 0.0;
    assert abs(CScale(k, v[i])) == k * abs(v[i]);
    assert k * abs(v[i]) == mag[i];
  }

  // ------------------------------------------------ the bus

  class Bus {
    var id: string
    /** `phases_.size()`. */
    var nPhases: nat
    var busType: PowerFlow.BusType
    var vNom: Vec
    var vBase: real
    var vMagSetpoint: seq<real>
    var vAngSetpoint: seq<real>
    var v: Vec
    var sGenUnserved: Vec
    var sZipUnserved: Vec
    var gens: seq<Gen>
    var zips: seq<Zip>

    /** Every per-phase vector, and every attached device's, has one entry
        per phase. */
    predicate Valid()
      reads this
    {
      |vNom| == nPhases && |vMagSetpoint| == nPhases && |vAngSetpoint| == nPhases && |v| == nPhases
      && |sGenUnserved| == nPhases && |sZipUnserved| == nPhases
      && GensShaped(gens, nPhases) && ZipsShaped(zips, nPhases)
    }

    /** V starts at VNom, the setpoints at VNom's magnitudes and angles, and
        nothing is unserved. */
    constructor(id': string, nPhases': nat, vNom': Vec, vBase': real,
                abs: Complex -> real, arg: Complex -> real)
      requires |vNom'| == nPhases'
      ensures Valid()
      ensures id == id' && nPhases == nPhases' && vNom == vNom' && vBase == vBase' && v == vNom'
      ensures busType == PowerFlow.NA && gens == [] && zips == []
      ensures sGenUnserved == VZero(nPhases') && sZipUnserved == VZero(nPhases')
      ensures forall i :: 0 <= i < nPhases' ==> vMagSetpoint[i] == abs(vNom'[i]) && vAngSetpoint[i] == arg(vNom'[i])
    {
      id := id';
      nPhases := nPhases';
      busType := PowerFlow.NA;
      vNom := vNom';
      vBase := vBase';
      v := vNom';
      sGenUnserved := VZero(nPhases');
      sZipUnserved := VZero(nPhases');
      gens := [];
      zips := [];
      var mag := seq(nPhases', _ => 0.0);
      var ang := seq(nPhases', _ => 0.0);
      for i := 0 to nPhases'
        invariant |mag| == nPhases' && |ang| == nPhases'
        invariant forall k :: 0 <= k < i ==> mag[k] == abs(vNom'[k]) && ang[k] == arg(vNom'[k])
      {
        mag := mag[i := abs(vNom'[i])];
        ang := ang[i := arg(vNom'[i])];
      }
      vMagSetpoint := mag;
      vAngSetpoint := ang;
    }

    /** nInServiceGens: the number of generators in service. */
    method NInServiceGens() returns (count: nat)
      ensures count == |InServiceGens(gens)|
    {
      count := 0;
      for i := 0 to |gens|
        invariant count == |InServiceGens(gens[..i])|
      {
        CountStep(gens, i);
        if gens[i].inService {
          count := count + 1;
        }
      }
      assert gens[..|gens|] == gens;
    }

    /** nInServiceZips: the number of ZIP loads in service. */
    method NInServiceZips() returns (count: nat)
      ensures count == |InServiceZips(zips)|
    {
      count := 0;
      for i := 0 to |zips|
        invariant count == |InServiceZips(zips[..i])|
      {
        ZipCountStep(zips, i);
        if zips[i].inService {
          count := count + 1;
        }
      }
      assert zips[..|zips|] == zips;
    }

    /** SGenRequested: the in-service generators' total injection. */
    method SGenRequested() returns (sum: Vec)
      requires Valid()
      ensures sum == GenRequested(gens, nPhases)
    {
      sum := VZero(nPhases);
      for i := 0 to |gens|
        invariant sum == GenRequested(gens[..i], nPhases)
      {
        assert gens[..i + 1][..i] == gens[..i];
        if gens[i].inService {
          sum := VAdd(sum, gens[i].s);
        }
      }
      assert gens[..|gens|] == gens;
    }

    /** SGen: what the generators deliver, the request less what is
        unserved. */
    method SGen() returns (s: Vec)
      requires Valid()
      ensures |s| == nPhases
      ensures VAdd(s, sGenUnserved) == GenRequested(gens, nPhases)
    {
      var requested := SGenRequested();
      s := VSub(requested, sGenUnserved);
      VSubAdd(requested, sGenUnserved);
    }

    /** JGen: the in-service generators' total cost rate. */
    method JGen() returns (sum: real)
      ensures sum == GenCost(gens)
    {
      sum := 0.0;
      for i := 0 to |gens|
        invariant sum == GenCost(gens[..i])
      {
        assert gens[..i + 1][..i] == gens[..i];
        if gens[i].inService {
          sum := sum + gens[i].j;
        }
      }
      assert gens[..|gens|] == gens;
    }

    /** YConst, IConst and SConst: one ZIP part summed over every ZIP. */
    method ZipConst(part: ZipPart) returns (sum: Vec)
      requires Valid()
      ensures sum == ZipTotal(zips, part, nPhases)
    {
      sum := VZero(nPhases);
      for i := 0 to |zips|
        invariant sum == ZipTotal(zips[..i], part, nPhases)
      {
        assert zips[..i + 1][..i] == zips[..i];
        sum := VAdd(sum, PartOf(zips[i], part));
      }
      assert zips[..|zips|] == zips;
    }

    /** SZip: the power the ZIP loads draw at the present voltage, less
        what is unserved. */
    method SZip() returns (s: Vec)
      requires Valid()
      ensures |s| == nPhases
      ensures VAdd(s, sZipUnserved)
              == VAdd(VAdd(SYConstOf(ZipTotal(zips, YPart, nPhases), v), SIConstOf(ZipTotal(zips, IPart, nPhases), v)),
                      ZipTotal(zips, SPart, nPhases))
    {
      var y := ZipConst(YPart);
      var c := ZipConst(IPart);
      var sc := ZipConst(SPart);
      var requested := VAdd(VAdd(SYConstOf(y, v), SIConstOf(c, v)), sc);
      s := VSub(requested, sZipUnserved);
      VSubAdd(requested, sZipUnserved);
    }

    /** applyVSetpoints: V becomes the setpoint voltages for slack and PV
        busses; nothing else changes. */
    method ApplyVSetpoints(polar: (real, real) -> Complex, abs: Complex -> real)
      requires Valid()
      requires busType == PowerFlow.PV ==> forall i :: 0 <= i < |v| ==> abs(v[i]) != 0.0
      modifies this
      ensures Valid()
      ensures v == SetpointVoltages(old(busType), old(v), old(vMagSetpoint), old(vAngSetpoint), polar, abs)
      ensures id == old(id) && nPhases == old(nPhases) && busType == old(busType) && vNom == old(vNom)
      ensures vBase == old(vBase) && vMagSetpoint == old(vMagSetpoint) && vAngSetpoint == old(vAngSetpoint)
      ensures sGenUnserved == old(sGenUnserved) && sZipUnserved == old(sZipUnserved)
      ensures gens == old(gens) && zips == old(zips)
    {
      var vNew: Vec;
      match busType {
        case SL =>
          vNew := seq(nPhases, _ => CZero);
          for i := 0 to nPhases
            invariant |vNew| == nPhases
            invariant forall k :: 0 <= k < i ==> vNew[k] == polar(vMagSetpoint[k], vAngSetpoint[k])
          {
            vNew := vNew[i := polar(vMagSetpoint[i], vAngSetpoint[i])];
          }
          v := vNew;
        case PV =>
          vNew := v;
          for i := 0 to nPhases
            invariant |vNew| == nPhases
            invariant forall k :: 0 <= k < i ==> vNew[k] == Rescaled(v[k], vMagSetpoint[k], abs(v[k]))
            invariant forall k :: i <= k < nPhases ==> vNew[k] == v[k]
          {
            vNew := vNew[i := Rescaled(vNew[i], vMagSetpoint[i], abs(v[i]))];
          }
          v := vNew;
        case _ =>
      }
    }
  }

  /** One more generator adds one to the in-service count exactly when it
      is in service. */
  lemma CountStep(gens: seq<Gen>, i: nat)
    requires i < |gens|
    ensures |InServiceGens(gens[..i + 1])|
            == |InServiceGens(gens[..i])| + (if gens[i].inService then 1 else 0)
  {
    var before, after := InServiceGens(gens[..i]), InServiceGens(gens[..i + 1]);
    if gens[i].inService {
      assert after == before + {i};
      assert i !in before;
    } else {
      assert after == before;
    }
  }

  lemma ZipCountStep(zips: seq<Zip>, i: nat)
    requires i < |zips|
    ensures |InServiceZips(zips[..i + 1])|
            == |InServiceZips(zips[..i])| + (if zips[i].inService then 1 else 0)
  {
    var before, after := InServiceZips(zips[..i]), InServiceZips(zips[..i + 1]);
    if zips[i].inService {
      assert after == before + {i};
      assert i !in before;
    } else {
      assert after == before;
    }
  }
}
