// The battery of src/SimpleBattery.h and the dead-band controller of the
// microgrid demo, examples/MicrogridDemo/src/MicrogridController.cc. A
// component's dependencies and the actions on its `didUpdate` event are
// kept as lists of names and action descriptions; the event machinery and
// the battery's `updateState` (defined in a file not part of this model)
// are not modelled. A bus is seen through its constant power `Sc()(0)`,
// which the controller's update takes as input.

module Microgrid {
  import opened Shared
  import opened YamlDecode
  import opened NameExpansion
  import TP = ToolboxParser

  // ------------------------------------------------------------ battery

  /** The battery's numeric state, as its accessors return it. */
  datatype BatteryState = BatteryState(
    initCharge: real, maxCharge: real, maxChargePower: real, maxDischargePower: real,
    chargeEfficiency: real, dischargeEfficiency: real, charge: real, requestedPower: real)

  /** `power()`: a discharge request (negative) limited by the discharge
      power, any other request by the charge power. */
  function BatteryPower(req: real, maxChg: real, maxDis: real): (p: real)
    ensures req < 0.0 ==> p == (if req < -maxDis then -maxDis else req)
    ensures req >= 0.0 ==> p == (if req > maxChg then maxChg else req)
  {
    if req < 0.0 then (if req >= -maxDis then req else -maxDis)
    else (if req <= maxChg then req else maxChg)
  }

  /** Clamping to an interval, written independently of the battery. */
  function Clamp(x: real, lo: real, hi: real): real
    requires lo <= hi
  {
    if x < lo then lo else if x > hi then hi else x
  }

  /** With non-negative limits the delivered power is the request clamped
      to [-maxDischargePower, maxChargePower]: never beyond either limit,
      never more than requested, and of the request's sign. */
  lemma PowerIsClamp(req: real, maxChg: real, maxDis: real)
    requires maxChg >= 0.0 && maxDis >= 0.0
    ensures BatteryPower(req, maxChg, maxDis) == Clamp(req, -maxDis, maxChg)
    ensures -maxDis <= BatteryPower(req, maxChg, maxDis) <= maxChg
    ensures -maxDis <= req <= maxChg ==> BatteryPower(req, maxChg, maxDis) == req
    ensures req < 0.0 ==> req <= BatteryPower(req, maxChg, maxDis) <= 0.0
    ensures req >= 0.0 ==> 0.0 <= BatteryPower(req, maxChg, maxDis) <= req
  {
  }

  /** `internalPower()`: the power seen by the store, the delivered
      discharge divided by the discharge efficiency and the delivered
      charge multiplied by the charge efficiency. */
  function InternalPowerOf(req: real, maxChg: real, maxDis: real, chgEff: real, disEff: real): real
    requires req < 0.0 ==> disEff != 0.0
  {
    if req < 0.0 then BatteryPower(req, maxChg, maxDis) / disEff
    else BatteryPower(req, maxChg, maxDis) * chgEff
  }

  /** With efficiencies in (0, 1] and non-negative limits, the store loses
      at least what is delivered when discharging and gains at most what
      is drawn when charging. */
  lemma {:induction false} InternalPowerLosses(req: real, maxChg: real, maxDis: real, chgEff: real, disEff: real)
    requires maxChg >= 0.0 && maxDis >= 0.0
    requires 0.0 < chgEff <= 1.0 && 0.0 < disEff <= 1.0
    ensures req < 0.0 ==> InternalPowerOf(req, maxChg, maxDis, chgEff, disEff) <= BatteryPower(req, maxChg, maxDis) <= 0.0
    ensures req >= 0.0 ==> 0.0 <= InternalPowerOf(req, maxChg, maxDis, chgEff, disEff) <= BatteryPower(req, maxChg, maxDis)
  {
    var p := BatteryPower(req, maxChg, maxDis);
    PowerIsClamp(req, maxChg, maxDis);
    var internal := InternalPowerOf(req, maxChg, maxDis, chgEff, disEff);
    if req < 0.0 {
      assert internal == p / disEff;
      DividedAtMost(p, disEff);
    } else {
      assert internal == p * chgEff;
      ScaledAtMost(p, chgEff);
    }
  }

  /** Scaling a non-negative power by an efficiency in (0, 1] keeps it
      between zero and itself. */
  lemma ScaledAtMost(p: real, e: real)
    requires p >= 0.0 && 0.0 < e <= 1.0
    ensures 0.0 <= p * e <= p
  {
  }

  /** Dividing a non-positive power by an efficiency in (0, 1] does not
      raise it. */
  lemma DividedAtMost(p: real, e: real)
    requires p <= 0.0 && 0.0 < e <= 1.0
    ensures p / e <= p
  {
    var q := p / e;
    assert q * e == p;
    if p < 0.0 {
      assert q < 0.0;
      assert q * (1.0 - e) <= 0.0;
    }
  }

  class SimpleBattery {
    var name: string
    var initCharge: real
    var maxCharge: real
    var maxChargePower: real
    var maxDischargePower: real
    var chargeEfficiency: real
    var dischargeEfficiency: real
    var charge: real
    var requestedPower: real
    /** The names of the components this one `dependsOn`. */
    var dependencies: seq<string>

    function State(): BatteryState
      reads this
    {
      BatteryState(initCharge, maxCharge, maxChargePower, maxDischargePower,
                   chargeEfficiency, dischargeEfficiency, charge, requestedPower)
    }

    /** Every parameter and the charge start at zero except the maximum
        charge, which the constructor leaves uninitialised. */
    constructor(name': string)
      ensures name == name' && dependencies == []
      ensures initCharge == 0.0 && maxChargePower == 0.0 && maxDischargePower == 0.0
      ensures chargeEfficiency == 0.0 && dischargeEfficiency == 0.0
      ensures charge == 0.0 && requestedPower == 0.0
    {
      name := name';
      dependencies := [];
      initCharge := 0.0;
      maxChargePower := 0.0;
      maxDischargePower := 0.0;
      chargeEfficiency := 0.0;
      dischargeEfficiency := 0.0;
      charge := 0.0;
      requestedPower := 0.0;
    }

    method SetInitCharge(val: real)
      modifies this
      ensures State() == old(State()).(initCharge := val)
      ensures name == old(name) && dependencies == old(dependencies)
    {
      initCharge := val;
    }

    method SetMaxCharge(val: real)
      modifies this
      ensures State() == old(State()).(maxCharge := val)
      ensures name == old(name) && dependencies == old(dependencies)
    {
      maxCharge := val;
    }

    method SetMaxChargePower(val: real)
      modifies this
      ensures State() == old(State()).(maxChargePower := val)
      ensures name == old(name) && dependencies == old(dependencies)
    {
      maxChargePower := val;
    }

    method SetMaxDischargePower(val: real)
      modifies this
      ensures State() == old(State()).(maxDischargePower := val)
      ensures name == old(name) && dependencies == old(dependencies)
    {
      maxDischargePower := val;
    }

    method SetChargeEfficiency(val: real)
      modifies this
      ensures State() == old(State()).(chargeEfficiency := val)
      ensures name == old(name) && dependencies == old(dependencies)
    {
      chargeEfficiency := val;
    }

    method SetDischargeEfficiency(val: real)
      modifies this
      ensures State() == old(State()).(dischargeEfficiency := val)
      ensures name == old(name) && dependencies == old(dependencies)
    {
      dischargeEfficiency := val;
    }

    method SetRequestedPower(val: real)
      modifies this
      ensures State() == old(State()).(requestedPower := val)
      ensures name == old(name) && dependencies == old(dependencies)
    {
      requestedPower := val;
    }

    function Power(): real
      reads this
    {
      BatteryPower(requestedPower, maxChargePower, maxDischargePower)
    }

    /** `internalPower()`: with non-negative limits and efficiencies in
        (0, 1], the store loses at least the delivered power when
        discharging and gains at most the drawn power when charging. */
    function InternalPower(): (r: real)
      reads this
      requires requestedPower < 0.0 ==> dischargeEfficiency != 0.0
      ensures maxChargePower >= 0.0 && maxDischargePower >= 0.0 &&
              0.0 < chargeEfficiency <= 1.0 && 0.0 < dischargeEfficiency <= 1.0 ==>
                (requestedPower < 0.0 ==> r <= Power() <= 0.0) && (requestedPower >= 0.0 ==> 0.0 <= r <= Power())
    {
      if maxChargePower >= 0.0 && maxDischargePower >= 0.0 &&
         0.0 < chargeEfficiency <= 1.0 && 0.0 < dischargeEfficiency <= 1.0
      then
        InternalPowerLosses(requestedPower, maxChargePower, maxDischargePower, chargeEfficiency, dischargeEfficiency);
        InternalPowerOf(requestedPower, maxChargePower, maxDischargePower, chargeEfficiency, dischargeEfficiency)
      else
        InternalPowerOf(requestedPower, maxChargePower, maxDischargePower, chargeEfficiency, dischargeEfficiency)
    }

    /** `initializeState`: the charge starts at the initial charge. */
    method InitializeState()
      modifies this
      ensures State() == old(State()).(charge := old(initCharge))
      ensures name == old(name) && dependencies == old(dependencies)
    {
      charge := initCharge;
    }

    /** `dependsOn`: this component now depends on the named one. */
    method DependsOn(other: string)
      modifies this
      ensures dependencies == old(dependencies) + [other]
      ensures State() == old(State()) && name == old(name)
    {
      dependencies := dependencies + [other];
    }
  }

  // ---------------------------------------------------------- controller

  /** The battery request of `updateState` for a net bus power P: outside
      the band [minP, maxP] the battery is asked to bring P to the band's
      midpoint; inside it, nothing. */
  function BattRequest(p: real, minP: real, maxP: real): (r: real)
    ensures (p < minP || p > maxP) ==> p + r == 0.5 * (maxP + minP)
    ensures minP <= p <= maxP ==> r == 0.0
  {
    if p < minP then 0.5 * (maxP + minP) - p
    else if p > maxP then 0.5 * (maxP + minP) - p
    else 0.0
  }

  /** With a proper band, the power after the battery's response lies in
      the band, and the battery is asked for nothing exactly when P is
      already inside it. */
  lemma {:induction false} DeadBand(p: real, minP: real, maxP: real)
    requires minP <= maxP
    ensures minP <= p + BattRequest(p, minP, maxP) <= maxP
    ensures BattRequest(p, minP, maxP) == 0.0 <==> minP <= p <= maxP
  {
    var r := BattRequest(p, minP, maxP);
    if p < minP || p > maxP {
      assert p + r == 0.5 * (maxP + minP);
      assert r != 0.0;
    }
  }

  /** The action a component adds to another's `didUpdate` so that it is
      updated after it. */
  function TriggerAction(target: string): string
  {
    "trigger " + target + " needsUpdate()"
  }

  class MicrogridController {
    var name: string
    var minP: real
    var maxP: real
    /** The buses by id, None until set. */
    var buildBus: Option<string>
    var pvBus: Option<string>
    var batt: SimpleBattery?
    /** The names of the components this one `dependsOn`. */
    var dependencies: seq<string>
    /** The descriptions of the actions on this component's `didUpdate`. */
    var didUpdate: seq<string>

    constructor(name': string)
      ensures name == name' && buildBus == None && pvBus == None && batt == null
      ensures dependencies == [] && didUpdate == []
    {
      name := name';
      buildBus := None;
      pvBus := None;
      batt := null;
      dependencies := [];
      didUpdate := [];
    }

    method SetMinP(val: real)
      modifies this
      ensures minP == val && maxP == old(maxP) && name == old(name)
      ensures buildBus == old(buildBus) && pvBus == old(pvBus) && batt == old(batt)
      ensures dependencies == old(dependencies) && didUpdate == old(didUpdate)
    {
      minP := val;
    }

    method SetMaxP(val: real)
      modifies this
      ensures maxP == val && minP == old(minP) && name == old(name)
      ensures buildBus == old(buildBus) && pvBus == old(pvBus) && batt == old(batt)
      ensures dependencies == old(dependencies) && didUpdate == old(didUpdate)
    {
      maxP := val;
    }

    /** `setBuildBus`: the controller depends on the bus; the returned
        action, added to the bus's `didUpdate`, marks the controller for
        update. */
    method SetBuildBus(bus: string) returns (busAction: string)
      modifies this
      ensures buildBus == Some(bus) && dependencies == old(dependencies) + [bus]
      ensures busAction == TriggerAction(name)
      ensures name == old(name) && minP == old(minP) && maxP == old(maxP)
      ensures pvBus == old(pvBus) && batt == old(batt) && didUpdate == old(didUpdate)
    {
      buildBus := Some(bus);
      dependencies := dependencies + [bus];
      busAction := TriggerAction(name);
    }

    /** `setPvBus`: as for the building bus. */
    method SetPvBus(bus: string) returns (busAction: string)
      modifies this
      ensures pvBus == Some(bus) && dependencies == old(dependencies) + [bus]
      ensures busAction == TriggerAction(name)
      ensures name == old(name) && minP == old(minP) && maxP == old(maxP)
      ensures buildBus == old(buildBus) && batt == old(batt) && didUpdate == old(didUpdate)
    {
      pvBus := Some(bus);
      dependencies := dependencies + [bus];
      busAction := TriggerAction(name);
    }

    /** `setBatt`: the battery depends on the controller (not the other
        way round), and the controller's `didUpdate` marks the battery for
        update. */
    method SetBatt(b: SimpleBattery)
      modifies this, b
      ensures batt == b && b.dependencies == old(b.dependencies) + [name]
      ensures didUpdate == old(didUpdate) + [TriggerAction(b.name)]
      ensures dependencies == old(dependencies)
      ensures b.State() == old(b.State()) && b.name == old(b.name)
      ensures name == old(name) && minP == old(minP) && maxP == old(maxP)
      ensures buildBus == old(buildBus) && pvBus == old(pvBus)
    {
      batt := b;
      b.DependsOn(name);
      didUpdate := didUpdate + [TriggerAction(b.name)];
    }

    /** `updateState`: P is the real part of the two buses' constant
        power; the battery's request is set by the dead-band rule and
        nothing else of the battery changes. */
    method UpdateState(buildSc: Complex, pvSc: Complex)
      requires batt != null
      modifies batt
      ensures batt.State() == old(batt.State()).(requestedPower := BattRequest(buildSc.re + pvSc.re, minP, maxP))
      ensures batt.name == old(batt.name) && batt.dependencies == old(batt.dependencies)
    {
      var p := CAdd(buildSc, pvSc).re;
      batt.SetRequestedPower(BattRequest(p, minP, maxP));
    }
  }

  // -------------------------------------------------------------- parser

  /** The fields the controller's parser asserts, in order. */
  const RequiredFields: seq<string> := ["name", "building_bus", "pv_bus", "battery", "min_P", "max_P"]

  /** The first required field, from the k-th on, that is missing. */
  function FirstMissing(nd: YNode, k: nat): (r: Option<string>)
    requires k <= |RequiredFields|
    decreases |RequiredFields| - k
    ensures r.None? <==> forall j :: k <= j < |RequiredFields| ==> AssertFieldPresent(nd, RequiredFields[j]).Ok?
    ensures r.Some? ==> r.value in RequiredFields[k..] && AssertFieldPresent(nd, r.value).Err?
  {
    if k == |RequiredFields| then None
    else if AssertFieldPresent(nd, RequiredFields[k]).Err? then Some(RequiredFields[k])
    else FirstMissing(nd, k + 1)
  }

  /** What `parse` creates: a controller of that name with its band. */
  datatype ControllerPlan = ControllerPlan(name: string, minP: real, maxP: real)

  /** `MicrogridControllerParser::parse`: every required field present
      (fatal otherwise, on the first missing one), the name expanded, the
      band read as numbers. */
  function Parse(nd: YNode, loops: seq<Loop>, toReal: string -> Option<real>): (r: Result<ControllerPlan>)
    ensures FirstMissing(nd, 0).Some? ==> r == Err("Parsing: " + FirstMissing(nd, 0).value + " field not present.")
    ensures r.Ok? ==> forall j :: 0 <= j < |RequiredFields| ==> AssertFieldPresent(nd, RequiredFields[j]).Ok?
    ensures r.Ok? ==> TP.Text(Field(nd, "name")).Some?
                      && ExpandAsWritten(TP.Text(Field(nd, "name")).value, loops) == Ok(r.value.name)
                      && As(toReal, Field(nd, "min_P")) == Some(r.value.minP)
                      && As(toReal, Field(nd, "max_P")) == Some(r.value.maxP)
  {
    match FirstMissing(nd, 0)
    case Some(f) => Err("Parsing: " + f + " field not present.")
    case None =>
      if TP.Text(Field(nd, "name")).None? then Err("Bad conversion")
      else match ExpandAsWritten(TP.Text(Field(nd, "name")).value, loops)
        case Err(e) => Err(e)
        case Ok(name) =>
          if As(toReal, Field(nd, "min_P")).None? || As(toReal, Field(nd, "max_P")).None? then Err("Bad conversion")
          else Ok(ControllerPlan(name, As(toReal, Field(nd, "min_P")).value, As(toReal, Field(nd, "max_P")).value))
  }

  /** A loaded node is accepted only if it is a map with an entry for
      every required field. */
  lemma {:induction false} ParseNeedsFields(nd: YNode, loops: seq<Loop>, toReal: string -> Option<real>)
    requires Loaded(nd)
    requires Parse(nd, loops, toReal).Ok?
    ensures nd.YMap?
    ensures forall j :: 0 <= j < |RequiredFields| ==>
              exists e :: 0 <= e < |nd.entries| && nd.entries[e].0 == RequiredFields[j]
  {
    forall j | 0 <= j < |RequiredFields|
      ensures nd.YMap? && exists e :: 0 <= e < |nd.entries| && nd.entries[e].0 == RequiredFields[j]
    {
      FieldPresence(nd, RequiredFields[j]);
    }
  }

  /** A name field as read and expanded by `postParse`. */
  function ExpandField(nd: YNode, loops: seq<Loop>, field: string): (r: Result<string>)
    ensures r.Ok? <==> TP.Text(Field(nd, field)).Some? && ExpandAsWritten(TP.Text(Field(nd, field)).value, loops).Ok?
    ensures r.Ok? ==> ExpandAsWritten(TP.Text(Field(nd, field)).value, loops) == r
  {
    if TP.Text(Field(nd, field)).None? then Err("Bad conversion")
    else ExpandAsWritten(TP.Text(Field(nd, field)).value, loops)
  }

  /** The component names `postParse` wires up: the controller's own, then
      the building bus, the PV bus and the battery, each expanded; the
      first that fails is the error. Looking them up in the model is not
      modelled. */
  function PostParseNames(nd: YNode, loops: seq<Loop>): (r: Result<seq<string>>)
    ensures r.Ok? <==> ExpandField(nd, loops, "name").Ok? && ExpandField(nd, loops, "building_bus").Ok?
                       && ExpandField(nd, loops, "pv_bus").Ok? && ExpandField(nd, loops, "battery").Ok?
    ensures r.Ok? ==> r.value == [ExpandField(nd, loops, "name").value, ExpandField(nd, loops, "building_bus").value,
                                  ExpandField(nd, loops, "pv_bus").value, ExpandField(nd, loops, "battery").value]
  {
    match ExpandField(nd, loops, "name")
    case Err(e) => Err(e)
    case Ok(contr) =>
      match ExpandField(nd, loops, "building_bus")
      case Err(e) => Err(e)
      case Ok(buildBus) =>
        match ExpandField(nd, loops, "pv_bus")
        case Err(e) => Err(e)
        case Ok(pvBus) =>
          match ExpandField(nd, loops, "battery")
          case Err(e) => Err(e)
          case Ok(batt) => Ok([contr, buildBus, pvBus, batt])
  }
}
