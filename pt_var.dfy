// The decision variable of PowerTools++, third_party/PowerTools/src/var.cpp:
// `var<Number>` with its bounds, off-bounds, bound flags and value. The
// template argument is a value of `Number`; the model pointer is the id of
// a model, or None for NULL. A variable's constraints (`_cstrs`) and its
// Hessian links (`_hess`), which `init` clears, are kept by the model
// (module PtModel) rather than by the variable.

module PtVar {
  import opened Shared

  /** The template argument: `bool`, `int`, `float` or `double` (the
      default). */
  datatype Number = BoolNum | IntNum | FloatNum | DoubleNum

  /** The variable's `_type`. */
  datatype VarType = BinaryVar | IntegVar | RealVar | LongRealVar

  /** A bound in the Number type: a finite value or an infinity. */
  datatype Bound = NegInf | Fin(v: real) | PosInf

  function TypeOf(n: Number): VarType
  {
    match n
    case BoolNum => BinaryVar
    case IntNum => IntegVar
    case FloatNum => RealVar
    case DoubleNum => LongRealVar
  }

  /** `numeric_limits<Number>::infinity()`: an infinity for the floating
      types; `int` and `bool` have none, and it is 0 (false). */
  function Infinity(n: Number): (r: Bound)
    ensures r.Fin? <==> n.BoolNum? || n.IntNum?
  {
    match n
    case FloatNum => PosInf
    case DoubleNum => PosInf
    case _ => Fin(0.0)
  }

  function Neg(b: Bound): Bound
  {
    match b
    case NegInf => PosInf
    case PosInf => NegInf
    case Fin(v) => Fin(-v)
  }

  /** `-numeric_limits<Number>::infinity()`. */
  function MinusInfinity(n: Number): Bound
  {
    Neg(Infinity(n))
  }

  /** The bound flags (`_bounded_down`, `_bounded_up`) set from lb and ub.
      As written, the check of ub is in the `else` of the check of lb, so
      a variable unbounded below is always flagged bounded above; as
      intended, each flag is false exactly when its bound is infinite. */
  function BoundFlags(rd: Reading, n: Number, lb: Bound, ub: Bound): (r: (bool, bool))
    ensures r.0 <==> lb != MinusInfinity(n)
    ensures rd == Intended ==> (r.1 <==> ub != Infinity(n))
    ensures rd == AsWritten ==> (r.1 <==> lb == MinusInfinity(n) || ub != Infinity(n))
  {
    if lb == MinusInfinity(n) then (false, rd == AsWritten || ub != Infinity(n))
    else if ub == Infinity(n) then (true, false)
    else (true, true)
  }

  /** The default bounds (-inf, +inf) of a floating variable: as written
      it is flagged bounded above, as intended it is not. */
  lemma DefaultBoundsFlagged()
    ensures BoundFlags(AsWritten, DoubleNum, NegInf, PosInf) == (false, true)
    ensures BoundFlags(Intended, DoubleNum, NegInf, PosInf) == (false, false)
  {
  }

  /** The two readings agree on every variable bounded below. */
  lemma FlagsAgreeBoundedBelow(n: Number, lb: Bound, ub: Bound)
    requires lb != MinusInfinity(n)
    ensures BoundFlags(AsWritten, n, lb, ub) == BoundFlags(Intended, n, lb, ub)
  {
  }

  /** For `int` the infinity is 0, so an integer variable whose lower
      bound is 0 counts as unbounded below. */
  lemma IntegerZeroIsInfinite(rd: Reading)
    ensures !BoundFlags(rd, IntNum, Fin(0.0), Fin(1.0)).0
  {
  }

  /** What a variable holds besides its constraints and Hessian links. */
  datatype VarState = VarState(
    name: string, model: Option<nat>, idx: int, vtype: VarType,
    boundedDown: bool, boundedUp: bool, lb: Bound, ub: Bound, lbOff: Bound, ubOff: Bound,
    val: real)

  /** The state `init(name)` leaves: detached, unbounded (with both flags
      false), off-bounds and value 0, no constraints and no links. */
  function UnboundedState(n: Number, name: string): (s: VarState)
    ensures s.lb == MinusInfinity(n) && s.ub == Infinity(n) && !s.boundedDown && !s.boundedUp
    ensures s.lbOff == Fin(0.0) && s.ubOff == Fin(0.0) && s.val == 0.0
    ensures s.model == None && s.idx == -1 && s.vtype == TypeOf(n)
  {
    VarState(name, None, -1, TypeOf(n), false, false, MinusInfinity(n), Infinity(n), Fin(0.0), Fin(0.0), 0.0)
  }

  /** The state `init(name, lb, ub, lb_off, ub_off)` leaves: `init(name)`
      followed by the bounds and their flags. */
  function BoundedState(rd: Reading, n: Number, name: string, lb: Bound, ub: Bound, lbOff: Bound, ubOff: Bound): (s: VarState)
    ensures s.lb == lb && s.ub == ub && s.lbOff == lbOff && s.ubOff == ubOff
    ensures (s.boundedDown, s.boundedUp) == BoundFlags(rd, n, lb, ub)
    ensures s.name == name && s.model == None && s.idx == -1 && s.val == 0.0
  {
    UnboundedState(n, name).(boundedDown := BoundFlags(rd, n, lb, ub).0, boundedUp := BoundFlags(rd, n, lb, ub).1,
                             lb := lb, ub := ub, lbOff := lbOff, ubOff := ubOff)
  }

  /** Given infinite bounds and zero off-bounds, the bounded `init` agrees
      with `init(name)` as intended; as written a floating variable comes
      out flagged bounded above. */
  lemma {:induction false} InitInfiniteBounds(n: Number, name: string)
    ensures BoundedState(Intended, n, name, MinusInfinity(n), Infinity(n), Fin(0.0), Fin(0.0)) == UnboundedState(n, name)
    ensures (n.FloatNum? || n.DoubleNum?) ==>
              BoundedState(AsWritten, n, name, MinusInfinity(n), Infinity(n), Fin(0.0), Fin(0.0)) != UnboundedState(n, name)
  {
    var flags := BoundFlags(Intended, n, MinusInfinity(n), Infinity(n));
    assert flags == (false, false);
    if (n.FloatNum? || n.DoubleNum?) {
      assert BoundFlags(AsWritten, n, MinusInfinity(n), Infinity(n)).1;
    }
  }

  class Var {
    /** The template argument. */
    const number: Number
    var name: string
    var model: Option<nat>
    var idx: int
    var vtype: VarType
    var boundedDown: bool
    var boundedUp: bool
    var lb: Bound
    var ub: Bound
    var lbOff: Bound
    var ubOff: Bound
    var val: real

    function State(): VarState
      reads this
    {
      VarState(name, model, idx, vtype, boundedDown, boundedUp, lb, ub, lbOff, ubOff, val)
    }

    /** The full constructor: name, model, index, bounds and off-bounds as
        given, the flags from the bounds, value 0. (For `bool` it first
        sets the bounds to false and true, which the given bounds then
        overwrite.) */
    constructor(rd: Reading, n: Number, model': Option<nat>, name': string, idx': int,
                lb': Bound, ub': Bound, lbOff': Bound, ubOff': Bound)
      ensures number == n
      ensures State() == BoundedState(rd, n, name', lb', ub', lbOff', ubOff').(model := model', idx := idx')
    {
      number := n;
      name := name';
      model := model';
      idx := idx';
      vtype := TypeOf(n);
      var flags := BoundFlags(rd, n, lb', ub');
      boundedDown := flags.0;
      boundedUp := flags.1;
      lb := lb';
      ub := ub';
      lbOff := lbOff';
      ubOff := ubOff';
      val := 0.0;
    }

    /** The bounded constructor: the off-bounds are the bounds. */
    constructor Bounded(rd: Reading, n: Number, model': Option<nat>, name': string, idx': int, lb': Bound, ub': Bound)
      ensures number == n
      ensures State() == BoundedState(rd, n, name', lb', ub', lb', ub').(model := model', idx := idx')
    {
      number := n;
      name := name';
      model := model';
      idx := idx';
      vtype := TypeOf(n);
      var flags := BoundFlags(rd, n, lb', ub');
      boundedDown := flags.0;
      boundedUp := flags.1;
      lb := lb';
      ub := ub';
      lbOff := lb';
      ubOff := ub';
      val := 0.0;
    }

    /** The constructors without bounds: (-inf, +inf), which as written
        leaves the variable flagged bounded above. */
    constructor Unbounded(rd: Reading, n: Number, model': Option<nat>, name': string, idx': int)
      ensures number == n
      ensures State() == BoundedState(rd, n, name', MinusInfinity(n), Infinity(n), MinusInfinity(n), Infinity(n))
                           .(model := model', idx := idx')
      ensures rd == AsWritten && (n.FloatNum? || n.DoubleNum?) ==> boundedUp
    {
      number := n;
      name := name';
      model := model';
      idx := idx';
      vtype := TypeOf(n);
      var flags := BoundFlags(rd, n, MinusInfinity(n), Infinity(n));
      boundedDown := flags.0;
      boundedUp := flags.1;
      lb := MinusInfinity(n);
      ub := Infinity(n);
      lbOff := MinusInfinity(n);
      ubOff := Infinity(n);
      val := 0.0;
    }

    /** The constructor with a lower bound only: as written it passes NULL
        on, dropping the model it was given. */
    constructor LowerBounded(rd: Reading, n: Number, model': Option<nat>, name': string, idx': int, lb': Bound)
      ensures number == n
      ensures State() == BoundedState(rd, n, name', lb', Infinity(n), lb', Infinity(n))
                           .(model := if rd == AsWritten then None else model', idx := idx')
    {
      number := n;
      name := name';
      model := if rd == AsWritten then None else model';
      idx := idx';
      vtype := TypeOf(n);
      var flags := BoundFlags(rd, n, lb', Infinity(n));
      boundedDown := flags.0;
      boundedUp := flags.1;
      lb := lb';
      ub := Infinity(n);
      lbOff := lb';
      ubOff := Infinity(n);
      val := 0.0;
    }

    /** `init(name)`: a fresh unbounded variable. */
    method Init(name': string)
      modifies this
      ensures State() == UnboundedState(number, name')
    {
      var s := UnboundedState(number, name');
      name, model, idx, vtype, val := s.name, s.model, s.idx, s.vtype, s.val;
      boundedDown, boundedUp, lb, ub, lbOff, ubOff := s.boundedDown, s.boundedUp, s.lb, s.ub, s.lbOff, s.ubOff;
    }

    /** `init(name, lb, ub, lb_off, ub_off)`. */
    method InitBounds(rd: Reading, name': string, lb': Bound, ub': Bound, lbOff': Bound, ubOff': Bound)
      modifies this
      ensures State() == BoundedState(rd, number, name', lb', ub', lbOff', ubOff')
    {
      Init(name');
      var flags := BoundFlags(rd, number, lb', ub');
      boundedDown := flags.0;
      boundedUp := flags.1;
      lb := lb';
      ub := ub';
      lbOff := lbOff';
      ubOff := ubOff';
    }

    /** `init(name, lb, ub)`: the same with the bounds as off-bounds. */
    method InitRange(rd: Reading, name': string, lb': Bound, ub': Bound)
      modifies this
      ensures State() == BoundedState(rd, number, name', lb', ub', lb', ub')
    {
      InitBounds(rd, name', lb', ub', lb', ub');
    }

    /** `set_lb`: only the lower bound changes; the flags are not
        recomputed. */
    method SetLb(v: Bound)
      modifies this
      ensures State() == old(State()).(lb := v)
    {
      lb := v;
    }

    /** `set_ub`: only the upper bound changes. */
    method SetUb(v: Bound)
      modifies this
      ensures State() == old(State()).(ub := v)
    {
      ub := v;
    }

    /** `set_val` and `operator=`: only the value changes, and
        `get_value` returns it. */
    method SetVal(v: real)
      modifies this
      ensures State() == old(State()).(val := v)
      ensures GetValue() == v
    {
      val := v;
    }

    function GetValue(): real
      reads this
    {
      val
    }
  }
}
