// SgtCore/Units.h: physical dimensions as exponent tuples of length, mass,
// time, current and temperature, and quantities that carry a dimension.
// The source does this arithmetic on template parameters at compile time;
// here a dimension is a value. Quantities are in a module of their own.

module Units {

  /** `Dimensions<L, M, T, I, Th>`. */
  datatype Dims = Dims(l: int, m: int, t: int, i: int, th: int)

  const Dimensionless := Dims(0, 0, 0, 0, 0)

  /** `pow<p>()`: every exponent times p. */
  function Pow(d: Dims, p: int): Dims
  {
    Dims(d.l * p, d.m * p, d.t * p, d.i * p, d.th * p)
  }

  /** Product of dimensions: exponents add. */
  function Mul(a: Dims, b: Dims): Dims
  {
    Dims(a.l + b.l, a.m + b.m, a.t + b.t, a.i + b.i, a.th + b.th)
  }

  /** Quotient of dimensions: exponents subtract. */
  function Div(a: Dims, b: Dims): Dims
  {
    Dims(a.l - b.l, a.m - b.m, a.t - b.t, a.i - b.i, a.th - b.th)
  }

  /** Dimensions form a group under `*`: associative, commutative, with the
      dimensionless unit, and `/` undoes `*`. */
  lemma MulGroup(a: Dims, b: Dims, c: Dims)
    ensures Mul(Mul(a, b), c) == Mul(a, Mul(b, c))
    ensures Mul(a, b) == Mul(b, a)
    ensures Mul(a, Dimensionless) == a
    ensures Div(Mul(a, b), b) == a && Mul(Div(a, b), b) == a
    ensures Div(a, a) == Dimensionless
  {
  }

  /** p-fold product of d with itself, for p >= 0. */
  function MulN(d: Dims, p: nat): Dims
  {
    if p == 0 then Dimensionless else Mul(MulN(d, p - 1), d)
  }

  /** `pow<p>` agrees with multiplying the dimension by itself p times. */
  lemma {:induction false} PowIsRepeatedMul(d: Dims, p: nat)
    ensures Pow(d, p) == MulN(d, p)
  {
    if p > 0 {
      PowIsRepeatedMul(d, p - 1);
      assert Pow(d, p) == Mul(Pow(d, p - 1), d);
    }
  }

  // Base dimensions.
  const LDim := Dims(1, 0, 0, 0, 0)
  const MDim := Dims(0, 1, 0, 0, 0)
  const TDim := Dims(0, 0, 1, 0, 0)
  const IDim := Dims(0, 0, 0, 1, 0)
  const ThDim := Dims(0, 0, 0, 0, 1)

  // Derived dimensions, built as in the source.
  /** velocity */
  const VelDim := Div(LDim, TDim)
  /** acceleration: the source divides by `TDim().pow<2>()`, which is
      TDim·TDim (SquareIsPow). */
  const AccDim := Div(LDim, Mul(TDim, TDim))
  /** momentum */
  const MomDim := Mul(MDim, VelDim)
  /** force */
  const ForceDim := Mul(MDim, AccDim)
  /** energy */
  const EDim := Mul(ForceDim, LDim)
  /** power */
  const PDim := Div(EDim, TDim)
  /** charge */
  const QDim := Mul(IDim, TDim)

  /** `VDim` as written: charge divided by length. */
  const VDimAsWritten := Div(QDim, LDim)

  /** Voltage: energy per unit charge. */
  const VDim := Div(EDim, QDim)

  // The derived dimensions have their SI exponents, each proved from the
  // one it is built on.

  /** velocity m·s⁻¹ and momentum kg·m·s⁻¹ */
  lemma VelocityDims()
    ensures VelDim == Dims(1, 0, -1, 0, 0)
    ensures MomDim == Dims(1, 1, -1, 0, 0)
  {
    assert VelDim == Dims(1, 0, -1, 0, 0);
  }

  /** acceleration m·s⁻² */
  lemma AccelerationDims()
    ensures AccDim == Dims(1, 0, -2, 0, 0)
  {
    TimeSquaredDims();
  }

  lemma TimeSquaredDims()
    ensures Mul(TDim, TDim) == Dims(0, 0, 2, 0, 0)
  {
  }

  /** force kg·m·s⁻² */
  lemma ForceDims()
    ensures ForceDim == Dims(1, 1, -2, 0, 0)
  {
    AccelerationDims();
  }

  /** energy kg·m²·s⁻² */
  lemma EnergyDims()
    ensures EDim == Dims(2, 1, -2, 0, 0)
  {
    ForceDims();
  }

  /** power kg·m²·s⁻³ and charge A·s */
  lemma PowerDims()
    ensures PDim == Dims(2, 1, -3, 0, 0)
  {
    EnergyDims();
  }

  lemma ChargeDims()
    ensures QDim == Dims(0, 0, 1, 1, 0)
  {
  }

  /** Voltage, energy per unit charge, is kg·m²·s⁻³·A⁻¹. */
  lemma VoltageDims()
    ensures VDim == Dims(2, 1, -3, -1, 0)
  {
    EnergyDims();
    ChargeDims();
  }

  /** Voltage times current is power. */
  lemma VoltageTimesCurrent()
    ensures Mul(VDim, IDim) == PDim
  {
    VoltageDims();
    PowerDims();
  }

  /** The voltage dimension written in the source has the exponents of
      charge per length. */
  lemma VoltageDimsAsWritten()
    ensures VDimAsWritten == Dims(-1, 0, 1, 1, 0)
  {
    ChargeDims();
  }

  /** Times current, the voltage dimension as written is not power. */
  lemma AsWrittenTimesCurrent()
    ensures Mul(VDimAsWritten, IDim) != PDim
  {
    VoltageDimsAsWritten();
    PowerDims();
  }

  /** `pow<2>` is the square. */
  lemma SquareIsPow(d: Dims)
    ensures Pow(d, 2) == Mul(d, d)
  {
    PowIsRepeatedMul(d, 2);
    assert MulN(d, 1) == d;
  }
}

module Quantities {
  import opened Units

  /** `DimensionalQuantity<D, double>`: a value in standard units with its
      dimension. */
  datatype Quantity = Quantity(dim: Dims, val: real)

  /** `q * val` and `val * q`: the dimension is kept and the value scaled. */
  function Scale(q: Quantity, s: real): (r: Quantity)
    ensures r.dim == q.dim
    ensures r.val == q.val * s
  {
    Quantity(q.dim, q.val * s)
  }

  /** `+` of quantities of one dimension. */
  function Add(a: Quantity, b: Quantity): (r: Quantity)
    requires a.dim == b.dim
    ensures r.dim == a.dim && r.val == a.val + b.val
  {
    Quantity(a.dim, a.val + b.val)
  }

  /** `*` of quantities: the dimensions multiply and the values too. */
  function Times(a: Quantity, b: Quantity): Quantity
  {
    Quantity(Mul(a.dim, b.dim), a.val * b.val)
  }

  /** `/` of quantities: the dimensions divide and the values too. */
  function Over(a: Quantity, b: Quantity): Quantity
    requires b.val != 0.0
  {
    Quantity(Div(a.dim, b.dim), a.val / b.val)
  }

  /** The conversion of a dimensionless quantity to its plain value. */
  function AsValue(q: Quantity): (r: real)
    requires q.dim == Dimensionless
    ensures r == q.val
  {
    q.val
  }

  /** Dividing a product by one factor gives back the other, dimension and
      value; a quantity divided by itself is the dimensionless 1. */
  lemma TimesOverRoundTrip(a: Quantity, b: Quantity)
    requires b.val != 0.0
    ensures Over(Times(a, b), b) == a
    ensures Times(Over(a, b), b) == a
    ensures AsValue(Over(b, b)) == 1.0
  {
    MulGroup(a.dim, b.dim, b.dim);
    assert b.val / b.val == 1.0;
    assert a.val * b.val / b.val == a.val;
    assert a.val / b.val * b.val == a.val;
  }

  /** Scaling commutes with the product: the dimension of a product does
      not depend on where a scalar is applied. */
  lemma ScaleTimes(a: Quantity, b: Quantity, s: real)
    ensures Times(Scale(a, s), b) == Scale(Times(a, b), s) == Times(a, Scale(b, s))
  {
    assert a.val * s * b.val == a.val * b.val * s == a.val * (b.val * s);
  }
}
