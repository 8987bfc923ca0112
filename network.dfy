// The network container of SgtCore/Network.h: its attributes, its
// id-to-component lookups and the per-unit conversions.

module Network {
  import opened Shared

  /** A shared pointer to a component, seen only through its identity. */
  type Handle = nat

  datatype Network = Network(
    id: string,
    pBase: real,
    nomFreq: real,
    freq: real,
    busMap: map<string, Handle>,
    branchMap: map<string, Handle>,
    genMap: map<string, Handle>,
    zipMap: map<string, Handle>,
    referenceBus: Option<Handle>,
    isValidSolution: bool)

  /** A freshly constructed network: the given base power (1 by default),
      nominal and actual frequency 50, no components, no reference bus and
      no valid solution. */
  function NewNetwork(id: string, pBase: real := 1.0): (n: Network)
    ensures n.id == id && n.pBase == pBase
    ensures n.nomFreq == 50.0 && n.freq == 50.0
    ensures n.busMap == map[] && n.branchMap == map[] && n.genMap == map[] && n.zipMap == map[]
    ensures n.referenceBus.None? && !n.isValidSolution
  {
    Network(id, pBase, 50.0, 50.0, map[], map[], map[], map[], None, false)
  }

  /** `map::find`: the component stored under id, or a null pointer when
      there is none. */
  function Find(m: map<string, Handle>, id: string): (r: Option<Handle>)
    ensures r.None? <==> id !in m
    ensures r.Some? ==> r.value == m[id]
  {
    if id in m then Some(m[id]) else None
  }

  function Bus(n: Network, id: string): Option<Handle> { Find(n.busMap, id) }
  function Branch(n: Network, id: string): Option<Handle> { Find(n.branchMap, id) }
  function Gen(n: Network, id: string): Option<Handle> { Find(n.genMap, id) }
  function Zip(n: Network, id: string): Option<Handle> { Find(n.zipMap, id) }

  /** setReferenceBus: the reference bus becomes the lookup of id, so an
      unknown id leaves the network without a reference bus. */
  function SetReferenceBus(n: Network, id: string): (r: Network)
    ensures r.referenceBus.Some? <==> id in n.busMap
    ensures id in n.busMap ==> r.referenceBus == Some(n.busMap[id])
    ensures r.(referenceBus := n.referenceBus) == n
  {
    n.(referenceBus := Bus(n, id))
  }

  /** Every lookup answers null exactly for the ids that were never stored. */
  lemma LookupsNullIffAbsent(n: Network, id: string)
    ensures Bus(n, id).None? <==> id !in n.busMap
    ensures Branch(n, id).None? <==> id !in n.branchMap
    ensures Gen(n, id).None? <==> id !in n.genMap
    ensures Zip(n, id).None? <==> id !in n.zipMap
  {
  }

  // Per-unit conversions. The source templates them over the value type;
  // complex values cover the real ones (imaginary part zero).

  function Div(z: Complex, k: real): Complex
    requires k != 0.0
  {
    Complex(z.re / k, z.im / k)
  }

  function Mul(z: Complex, k: real): Complex { Complex(z.re * k, z.im * k) }

  function V2Pu(v: Complex, vBase: real): (r: Complex)
    requires vBase != 0.0
    ensures Mul(r, vBase) == v
  {
    Div(v, vBase)
  }

  function Pu2V(pu: Complex, vBase: real): (r: Complex)
    ensures vBase != 0.0 ==> Div(r, vBase) == pu
  {
    Mul(pu, vBase)
  }

  function S2Pu(n: Network, s: Complex): (r: Complex)
    requires n.pBase != 0.0
    ensures Mul(r, n.pBase) == s
  {
    Div(s, n.pBase)
  }

  function Pu2S(n: Network, pu: Complex): (r: Complex)
    ensures n.pBase != 0.0 ==> Div(r, n.pBase) == pu
  {
    Mul(pu, n.pBase)
  }

  function Y2Pu(n: Network, y: Complex, vBase: real): (r: Complex)
    requires n.pBase != 0.0
  {
    Div(Mul(Mul(y, vBase), vBase), n.pBase)
  }

  function Pu2Y(n: Network, pu: Complex, vBase: real): (r: Complex)
    requires vBase != 0.0
  {
    Div(Div(Mul(pu, n.pBase), vBase), vBase)
  }

  function Z2Pu(n: Network, z: Complex, vBase: real): (r: Complex)
    requires vBase != 0.0
  {
    Div(Div(Mul(z, n.pBase), vBase), vBase)
  }

  function Pu2Z(n: Network, pu: Complex, vBase: real): (r: Complex)
    requires n.pBase != 0.0
  {
    Div(Mul(Mul(pu, vBase), vBase), n.pBase)
  }

  function I2Pu(n: Network, i: Complex, vBase: real): (r: Complex)
    requires n.pBase != 0.0
  {
    Div(Mul(i, vBase), n.pBase)
  }

  function Pu2I(n: Network, pu: Complex, vBase: real): (r: Complex)
    requires vBase != 0.0
  {
    Div(Mul(pu, n.pBase), vBase)
  }

  /** Scaling by k and dividing by k cancel. */
  lemma MulDivCancel(z: Complex, k: real)
    requires k != 0.0
    ensures Div(Mul(z, k), k) == z && Mul(Div(z, k), k) == z
  {
  }

  /** Scaling twice is scaling by the product. */
  lemma MulMul(z: Complex, a: real, b: real)
    ensures Mul(Mul(z, a), b) == Mul(z, a * b)
  {
  }

  lemma DivIsMul(z: Complex, k: real)
    requires k != 0.0
    ensures Div(z, k) == Mul(z, 1.0 / k)
  {
  }

  /** With nonzero bases, converting to per-unit and back is the identity
      for voltages, powers, admittances, impedances and currents, in both
      orders. */
  lemma {:induction false} PerUnitRoundTrips(n: Network, x: Complex, vBase: real)
    requires n.pBase != 0.0 && vBase != 0.0
    ensures Pu2V(V2Pu(x, vBase), vBase) == x && V2Pu(Pu2V(x, vBase), vBase) == x
    ensures Pu2S(n, S2Pu(n, x)) == x && S2Pu(n, Pu2S(n, x)) == x
    ensures Pu2Y(n, Y2Pu(n, x, vBase), vBase) == x && Y2Pu(n, Pu2Y(n, x, vBase), vBase) == x
    ensures Pu2Z(n, Z2Pu(n, x, vBase), vBase) == x && Z2Pu(n, Pu2Z(n, x, vBase), vBase) == x
    ensures Pu2I(n, I2Pu(n, x, vBase), vBase) == x && I2Pu(n, Pu2I(n, x, vBase), vBase) == x
  {
    var p, b := n.pBase, vBase;
    MulDivCancel(x, b);
    MulDivCancel(x, p);
    // Scaling by b twice and dividing by p, against its reverse.
    MulDivCancel(Mul(Mul(x, b), b), p);
    MulDivCancel(Mul(x, b), b);
    MulDivCancel(Div(Mul(x, p), b), b);
    MulDivCancel(Mul(x, p), b);
    MulDivCancel(Mul(x, p), p);
    // Scaling by b once and dividing by p, against its reverse.
    MulDivCancel(Mul(x, b), p);
  }

  lemma Y2PuIsScaling(n: Network, y: Complex, vBase: real)
    requires n.pBase != 0.0
    ensures Y2Pu(n, y, vBase) == Mul(y, vBase * vBase * (1.0 / n.pBase))
  {
    MulMul(y, vBase, vBase);
    DivIsMul(Mul(y, vBase * vBase), n.pBase);
    MulMul(y, vBase * vBase, 1.0 / n.pBase);
  }

  lemma Z2PuIsScaling(n: Network, z: Complex, vBase: real)
    requires vBase != 0.0
    ensures Z2Pu(n, z, vBase) == Mul(z, n.pBase * (1.0 / vBase) * (1.0 / vBase))
  {
    DivIsMul(Mul(z, n.pBase), vBase);
    MulMul(z, n.pBase, 1.0 / vBase);
    DivIsMul(Mul(z, n.pBase * (1.0 / vBase)), vBase);
    MulMul(z, n.pBase * (1.0 / vBase), 1.0 / vBase);
  }

  /** The admittance factor b^2/p and the impedance factor p/b^2 are
      reciprocal. */
  lemma FactorsCancel(b: real, p: real)
    requires b != 0.0 && p != 0.0
    ensures (b * b * (1.0 / p)) * (p * (1.0 / b) * (1.0 / b)) == 1.0
  {
    var rb, rp := 1.0 / b, 1.0 / p;
    assert b * rb == 1.0 && p * rp == 1.0;
    assert (b * b * rp) * (p * rb * rb) == (b * rb) * (b * rb) * (p * rp);
  }

  /** A scaled product is the product of the scaled factors. */
  lemma CMulScaled(y: Complex, z: Complex, a: real, b: real)
    ensures CMul(Mul(y, a), Mul(z, b)) == Mul(CMul(y, z), a * b)
  {
    assert (a * y.re) * (b * z.re) - (a * y.im) * (b * z.im) == (a * b) * (y.re * z.re - y.im * z.im);
    assert (a * y.re) * (b * z.im) + (a * y.im) * (b * z.re) == (a * b) * (y.re * z.im + y.im * z.re);
  }

  /** Scaling the factors by reciprocals leaves the product unchanged. */
  lemma ReciprocalScalings(y: Complex, z: Complex, a: real, b: real)
    requires a * b == 1.0
    ensures CMul(Mul(y, a), Mul(z, b)) == CMul(y, z)
  {
    CMulScaled(y, z, a, b);
  }

  /** Scaling one factor by b^2/p and the other by p/b^2 leaves the
      product unchanged. */
  lemma ScaledByBaseFactors(y: Complex, z: Complex, b: real, p: real)
    requires b != 0.0 && p != 0.0
    ensures CMul(Mul(y, b * b * (1.0 / p)), Mul(z, p * (1.0 / b) * (1.0 / b))) == CMul(y, z)
  {
    FactorsCancel(b, p);
    ReciprocalScalings(y, z, b * b * (1.0 / p), p * (1.0 / b) * (1.0 / b));
  }

  /** Admittance and impedance scale inversely, so their per-unit product
      equals their product in physical units. */
  lemma {:induction false} AdmittanceImpedanceProduct(n: Network, y: Complex, z: Complex, vBase: real)
    requires n.pBase != 0.0 && vBase != 0.0
    ensures CMul(Y2Pu(n, y, vBase), Z2Pu(n, z, vBase)) == CMul(y, z)
  {
    Y2PuIsScaling(n, y, vBase);
    Z2PuIsScaling(n, z, vBase);
    ScaledByBaseFactors(y, z, vBase, n.pBase);
  }
}
