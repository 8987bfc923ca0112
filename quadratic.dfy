// The sparse quadratic polynomial of PowerTools++, src/Quadratic.cpp: a
// constant, linear coefficients by variable index (`_coefs`, with the
// variables in `_lin_vars`), quadratic coefficients (`_qmatrix`) and the
// Hessian link sets (`_hess`). The source's row-by-row matrix is a map
// from index pairs (i, j), i <= j, whose empty rows are simply absent.
// Under the invariant the source keeps, the link set of i is exactly the
// set of j with a stored coefficient at (i, j), so the model keeps the
// matrix and the set of variables that have a link set (`_hess`'s keys).
// The variable pointers of `_lin_vars` and `_quad_vars` are kept as their
// indices. Operators built on `Function` are not part of this model.

module PtQuadratic {
  import opened Shared

  // ---------------------------------------------------------------- sums

  /** Some key of a nonempty set: the one a sum takes first. */
  ghost function Pick<K>(ks: set<K>): (k: K)
    requires ks != {}
    ensures k in ks
  {
    var k :| k in ks; k
  }

  /** The sum of f over a finite set of keys, in no particular order. */
  ghost function SumKeys<K>(ks: set<K>, f: K -> real): real
    decreases ks
  {
    if ks == {} then 0.0 else f(Pick(ks)) + SumKeys(ks - {Pick(ks)}, f)
  }

  /** The sum does not depend on which key is taken first. */
  lemma {:induction false} SumKeysRemove<K>(ks: set<K>, f: K -> real, k: K)
    requires k in ks
    decreases ks
    ensures SumKeys(ks, f) == f(k) + SumKeys(ks - {k}, f)
  {
    var j := Pick(ks);
    if j != k {
      SumKeysRemove(ks - {j}, f, k);
      SumKeysRemove(ks - {k}, f, j);
      assert ks - {j} - {k} == ks - {k} - {j};
    }
  }

  /** The sum of a pointwise sum is the sum of the sums. */
  lemma {:induction false} SumKeysAdd<K>(ks: set<K>, f: K -> real, g: K -> real, h: K -> real)
    requires forall k :: k in ks ==> h(k) == f(k) + g(k)
    decreases ks
    ensures SumKeys(ks, h) == SumKeys(ks, f) + SumKeys(ks, g)
  {
    if ks != {} {
      var k := Pick(ks);
      SumKeysAdd(ks - {k}, f, g, h);
    }
  }

  /** Scaling every term scales the sum. */
  lemma {:induction false} SumKeysScale<K>(ks: set<K>, f: K -> real, g: K -> real, c: real)
    requires forall k {:trigger g(k)} :: k in ks ==> g(k) == c * f(k)
    decreases ks
    ensures SumKeys(ks, g) == c * SumKeys(ks, f)
  {
    if ks != {} {
      var k := Pick(ks);
      SumKeysScale(ks - {k}, f, g, c);
      ScaleStep(c, SumKeys(ks, f), f(k), SumKeys(ks - {k}, f), SumKeys(ks, g), g(k), SumKeys(ks - {k}, g));
    } else {
      MulCases(c, SumKeys(ks, f));
    }
  }

  lemma ScaleStep(c: real, s: real, fk: real, r: real, t: real, gk: real, rg: real)
    requires s == fk + r && t == gk + rg && gk == c * fk && rg == c * r
    ensures t == c * s
  {
  }

  /** Keys whose term is zero do not change the sum. */
  lemma {:induction false} SumKeysExtend<K>(small: set<K>, big: set<K>, f: K -> real, g: K -> real)
    requires small <= big
    requires forall k :: k in small ==> f(k) == g(k)
    requires forall k :: k in big && k !in small ==> g(k) == 0.0
    decreases big
    ensures SumKeys(big, g) == SumKeys(small, f)
  {
    if big != {} {
      var k :| k in big;
      SumKeysRemove(big, g, k);
      if k in small {
        SumKeysRemove(small, f, k);
        SumKeysExtend(small - {k}, big - {k}, f, g);
      } else {
        SumKeysExtend(small, big - {k}, f, g);
      }
    } else {
      assert small == {};
    }
  }

  // --------------------------------------------------------- coefficients

  /** A coefficient of a sparse map: 0 where nothing is stored. */
  function Coef<K>(m: map<K, real>, k: K): real
  {
    if k in m then m[k] else 0.0
  }

  /** Adding d to the coefficient of k, erasing it if the sum is 0 (as
      `add` and the loops of `+=` do). */
  function Step<K(!new)>(m: map<K, real>, k: K, d: real): (r: map<K, real>)
    ensures Coef(r, k) == Coef(m, k) + d
    ensures k in r <==> Coef(m, k) + d != 0.0
    ensures forall j :: j != k ==> (j in r <==> j in m) && Coef(r, j) == Coef(m, j)
  {
    if Coef(m, k) + d == 0.0 then m - {k} else m[k := Coef(m, k) + d]
  }

  /** b added into a on the keys of b in `done`: the state of the loop of
      `+=` once it has handled those keys. */
  function MergeOn<K(!new)>(a: map<K, real>, b: map<K, real>, done: set<K>): (r: map<K, real>)
    ensures forall k :: k in done && k in b ==> Coef(r, k) == Coef(a, k) + b[k] && (k in r <==> Coef(a, k) + b[k] != 0.0)
    ensures forall k :: !(k in done && k in b) ==> Coef(r, k) == Coef(a, k) && (k in r <==> k in a)
  {
    map k | k in a.Keys + (b.Keys * done) && (k in b && k in done ==> Coef(a, k) + b[k] != 0.0)
      :: if k in b && k in done then Coef(a, k) + b[k] else a[k]
  }

  /** Handling one more key of b is one `Step`. */
  lemma MergeOnStep<K(!new)>(a: map<K, real>, b: map<K, real>, done: set<K>, k: K)
    requires k in b && k !in done
    ensures MergeOn(a, b, done + {k}) == Step(MergeOn(a, b, done), k, b[k])
  {
    var l := MergeOn(a, b, done + {k});
    var r := Step(MergeOn(a, b, done), k, b[k]);
    assert forall j :: j in l <==> j in r;
    assert forall j :: j in l ==> l[j] == Coef(l, j) == Coef(r, j) == r[j];
  }

  /** The sum a + b of two sparse maps, as `+=` leaves it: a's entries
      untouched by b are kept, and a sum of 0 is erased. */
  function Merge<K(!new)>(a: map<K, real>, b: map<K, real>): map<K, real>
  {
    MergeOn(a, b, b.Keys)
  }

  /** m with the keys in `done` scaled by c: the state of the loops of
      `*=`. */
  function ScaleOn<K(!new)>(m: map<K, real>, c: real, done: set<K>): (r: map<K, real>)
    ensures r.Keys == m.Keys
    ensures forall k :: k in m ==> r[k] == if k in done then m[k] * c else m[k]
  {
    map k | k in m :: if k in done then m[k] * c else m[k]
  }

  lemma ScaleOnStep<K(!new)>(m: map<K, real>, c: real, done: set<K>, k: K)
    requires k in m && k !in done
    ensures ScaleOn(m, c, done + {k}) == ScaleOn(m, c, done)[k := m[k] * c]
  {
  }

  // ---------------------------------------------------------- polynomial

  /** The ordered pair under which the coefficient of x_i x_j is kept. */
  function Pair(i: int, j: int): (int, int)
  {
    if i <= j then (i, j) else (j, i)
  }

  /** The state of a Quadratic: `_coefs`, `_lin_vars`, `_quad_vars`,
      `_qmatrix`, the keys of `_hess`, and `_cst`. */
  datatype Poly = Poly(coefs: map<int, real>, linVars: set<int>, quadVars: set<int>,
                       qmatrix: map<(int, int), real>, hessKeys: set<int>, cst: real)

  /** The zero polynomial, which the default constructor and
      `reset_coeffs` give. */
  const ZeroPoly: Poly := Poly(map[], {}, {}, map[], {}, 0.0)

  /** The variables of the stored quadratic terms. */
  function Ends(m: map<(int, int), real>): set<int>
  {
    (set e | e in m :: e.0) + (set e | e in m :: e.1)
  }

  /** What the operators keep: the linear variables are those with a
      coefficient, no stored coefficient is 0, the matrix holds its upper
      triangle only, and every variable of a quadratic term has a link
      set. (A quadratic variable need not have one: `+=` copies q's
      quadratic variables but only the link sets of q's terms.) */
  predicate Valid(p: Poly)
  {
    p.linVars == p.coefs.Keys
    && (forall k :: k in p.coefs ==> p.coefs[k] != 0.0)
    && (forall e :: e in p.qmatrix ==> e.0 <= e.1 && p.qmatrix[e] != 0.0)
    && Ends(p.qmatrix) <= p.hessKeys
  }

  /** `is_constant`, `is_linear`, `is_quadratic`. */
  predicate IsConstant(p: Poly) { |p.coefs| == 0 && |p.qmatrix| == 0 }
  predicate IsLinear(p: Poly) { |p.qmatrix| == 0 }
  predicate IsQuadratic(p: Poly) { |p.qmatrix| != 0 }

  /** `has_var` and `has_q_var`. */
  predicate HasVar(p: Poly, v: int) { v in p.quadVars || v in p.linVars }
  predicate HasQVar(p: Poly, v: int) { v in p.hessKeys }

  /** `get_coeff`: 0 for a variable without a coefficient; in a valid
      polynomial, nonzero exactly for the linear variables. */
  function GetCoeff(p: Poly, v: int): real
  {
    Coef(p.coefs, v)
  }

  lemma CoeffNonzero(p: Poly, v: int)
    requires Valid(p)
    ensures GetCoeff(p, v) != 0.0 <==> v in p.linVars
  {
  }

  /** `get_q_coeff`: 0 unless both variables have link sets; else the
      coefficient stored under the ordered pair. */
  function GetQCoeff(p: Poly, a: int, b: int): real
  {
    if !HasQVar(p, a) || !HasQVar(p, b) then 0.0 else Coef(p.qmatrix, Pair(a, b))
  }

  /** `get_q_coeff` is symmetric, and in a valid polynomial it is the
      stored coefficient (the link-set check never hides one). */
  lemma QCoeffSymmetric(p: Poly, a: int, b: int)
    ensures GetQCoeff(p, a, b) == GetQCoeff(p, b, a)
    ensures Valid(p) ==> GetQCoeff(p, a, b) == Coef(p.qmatrix, Pair(a, b))
    ensures Valid(p) && GetQCoeff(p, a, b) != 0.0 ==> HasQVar(p, a) && HasQVar(p, b)
  {
    if Valid(p) && Pair(a, b) in p.qmatrix {
      var e := Pair(a, b);
      assert e.0 in Ends(p.qmatrix) && e.1 in Ends(p.qmatrix);
    }
  }

  /** The weight of x_k, and of x_i x_j, in the value at x. */
  function LinW(x: seq<real>): int -> real
  {
    k => if 0 <= k < |x| then x[k] else 0.0
  }

  function QuadW(x: seq<real>): ((int, int)) -> real
  {
    (e: (int, int)) => if 0 <= e.0 < |x| && 0 <= e.1 < |x| then x[e.0] * x[e.1] else 0.0
  }

  /** The terms of a coefficient map under the weights w. */
  function Weighted<K>(m: map<K, real>, w: K -> real): K -> real
  {
    k => Coef(m, k) * w(k)
  }

  /** The sum of the terms of a coefficient map. */
  ghost function Total<K>(m: map<K, real>, w: K -> real): real
  {
    SumKeys(m.Keys, Weighted(m, w))
  }

  /** The value at x: the linear terms, the quadratic terms and the
      constant. */
  ghost function EvalOf(p: Poly, x: seq<real>): real
  {
    Total(p.coefs, LinW(x)) + Total(p.qmatrix, QuadW(x)) + p.cst
  }

  /** The total of a sum of coefficient maps is the sum of the totals. */
  lemma {:induction false} TotalMerge<K(!new)>(a: map<K, real>, b: map<K, real>, w: K -> real)
    ensures Total(Merge(a, b), w) == Total(a, w) + Total(b, w)
  {
    var m := Merge(a, b);
    var u := a.Keys + b.Keys;
    forall k | k in u
      ensures Weighted(m, w)(k) == Weighted(a, w)(k) + Weighted(b, w)(k)
    {
      assert Coef(m, k) == Coef(a, k) + Coef(b, k);
      assert (Coef(a, k) + Coef(b, k)) * w(k) == Coef(a, k) * w(k) + Coef(b, k) * w(k);
    }
    SumKeysExtend(m.Keys, u, Weighted(m, w), Weighted(m, w));
    SumKeysAdd(u, Weighted(a, w), Weighted(b, w), Weighted(m, w));
    SumKeysExtend(a.Keys, u, Weighted(a, w), Weighted(a, w));
    SumKeysExtend(b.Keys, u, Weighted(b, w), Weighted(b, w));
  }

  /** The total of a single term. */
  lemma TotalSingle<K>(k: K, d: real, w: K -> real)
    ensures Total(map[k := d], w) == d * w(k)
  {
    var f := Weighted(map[k := d], w);
    SumKeysRemove({k}, f, k);
    assert {k} - {k} == {};
    assert SumKeys({k}, f) == f(k);
    assert map[k := d].Keys == {k};
  }

  /** Adding to one coefficient is merging a single term. */
  lemma StepIsMerge<K(!new)>(m: map<K, real>, k: K, d: real)
    ensures Step(m, k, d) == Merge(m, map[k := d])
  {
    MergeOnStep(m, map[k := d], {}, k);
    assert MergeOn(m, map[k := d], {}) == m;
    assert {} + {k} == map[k := d].Keys;
  }

  lemma ScaleTerm(a: real, c: real, t: real)
    ensures (a * c) * t == c * (a * t)
  {
  }

  /** Scaling every coefficient scales the total. */
  lemma TotalScale<K(!new)>(m: map<K, real>, c: real, w: K -> real)
    ensures Total(ScaleOn(m, c, m.Keys), w) == c * Total(m, w)
  {
    var s := ScaleOn(m, c, m.Keys);
    var ks := m.Keys;
    var f := Weighted(m, w);
    var g := Weighted(s, w);
    forall k | k in ks
      ensures g(k) == c * f(k)
    {
      ScaleTerm(m[k], c, w(k));
    }
    SumKeysScale(ks, f, g, c);
    assert s.Keys == ks;
    assert Total(s, w) == SumKeys(ks, g);
    MulCongr(c, Total(m, w), SumKeys(ks, f));
  }

  lemma MulCongr(c: real, a: real, b: real)
    requires a == b
    ensures c * a == c * b
  {
  }

  /** Every variable of a term has a value in x. */
  predicate Indexed(p: Poly, n: nat)
  {
    (forall k :: k in p.coefs ==> 0 <= k < n)
    && (forall e :: e in p.qmatrix ==> 0 <= e.0 < n && 0 <= e.1 < n)
  }

  /** The zero polynomial is valid, constant and 0 everywhere. */
  lemma ZeroPolyValue(x: seq<real>)
    ensures Valid(ZeroPoly) && IsConstant(ZeroPoly)
    ensures EvalOf(ZeroPoly, x) == 0.0
  {
  }

  // ----------------------------------------------------------- modifiers

  /** `add(cst, v)`: the coefficient of v grows by c; a new variable is
      recorded as linear, and a coefficient that becomes 0 is erased with
      its variable. */
  function AddCoef(p: Poly, v: int, c: real): Poly
  {
    var lin := if v in p.coefs then p.linVars else p.linVars + {v};
    p.(coefs := Step(p.coefs, v, c), linVars := if Coef(p.coefs, v) + c == 0.0 then lin - {v} else lin)
  }

  /** Adding to one coefficient keeps the polynomial valid and changes
      that coefficient by c and no other ... */
  lemma AddCoefSpec(p: Poly, v: int, c: real)
    requires Valid(p)
    ensures Valid(AddCoef(p, v, c))
    ensures GetCoeff(AddCoef(p, v, c), v) == GetCoeff(p, v) + c
    ensures forall w :: w != v ==> GetCoeff(AddCoef(p, v, c), w) == GetCoeff(p, w)
  {
    forall w | w != v
      ensures GetCoeff(AddCoef(p, v, c), w) == GetCoeff(p, w)
    {
      assert Coef(Step(p.coefs, v, c), w) == Coef(p.coefs, w);
    }
  }

  /** ... and changes the value by c x_v. */
  lemma AddCoefEval(p: Poly, v: int, c: real, x: seq<real>)
    requires 0 <= v < |x|
    ensures EvalOf(AddCoef(p, v, c), x) == EvalOf(p, x) + c * x[v]
  {
    var w := LinW(x);
    StepTotal(p.coefs, v, c, w);
    Shift(EvalOf(AddCoef(p, v, c), x), EvalOf(p, x), Total(Step(p.coefs, v, c), w), Total(p.coefs, w), c * w(v),
          Total(p.qmatrix, QuadW(x)) + p.cst);
    MulCongr(c, w(v), x[v]);
  }

  /** Adding d to one coefficient adds d times its weight to the total. */
  lemma StepTotal<K(!new)>(m: map<K, real>, k: K, d: real, w: K -> real)
    ensures Total(Step(m, k, d), w) == Total(m, w) + d * w(k)
  {
    TotalSingle(k, d, w);
    StepIsMerge(m, k, d);
    TotalMerge(m, map[k := d], w);
  }

  lemma Shift(e1: real, e0: real, t1: real, t0: real, d: real, r: real)
    requires e1 == t1 + r && e0 == t0 + r && t1 == t0 + d
    ensures e1 == e0 + d
  {
  }

  /** `*=` by a constant: nothing to do for the zero polynomial; by 0 the
      polynomial is reset; by 1 nothing changes; else every coefficient
      and the constant are scaled. */
  function ScaledOf(p: Poly, c: real): Poly
  {
    if IsConstant(p) && p.cst == 0.0 then p
    else if c == 0.0 then ZeroPoly
    else if c == 1.0 then p
    else ScaledAll(p, c)
  }

  /** Every coefficient and the constant times c. */
  function ScaledAll(p: Poly, c: real): Poly
  {
    Poly(ScaleOn(p.coefs, c, p.coefs.Keys), p.linVars, p.quadVars, ScaleOn(p.qmatrix, c, p.qmatrix.Keys), p.hessKeys, p.cst * c)
  }

  lemma NonzeroProduct(a: real, c: real)
    requires a != 0.0 && c != 0.0
    ensures a * c != 0.0
  {
  }

  lemma MulComm(a: real, c: real)
    ensures a * c == c * a
  {
  }

  /** Scaling keeps the polynomial valid. */
  lemma ScaledValid(p: Poly, c: real)
    requires Valid(p)
    ensures Valid(ScaledOf(p, c))
  {
    if !(IsConstant(p) && p.cst == 0.0) && c != 0.0 && c != 1.0 {
      ScaledAllValid(p, c);
    }
  }

  lemma {:induction false} ScaledAllValid(p: Poly, c: real)
    requires Valid(p) && c != 0.0
    ensures Valid(ScaledAll(p, c))
  {
    var s := ScaledAll(p, c);
    assert forall k :: k in s.coefs ==> s.coefs[k] != 0.0 by {
      forall k | k in s.coefs
        ensures s.coefs[k] != 0.0
      {
        NonzeroProduct(p.coefs[k], c);
      }
    }
    assert forall e :: e in s.qmatrix ==> e.0 <= e.1 && s.qmatrix[e] != 0.0 by {
      forall e | e in s.qmatrix
        ensures e.0 <= e.1 && s.qmatrix[e] != 0.0
      {
        NonzeroProduct(p.qmatrix[e], c);
      }
    }
    assert Ends(s.qmatrix) == Ends(p.qmatrix) by {
      assert s.qmatrix.Keys == p.qmatrix.Keys;
    }
  }

  /** Scaling scales every coefficient. */
  lemma {:induction false} ScaledCoeffs(p: Poly, c: real)
    requires Valid(p)
    ensures forall v :: GetCoeff(ScaledOf(p, c), v) == c * GetCoeff(p, v)
  {
    forall v
      ensures GetCoeff(ScaledOf(p, c), v) == c * GetCoeff(p, v)
    {
      var g := GetCoeff(p, v);
      MulCases(c, g);
      if IsConstant(p) && p.cst == 0.0 {
        assert v !in p.coefs;
      } else if c != 0.0 && c != 1.0 {
        if v in p.coefs {
          MulComm(p.coefs[v], c);
        }
      }
    }
  }

  lemma MulCases(c: real, e: real)
    ensures c == 0.0 || e == 0.0 ==> c * e == 0.0
    ensures c == 1.0 ==> c * e == e
  {
  }

  lemma Distrib3(c: real, e: real, a: real, b: real, d: real)
    requires e == a + b + d
    ensures c * e == c * a + c * b + d * c
  {
  }

  /** Scaling scales the value. */
  lemma {:induction false} ScaledEval(p: Poly, c: real, x: seq<real>)
    ensures EvalOf(ScaledOf(p, c), x) == c * EvalOf(p, x)
  {
    MulCases(c, EvalOf(p, x));
    if IsConstant(p) && p.cst == 0.0 {
      assert p.coefs.Keys == {} && p.qmatrix.Keys == {};
      assert EvalOf(p, x) == 0.0;
    } else if c == 0.0 {
      assert EvalOf(ZeroPoly, x) == 0.0;
    } else if c != 1.0 {
      ScaledAllEval(p, c, x);
    }
  }

  lemma {:induction false} ScaledAllEval(p: Poly, c: real, x: seq<real>)
    ensures EvalOf(ScaledAll(p, c), x) == c * EvalOf(p, x)
  {
    TotalScale(p.coefs, c, LinW(x));
    TotalScale(p.qmatrix, c, QuadW(x));
    Distrib3(c, EvalOf(p, x), Total(p.coefs, LinW(x)), Total(p.qmatrix, QuadW(x)), p.cst);
  }

  /** The variables whose linear coefficient `+=` cancels. */
  function Cancelled(a: map<int, real>, b: map<int, real>): set<int>
  {
    set k | k in b && Coef(a, k) + b[k] == 0.0
  }

  /** `+=` of a Quadratic: the variables merged, the coefficients added
      (a sum of 0 erased), the constants added; every variable of q's
      quadratic terms gets a link set. */
  function PlusOf(a: Poly, b: Poly): Poly
  {
    Poly(Merge(a.coefs, b.coefs), (a.linVars + b.linVars) - Cancelled(a.coefs, b.coefs),
         a.quadVars + b.quadVars, Merge(a.qmatrix, b.qmatrix), a.hessKeys + Ends(b.qmatrix), a.cst + b.cst)
  }

  /** Adding a valid polynomial to a valid one gives a valid
      polynomial. */
  lemma {:induction false} PlusValid(a: Poly, b: Poly)
    requires Valid(a) && Valid(b)
    ensures Valid(PlusOf(a, b))
  {
    var s := PlusOf(a, b);
    forall k
      ensures k in s.linVars <==> k in s.coefs
    {
    }
    forall e | e in s.qmatrix
      ensures e.0 <= e.1 && s.qmatrix[e] != 0.0
    {
    }
    EndsMerge(a.qmatrix, b.qmatrix);
  }

  /** The terms of a sum are terms of either side. */
  lemma EndsMerge(a: map<(int, int), real>, b: map<(int, int), real>)
    ensures Ends(Merge(a, b)) <= Ends(a) + Ends(b)
  {
    forall y | y in Ends(Merge(a, b))
      ensures y in Ends(a) + Ends(b)
    {
      var e :| e in Merge(a, b) && (e.0 == y || e.1 == y);
      if e in b {
        assert e.0 in Ends(b) && e.1 in Ends(b);
      } else {
        assert e.0 in Ends(a) && e.1 in Ends(a);
      }
    }
  }

  /** The coefficients of a sum of valid polynomials are the sums of
      theirs. */
  lemma {:induction false} PlusCoeffs(a: Poly, b: Poly)
    requires Valid(a) && Valid(b)
    ensures forall v :: GetCoeff(PlusOf(a, b), v) == GetCoeff(a, v) + GetCoeff(b, v)
    ensures forall i, j :: GetQCoeff(PlusOf(a, b), i, j) == GetQCoeff(a, i, j) + GetQCoeff(b, i, j)
  {
    var s := PlusOf(a, b);
    PlusValid(a, b);
    forall i, j
      ensures GetQCoeff(s, i, j) == GetQCoeff(a, i, j) + GetQCoeff(b, i, j)
    {
      QCoeffSymmetric(a, i, j);
      QCoeffSymmetric(b, i, j);
      QCoeffSymmetric(s, i, j);
    }
  }

  /** `+=` adds values: the sum polynomial evaluates to the sum. */
  lemma {:induction false} PlusEval(a: Poly, b: Poly, x: seq<real>)
    ensures EvalOf(PlusOf(a, b), x) == EvalOf(a, x) + EvalOf(b, x)
  {
    TotalMerge(a.coefs, b.coefs, LinW(x));
    TotalMerge(a.qmatrix, b.qmatrix, QuadW(x));
  }

  /** The copy constructor (`*this += q` from zero) reproduces q's terms
      and constant. */
  lemma CopySpec(q: Poly)
    requires Valid(q)
    ensures PlusOf(ZeroPoly, q).coefs == q.coefs && PlusOf(ZeroPoly, q).linVars == q.linVars
    ensures PlusOf(ZeroPoly, q).qmatrix == q.qmatrix && PlusOf(ZeroPoly, q).cst == q.cst
    ensures PlusOf(ZeroPoly, q).quadVars == q.quadVars
  {
    var s := PlusOf(ZeroPoly, q);
    assert forall k :: k in s.coefs <==> k in q.coefs;
    assert forall e :: e in s.qmatrix <==> e in q.qmatrix;
  }

  /** The partners of i in stored quadratic terms: its link set. */
  function Links(p: Poly, i: int): set<int>
  {
    set j | j in Ends(p.qmatrix) && Pair(i, j) in p.qmatrix
  }

  /** The term of each linked variable in `eval_dfdx`. */
  function DerivF(p: Poly, v: int, x: seq<real>): int -> real
  {
    j => if 0 <= v < |x| && 0 <= j < |x| then
           (if j == v then 2.0 * GetQCoeff(p, v, j) * x[v] else GetQCoeff(p, v, j) * x[j])
         else 0.0
  }

  /** `eval_dfdx`: the linear coefficient, plus for each linked variable
      its coefficient times its value (twice the square's coefficient
      times x_v for v itself). */
  ghost function DfDxOf(p: Poly, v: int, x: seq<real>): real
  {
    GetCoeff(p, v) + (if !HasQVar(p, v) then 0.0 else SumKeys(Links(p, v), DerivF(p, v, x)))
  }

  /** A variable in no quadratic term has its linear coefficient as its
      derivative. */
  lemma LinearDerivative(p: Poly, v: int, x: seq<real>)
    requires Valid(p)
    requires forall e :: e in p.qmatrix ==> e.0 != v && e.1 != v
    ensures DfDxOf(p, v, x) == GetCoeff(p, v)
  {
    forall j
      ensures Pair(v, j) !in p.qmatrix
    {
      assert Pair(v, j).0 == v || Pair(v, j).1 == v;
    }
    assert Links(p, v) == {};
  }

  /** What `operator==` compares: the constants, the sizes of the
      variable and link maps, and every coefficient of either side
      against the other. */
  predicate EqualsSpec(a: Poly, b: Poly)
  {
    a.cst == b.cst && |a.linVars| == |b.linVars| && |a.quadVars| == |b.quadVars| && |a.hessKeys| == |b.hessKeys|
    && (forall k :: k in a.coefs ==> HasVar(b, k) && GetCoeff(b, k) == a.coefs[k])
    && (forall k :: k in b.coefs ==> HasVar(a, k) && GetCoeff(a, k) == b.coefs[k])
    && (forall e :: e in a.qmatrix ==> GetQCoeff(b, e.0, e.1) == a.qmatrix[e])
    && (forall e :: e in b.qmatrix ==> GetQCoeff(a, e.0, e.1) == b.qmatrix[e])
  }

  /** Two valid polynomials that compare equal have the same terms and
      constant, hence the same value everywhere; every polynomial equals
      itself. */
  lemma {:induction false} EqualsSpecSound(a: Poly, b: Poly, x: seq<real>)
    requires Valid(a) && Valid(b) && EqualsSpec(a, b)
    ensures a.coefs == b.coefs && a.qmatrix == b.qmatrix && a.cst == b.cst
    ensures EvalOf(a, x) == EvalOf(b, x)
  {
    forall k | k in b.coefs
      ensures k in a.coefs
    {
      assert GetCoeff(a, k) != 0.0;
    }
    forall k | k in a.coefs
      ensures k in b.coefs && b.coefs[k] == a.coefs[k]
    {
      assert GetCoeff(b, k) != 0.0;
    }
    assert a.coefs == b.coefs;
    forall e | e in a.qmatrix
      ensures e in b.qmatrix && b.qmatrix[e] == a.qmatrix[e]
    {
      QCoeffSymmetric(b, e.0, e.1);
      assert Pair(e.0, e.1) == e;
    }
    forall e | e in b.qmatrix
      ensures e in a.qmatrix
    {
      QCoeffSymmetric(a, e.0, e.1);
      assert Pair(e.0, e.1) == e;
    }
    assert a.qmatrix == b.qmatrix;
  }

  lemma EqualsReflexive(a: Poly)
    requires Valid(a)
    ensures EqualsSpec(a, a)
  {
    forall e | e in a.qmatrix
      ensures GetQCoeff(a, e.0, e.1) == a.qmatrix[e]
    {
      QCoeffSymmetric(a, e.0, e.1);
      assert Pair(e.0, e.1) == e;
    }
  }

  // ---------------------------------------------------------------- loops

  /** One more key scaled by a loop of `*=`, whose coefficient is still
      the original one. */
  lemma ScaleAllStep<K(!new)>(m0: map<K, real>, c: real, ks: set<K>, k: K)
    requires k in ks && ks <= m0.Keys
    ensures k in ScaleOn(m0, c, m0.Keys - ks) && ScaleOn(m0, c, m0.Keys - ks)[k] == m0[k]
    ensures ScaleOn(m0, c, m0.Keys - (ks - {k})) == ScaleOn(m0, c, m0.Keys - ks)[k := m0[k] * c]
  {
    ScaleOnStep(m0, c, m0.Keys - ks, k);
    assert m0.Keys - ks + {k} == m0.Keys - (ks - {k});
  }

  /** The summing loop of `eval` and `eval_dfdx`: f added up over ks. */
  method SumOver<K>(ks0: set<K>, f: K -> real) returns (t: real)
    ensures t == SumKeys(ks0, f)
  {
    t := 0.0;
    var ks := ks0;
    while ks != {}
      invariant ks <= ks0
      invariant t + SumKeys(ks, f) == SumKeys(ks0, f)
      decreases ks
    {
      var k :| k in ks;
      SumKeysRemove(ks, f, k);
      t := t + f(k);
      ks := ks - {k};
    }
  }

  /** A loop of `*=`: every coefficient of m0 times c. */
  method ScaleAll<K(!new)>(m0: map<K, real>, c: real) returns (m: map<K, real>)
    ensures m == ScaleOn(m0, c, m0.Keys)
  {
    m := m0;
    var ks := m0.Keys;
    while ks != {}
      invariant ks <= m0.Keys
      invariant m == ScaleOn(m0, c, m0.Keys - ks)
      decreases ks
    {
      var k :| k in ks;
      ScaleAllStep(m0, c, ks, k);
      var v := m[k] * c;
      assert v == m0[k] * c;
      m := m[k := v];
      ks := ks - {k};
    }
  }

  /** A loop of `merge_vars` over q's variables: each is inserted. */
  method InsertAll<K>(s0: set<K>, add: set<K>) returns (s: set<K>)
    ensures s == s0 + add
  {
    s := s0;
    var ks := add;
    while ks != {}
      invariant ks <= add
      invariant s == s0 + (add - ks)
      decreases ks
    {
      var k :| k in ks;
      s := s + {k};
      ks := ks - {k};
    }
  }

  /** The loop of `merge_vars` over q's link sets: both variables of each
      stored term get a link set. */
  method LinkAll(hk0: set<int>, m: map<(int, int), real>) returns (hk: set<int>)
    ensures hk == hk0 + Ends(m)
  {
    hk := hk0;
    var es := m.Keys;
    while es != {}
      invariant es <= m.Keys
      invariant hk == hk0 + Ends(m - es)
      decreases es
    {
      var e :| e in es;
      hk := hk + {e.0, e.1};
      assert Ends(m - (es - {e})) == Ends(m - es) + {e.0, e.1};
      es := es - {e};
    }
    assert m - es == m;
  }

  /** One more key of b handled by a loop of `+=`: one `Step` from the
      state before, where the coefficient of that key is still a's. */
  lemma MergeStep<K(!new)>(a: map<K, real>, b: map<K, real>, ks: set<K>, k: K)
    requires k in ks && ks <= b.Keys
    ensures MergeOn(a, b, b.Keys - (ks - {k})) == Step(MergeOn(a, b, b.Keys - ks), k, b[k])
    ensures Coef(MergeOn(a, b, b.Keys - ks), k) == Coef(a, k)
  {
    MergeOnStep(a, b, b.Keys - ks, k);
    assert b.Keys - ks + {k} == b.Keys - (ks - {k});
  }

  /** The cancelled variables among the handled keys grow by k exactly
      when k's sum is 0. */
  lemma CancelledStep(a: map<int, real>, b: map<int, real>, ks: set<int>, k: int)
    requires k in ks && ks <= b.Keys
    ensures Cancelled(a, b) - (ks - {k}) == (Cancelled(a, b) - ks) + (if Coef(a, k) + b[k] == 0.0 then {k} else {})
  {
  }

  /** The loop of `+=` over q's linear coefficients: each is added in, a
      sum of 0 erasing the coefficient and the linear variable. */
  method MergeLinear(a: map<int, real>, b: map<int, real>, lv0: set<int>) returns (cs: map<int, real>, lv: set<int>)
    ensures cs == Merge(a, b) && lv == lv0 - Cancelled(a, b)
  {
    cs, lv := a, lv0;
    var ks := b.Keys;
    while ks != {}
      invariant ks <= b.Keys
      invariant cs == MergeOn(a, b, b.Keys - ks)
      invariant lv == lv0 - (Cancelled(a, b) - ks)
      decreases ks
    {
      HasElement(ks);
      var k :| k in ks;
      MergeStep(a, b, ks, k);
      CancelledStep(a, b, ks, k);
      var sum := Coef(cs, k) + b[k];
      assert sum == Coef(a, k) + b[k];
      ghost var prev := cs;
      if sum == 0.0 {
        cs := cs - {k};
        lv := lv - {k};
      } else {
        cs := cs[k := sum];
      }
      assert cs == Step(prev, k, b[k]);
      ks := ks - {k};
    }
    assert b.Keys - ks == b.Keys;
  }

  /** The loop of `+=` over q's quadratic coefficients: each is added in,
      a sum of 0 erasing the term; `update_q_vars` then runs on its ends,
      which keep their link sets (`merge_vars` gave them one), so the
      quadratic variables stay as they are. */
  method MergeQuadratic(a: map<(int, int), real>, b: map<(int, int), real>, qv0: set<int>, hk: set<int>)
    returns (qm: map<(int, int), real>, qv: set<int>)
    requires Ends(b) <= hk
    ensures qm == Merge(a, b) && qv == qv0
  {
    qm, qv := a, qv0;
    var es := b.Keys;
    while es != {}
      invariant es <= b.Keys
      invariant qm == MergeOn(a, b, b.Keys - es)
      invariant qv == qv0
      decreases es
    {
      var e :| e in es;
      MergeStep(a, b, es, e);
      assert e.0 in Ends(b) && e.1 in Ends(b);
      var sum := Coef(qm, e) + b[e];
      assert sum == Coef(a, e) + b[e];
      ghost var prev := qm;
      if sum != 0.0 {
        qm := qm[e := sum];
      } else {
        qm := qm - {e};
        if !exists f :: f in qm && f.0 == e.0 {
          if e.0 !in hk { qv := qv - {e.0}; }
          if e.1 !in hk { qv := qv - {e.1}; }
        }
      }
      assert qm == Step(prev, e, b[e]);
      es := es - {e};
    }
    assert b.Keys - es == b.Keys;
  }

  /** One more quadratic variable counted by `get_nb_vars`: the union
      grows by one unless it is also linear. */
  lemma CountStep(lv: set<int>, qv: set<int>, ks: set<int>, k: int)
    requires k in ks && ks <= qv
    ensures |lv + (qv - (ks - {k}))| == |lv + (qv - ks)| + (if k in lv then 0 else 1)
  {
    if k in lv {
      assert lv + (qv - (ks - {k})) == lv + (qv - ks);
    } else {
      assert lv + (qv - (ks - {k})) == (lv + (qv - ks)) + {k};
    }
  }

  // ---------------------------------------------------------------- class

  class Quadratic {
    var coefs: map<int, real>
    var linVars: set<int>
    var quadVars: set<int>
    var qmatrix: map<(int, int), real>
    var hessKeys: set<int>
    var cst: real

    function State(): Poly
      reads this
    {
      Poly(coefs, linVars, quadVars, qmatrix, hessKeys, cst)
    }

    /** The zero polynomial. */
    constructor()
      ensures State() == ZeroPoly
    {
      coefs, linVars, quadVars, qmatrix, hessKeys, cst := map[], {}, {}, map[], {}, 0.0;
    }

    /** A constant. */
    constructor Const(c: real)
      ensures State() == ZeroPoly.(cst := c)
    {
      coefs, linVars, quadVars, qmatrix, hessKeys, cst := map[], {}, {}, map[], {}, c;
    }

    /** The polynomial of one variable: `+= v` on zero. */
    constructor OfVar(v: int)
      ensures State() == AddCoef(ZeroPoly, v, 1.0)
    {
      coefs, linVars, quadVars, qmatrix, hessKeys, cst := map[], {}, {}, map[], {}, 0.0;
      new;
      Add(1.0, v);
    }

    /** `add(cst, v)`. */
    method Add(c: real, v: int)
      modifies this
      ensures State() == AddCoef(old(State()), v, c)
    {
      if v !in coefs {
        coefs := coefs[v := c];
        linVars := linVars + {v};
      } else {
        coefs := coefs[v := coefs[v] + c];
      }
      if coefs[v] == 0.0 {
        coefs := coefs - {v};
        linVars := linVars - {v};
      }
    }

    /** `+= v` and `-= v`: add with 1 and -1. */
    method PlusVar(v: int)
      modifies this
      ensures State() == AddCoef(old(State()), v, 1.0)
    {
      Add(1.0, v);
    }

    method MinusVar(v: int)
      modifies this
      ensures State() == AddCoef(old(State()), v, -1.0)
    {
      Add(-1.0, v);
    }

    /** `+=` and `-=` a constant. */
    method PlusConst(c: real)
      modifies this
      ensures State() == old(State()).(cst := old(cst) + c)
    {
      cst := cst + c;
    }

    method MinusConst(c: real)
      modifies this
      ensures State() == old(State()).(cst := old(cst) - c)
    {
      cst := cst - c;
    }

    /** `reset_coeffs`. */
    method ResetCoeffs()
      modifies this
      ensures State() == ZeroPoly
    {
      coefs, linVars, quadVars, qmatrix, hessKeys, cst := map[], {}, {}, map[], {}, 0.0;
    }

    /** `*=` a constant. */
    method Scale(c: real)
      modifies this
      ensures State() == ScaledOf(old(State()), c)
    {
      if |coefs| == 0 && |qmatrix| == 0 && cst == 0.0 {
        return;
      }
      if c == 0.0 {
        ResetCoeffs();
        return;
      }
      if c == 1.0 {
        return;
      }
      var m := ScaleAll(coefs, c);
      var mq := ScaleAll(qmatrix, c);
      coefs, qmatrix, cst := m, mq, cst * c;
    }

    /** `merge_vars`: q's linear and quadratic variables join these, and
        each variable of q's quadratic terms gets a link set. */
    method MergeVars(q: Quadratic)
      requires q != this
      modifies this
      ensures State() == old(State()).(linVars := old(linVars) + q.linVars, quadVars := old(quadVars) + q.quadVars,
                                       hessKeys := old(hessKeys) + Ends(q.qmatrix))
    {
      var lv := InsertAll(linVars, q.linVars);
      var qv := InsertAll(quadVars, q.quadVars);
      var hk := LinkAll(hessKeys, q.qmatrix);
      linVars, quadVars, hessKeys := lv, qv, hk;
    }

    /** `+=` a Quadratic. */
    method PlusQuadratic(q: Quadratic)
      requires q != this
      modifies this
      ensures State() == PlusOf(old(State()), q.State())
    {
      MergeVars(q);
      var cs, lv := MergeLinear(coefs, q.coefs, linVars);
      var qm, qv := MergeQuadratic(qmatrix, q.qmatrix, quadVars, hessKeys);
      coefs, linVars, qmatrix, quadVars, cst := cs, lv, qm, qv, cst + q.cst;
    }

    /** `update_q_vars`: a variable without a link set is no longer a
        quadratic variable. */
    method UpdateQVars(v: int)
      modifies this
      ensures State() == old(State()).(quadVars := if v in hessKeys then old(quadVars) else old(quadVars) - {v})
    {
      if v !in hessKeys {
        quadVars := quadVars - {v};
      }
    }

    /** `eval(x)`: the linear terms, then the quadratic terms, then the
        constant. */
    method Eval(x: seq<real>) returns (res: real)
      requires Indexed(State(), |x|)
      ensures res == EvalOf(State(), x)
    {
      var lin := SumOver(coefs.Keys, Weighted(coefs, LinW(x)));
      var quad := SumOver(qmatrix.Keys, Weighted(qmatrix, QuadW(x)));
      res := lin + quad + cst;
    }

    /** `eval_dfdx(v, x)`. */
    method EvalDfDx(v: int, x: seq<real>) returns (res: real)
      requires 0 <= v < |x| && Indexed(State(), |x|)
      ensures res == DfDxOf(State(), v, x)
    {
      var p := State();
      res := GetCoeff(p, v);
      if v !in hessKeys {
        return;
      }
      var acc := SumOver(Links(p, v), DerivF(p, v, x));
      res := res + acc;
    }

    /** `get_nb_vars`: the linear variables, plus the quadratic ones that
        are not also linear. */
    method GetNbVars() returns (n: nat)
      ensures n == |linVars + quadVars|
    {
      var lv, qv := linVars, quadVars;
      n := |lv|;
      var ks := qv;
      while ks != {}
        invariant ks <= qv
        invariant n == |lv + (qv - ks)|
        decreases ks
      {
        HasElement(ks);
        var k :| k in ks;
        CountStep(lv, qv, ks, k);
        if k !in lv {
          n := n + 1;
        }
        ks := ks - {k};
      }
      assert qv - ks == qv;
    }

    /** `operator==`. */
    method Equals(q: Quadratic) returns (r: bool)
      ensures r <==> EqualsSpec(State(), q.State())
    {
      var a := State();
      var b := q.State();
      if cst != q.cst || |linVars| != |q.linVars| || |quadVars| != |q.quadVars| || |hessKeys| != |q.hessKeys| {
        return false;
      }
      var ks := coefs.Keys;
      while ks != {}
        invariant ks <= coefs.Keys
        invariant forall k :: k in coefs && k !in ks ==> HasVar(b, k) && GetCoeff(b, k) == coefs[k]
        decreases ks
      {
        HasElement(ks);
        var k :| k in ks;
        if !HasVar(b, k) || GetCoeff(b, k) != coefs[k] {
          return false;
        }
        ks := ks - {k};
      }
      ks := q.coefs.Keys;
      while ks != {}
        invariant ks <= q.coefs.Keys
        invariant forall k :: k in q.coefs && k !in ks ==> HasVar(a, k) && GetCoeff(a, k) == q.coefs[k]
        decreases ks
      {
        HasElement(ks);
        var k :| k in ks;
        if !HasVar(a, k) || GetCoeff(a, k) != q.coefs[k] {
          return false;
        }
        ks := ks - {k};
      }
      var es := qmatrix.Keys;
      while es != {}
        invariant es <= qmatrix.Keys
        invariant forall e :: e in qmatrix && e !in es ==> GetQCoeff(b, e.0, e.1) == qmatrix[e]
        decreases es
      {
        var e :| e in es;
        if GetQCoeff(b, e.0, e.1) != qmatrix[e] {
          return false;
        }
        es := es - {e};
      }
      es := q.qmatrix.Keys;
      while es != {}
        invariant es <= q.qmatrix.Keys
        invariant forall e :: e in q.qmatrix && e !in es ==> GetQCoeff(a, e.0, e.1) == q.qmatrix[e]
        decreases es
      {
        var e :| e in es;
        if GetQCoeff(a, e.0, e.1) != q.qmatrix[e] {
          return false;
        }
        es := es - {e};
      }
      return true;
    }
  }
}
