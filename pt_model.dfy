// The optimisation model of PowerTools++, third_party/PowerTools/src/Model.cpp:
// the list of variables (objects of module PtVar, numbered as they are
// added), the list of constraints (copies, numbered as they are added),
// the count of Jacobian nonzeros, and what each variable records about the
// model (`_cstrs`, `_hess`, `_hess_id`), kept here by variable index. The
// sparsity patterns and bounds handed to the solver are written into
// arrays. A constraint is kept as its sense, right-hand side, the set of
// its variables, its Hessian links, and, for the constraints the model
// builds itself (McCormick and on/off), the linear form as written.

module PtModel {
  import opened Shared
  import PtVar
  import Calculator

  // -------------------------------------------------------- partitions

  /** C++ `%` on `int`: what is left of a after the truncated quotient. */
  function CRem(a: int, b: int): int
    requires b != 0
  {
    a - Calculator.CDiv(a, b) * b
  }

  /** `bounds(parts, mem)`: parts + 1 cut points from 0, each chunk
      mem / parts long except the last, which also takes the remainder,
      so the last point is mem. With parts < 0 there is only the 0. */
  method Bounds(parts: int, mem: int) returns (bnd: seq<int>)
    requires parts != 0
    ensures |bnd| == (if parts > 0 then parts else 0) + 1 && bnd[0] == 0
    ensures forall i :: 0 <= i < parts - 1 ==> bnd[i + 1] - bnd[i] == Calculator.CDiv(mem, parts)
    ensures parts > 0 ==> bnd[parts] - bnd[parts - 1] == Calculator.CDiv(mem, parts) + CRem(mem, parts)
    ensures parts > 0 ==> bnd[parts] == mem
  {
    var delta := Calculator.CDiv(mem, parts);
    var rem := CRem(mem, parts);
    if parts < 0 {
      bnd := [0];
    } else {
      bnd := Cuts(parts, delta, rem);
      assert parts * delta + rem == mem;
    }
  }

  /** The cut points of `bounds` for a chunk length delta and a
      remainder rem added to the last chunk. */
  method Cuts(parts: nat, delta: int, rem: int) returns (bnd: seq<int>)
    ensures |bnd| == parts + 1 && bnd[0] == 0
    ensures forall i :: 0 <= i < parts - 1 ==> bnd[i + 1] - bnd[i] == delta
    ensures parts > 0 ==> bnd[parts] - bnd[parts - 1] == delta + rem
    ensures parts > 0 ==> bnd[parts] == parts * delta + rem
  {
    var n1 := 0;
    bnd := [n1];
    var i := 0;
    while i < parts
      invariant i <= parts
      invariant |bnd| == i + 1 && bnd[0] == 0 && bnd[i] == n1
      invariant forall k :: 0 <= k < i && k < parts - 1 ==> bnd[k + 1] - bnd[k] == delta
      invariant i == parts && i > 0 ==> bnd[i] - bnd[i - 1] == delta + rem
      invariant n1 == i * delta + (if i == parts && i > 0 then rem else 0)
    {
      var n2 := n1 + delta;
      if i == parts - 1 {
        n2 := n2 + rem;
      }
      MulStep(i, delta);
      bnd := bnd + [n2];
      n1 := n2;
      i := i + 1;
    }
  }

  /** One more chunk of length d. */
  lemma MulStep(i: int, d: int)
    ensures (i + 1) * d == i * d + d
  {
  }

  /** For a non-negative size and a positive count, every chunk is
      mem / parts long but the last, which is longer by less than parts. */
  lemma BoundsChunks(parts: int, mem: int)
    requires parts > 0 && mem >= 0
    ensures Calculator.CDiv(mem, parts) == mem / parts
    ensures 0 <= CRem(mem, parts) < parts
  {
  }

  // ------------------------------------------------- ascending order

  /** The least element of a nonempty set of indices. */
  ghost function Least(s: set<int>): (m: int)
    requires s != {}
    ensures m in s && forall x :: x in s ==> m <= x
    decreases |s|
  {
    HasElement(s);
    var y :| y in s;
    if s - {y} == {} then
      assert s == {y};
      y
    else
      var m := Least(s - {y});
      assert forall x :: x in s ==> x == y || x in s - {y};
      if y < m then y else m
  }

  /** The elements of a set in increasing order: the order in which a
      `std::set` or the keys of a `std::map` are visited. */
  ghost function Ascending(s: set<int>): (r: seq<int>)
    ensures |r| == |s|
    decreases |s|
  {
    if s == {} then [] else [Least(s)] + Ascending(s - {Least(s)})
  }

  /** The visiting order lists each element of the set once, in strictly
      increasing order. */
  lemma {:induction false} AscendingSpec(s: set<int>)
    ensures forall x :: x in Ascending(s) <==> x in s
    ensures forall i, j :: 0 <= i < j < |Ascending(s)| ==> Ascending(s)[i] < Ascending(s)[j]
    decreases |s|
  {
    if s != {} {
      var m := Least(s);
      var rest := Ascending(s - {m});
      AscendingSpec(s - {m});
      var asc := Ascending(s);
      assert asc == [m] + rest;
      ConsLeast(s, m, rest, asc);
    }
  }

  /** Putting the least element of s in front of the increasing listing
      of the others lists s in increasing order. */
  lemma ConsLeast(s: set<int>, m: int, rest: seq<int>, asc: seq<int>)
    requires asc == [m] + rest && m in s && forall x :: x in s ==> m <= x
    requires forall x :: x in rest <==> x in s - {m}
    requires forall i, j :: 0 <= i < j < |rest| ==> rest[i] < rest[j]
    ensures forall x :: x in asc <==> x in s
    ensures forall i, j :: 0 <= i < j < |asc| ==> asc[i] < asc[j]
  {
    forall i, j | 0 <= i < j < |asc|
      ensures asc[i] < asc[j]
    {
      assert asc[j] == rest[j - 1];
      if i > 0 {
        assert asc[i] == rest[i - 1];
      } else {
        assert rest[j - 1] in rest;
      }
    }
  }

  /** Visit a set in increasing order. */
  method AscendingOf(s: set<int>) returns (r: seq<int>)
    ensures r == Ascending(s)
  {
    r := [];
    var rest := s;
    while rest != {}
      invariant r + Ascending(rest) == Ascending(s)
      decreases |rest|
    {
      HasElement(rest);
      var m :| m in rest && forall x :: x in rest ==> m <= x;
      ghost var least := Least(rest);
      assert m <= least && least <= m;
      assert Ascending(rest) == [m] + Ascending(rest - {m});
      r := r + [m];
      rest := rest - {m};
    }
  }

  // ------------------------------------------------------- constraints

  /** The sense of a constraint: `<=`, `=` or `>=` its right-hand side. */
  datatype ConstraintType = Leq | Eq | Geq

  /** A constraint: name, index, sense, right-hand side, the linear form
      as written (terms and constant), the set of its variables
      (`_vars`'s keys) and its Hessian links (`_hess`). */
  datatype Constraint = Constraint(
    name: string, idx: int, ctype: ConstraintType, rhs: real,
    terms: seq<(int, real)>, cst: real, vars: set<int>, hess: map<int, set<int>>)

  /** A constraint as the `Constraint(name)` constructor and `+=` build
      it: index -1, sense `<=`, right-hand side 0; the sense and right-hand
      side are then set by `<=`, `=` or `>=`. */
  function Linear(name: string, terms: seq<(int, real)>, cst: real, ctype: ConstraintType): (c: Constraint)
    ensures c.idx == -1 && c.rhs == 0.0 && c.ctype == ctype && c.hess == map[]
    ensures c.vars == TermVars(terms)
  {
    Constraint(name, -1, ctype, 0.0, terms, cst, TermVars(terms), map[])
  }

  /** The variables a list of terms mentions. */
  function TermVars(terms: seq<(int, real)>): (vs: set<int>)
    ensures forall k :: 0 <= k < |terms| ==> terms[k].0 in vs
  {
    if terms == [] then {} else TermVars(terms[..|terms| - 1]) + {terms[|terms| - 1].0}
  }

  /** The value of three terms and a constant. */
  lemma Value3(t0: (int, real), t1: (int, real), t2: (int, real), c: real, x: int -> real)
    ensures Value([t0, t1, t2], c, x) == c + t0.1 * x(t0.0) + t1.1 * x(t1.0) + t2.1 * x(t2.0)
  {
    var s := [t0, t1, t2];
    assert s[..2] == [t0, t1] && [t0, t1][..1] == [t0] && [t0][..0] == [];
    assert Value([t0], c, x) == c + t0.1 * x(t0.0);
    assert Value([t0, t1], c, x) == c + t0.1 * x(t0.0) + t1.1 * x(t1.0);
  }

  /** The variables of three terms. */
  lemma TermVars3(t0: (int, real), t1: (int, real), t2: (int, real))
    ensures TermVars([t0, t1, t2]) == {t0.0, t1.0, t2.0}
  {
    var s := [t0, t1, t2];
    assert s[..2] == [t0, t1] && [t0, t1][..1] == [t0] && [t0][..0] == [];
    assert TermVars([t0]) == {t0.0};
    assert TermVars([t0, t1]) == {t0.0, t1.0};
  }

  /** The value of a linear form at the point x. */
  function Value(terms: seq<(int, real)>, cst: real, x: int -> real): real
  {
    if terms == [] then cst
    else Value(terms[..|terms| - 1], cst, x) + terms[|terms| - 1].1 * x(terms[|terms| - 1].0)
  }

  /** The point x satisfies the constraint. */
  predicate Sat(c: Constraint, x: int -> real)
  {
    var g := Value(c.terms, c.cst, x);
    match c.ctype
    case Eq => g == c.rhs
    case Leq => g <= c.rhs
    case Geq => g >= c.rhs
  }

  /** `fill_in_cstr_bounds` for one constraint: the interval the solver
      keeps its value in. */
  function CstrBounds(c: Constraint): (PtVar.Bound, PtVar.Bound)
  {
    match c.ctype
    case Eq => (PtVar.Fin(c.rhs), PtVar.Fin(c.rhs))
    case Leq => (PtVar.NegInf, PtVar.Fin(c.rhs))
    case Geq => (PtVar.Fin(c.rhs), PtVar.PosInf)
  }

  /** A value lies between two bounds, either of which may be infinite. */
  predicate Within(g: real, lo: PtVar.Bound, hi: PtVar.Bound)
  {
    (match lo case NegInf => true case PosInf => false case Fin(l) => l <= g) &&
    (match hi case NegInf => false case PosInf => true case Fin(u) => g <= u)
  }

  /** The bounds handed to the solver hold exactly when the constraint
      does. */
  lemma CstrBoundsSound(c: Constraint, x: int -> real)
    ensures Within(Value(c.terms, c.cst, x), CstrBounds(c).0, CstrBounds(c).1) <==> Sat(c, x)
  {
  }

  /** The terms of a McCormick constraint: v − (a·v2 + b·v1 − a·b). */
  function McTerms(v: int, v1: int, v2: int, a: real, b: real): seq<(int, real)>
  {
    [(v, 1.0), (v2, -a), (v1, -b)]
  }

  /** The four constraints of `add_McCormick(name, v, v1, v2)` for bounds
      [l1, u1] of v1 and [l2, u2] of v2: v ≥ l1·v2 + l2·v1 − l1·l2,
      v ≥ u1·v2 + u2·v1 − u1·u2, v ≤ l1·v2 + u2·v1 − l1·u2 and
      v ≤ u1·v2 + l2·v1 − u1·l2. */
  function McCormick(name: string, v: int, v1: int, v2: int, l1: real, u1: real, l2: real, u2: real): (cs: seq<Constraint>)
    ensures |cs| == 4
    ensures cs[0].ctype == Geq && cs[1].ctype == Geq && cs[2].ctype == Leq && cs[3].ctype == Leq
    ensures forall k :: 0 <= k < 4 ==> cs[k].rhs == 0.0 && cs[k].vars == {v, v1, v2}
  {
    TermVars3((v, 1.0), (v2, -l1), (v1, -l2));
    TermVars3((v, 1.0), (v2, -u1), (v1, -u2));
    TermVars3((v, 1.0), (v2, -l1), (v1, -u2));
    TermVars3((v, 1.0), (v2, -u1), (v1, -l2));
    [Linear(name + "_McCormick1", McTerms(v, v1, v2, l1, l2), l1 * l2, Geq),
     Linear(name + "_McCormick2", McTerms(v, v1, v2, u1, u2), u1 * u2, Geq),
     Linear(name + "_McCormick3", McTerms(v, v1, v2, l1, u2), l1 * u2, Leq),
     Linear(name + "_McCormick4", McTerms(v, v1, v2, u1, l2), u1 * l2, Leq)]
  }

  /** a·b + w − a·q − b·p is (p − a)(q − b) when w = p·q. */
  lemma Factor(w: real, p: real, q: real, a: real, b: real)
    requires w == p * q
    ensures a * b + 1.0 * w + (-a) * q + (-b) * p == (p - a) * (q - b)
  {
  }

  /** Where v is the product v1·v2, a McCormick form is (v1 − a)(v2 − b). */
  lemma McFactor(v: int, v1: int, v2: int, a: real, b: real, x: int -> real)
    requires x(v) == x(v1) * x(v2)
    ensures Value(McTerms(v, v1, v2, a, b), a * b, x) == (x(v1) - a) * (x(v2) - b)
  {
    Value3((v, 1.0), (v2, -a), (v1, -b), a * b, x);
    Factor(x(v), x(v1), x(v2), a, b);
  }

  /** Two factors of one sign give a non-negative product. */
  lemma SameSign(s: real, t: real)
    requires (s >= 0.0 && t >= 0.0) || (s <= 0.0 && t <= 0.0)
    ensures s * t >= 0.0
  {
    if s <= 0.0 && t <= 0.0 {
      assert s * t == (-s) * (-t);
    }
  }

  /** Factors of opposite signs give a non-positive product. */
  lemma OppositeSign(s: real, t: real)
    requires (s >= 0.0 && t <= 0.0) || (s <= 0.0 && t >= 0.0)
    ensures s * t <= 0.0
  {
    if s >= 0.0 {
      assert s * t == -(s * (-t));
    } else {
      assert s * t == -((-s) * t);
    }
  }

  /** A McCormick form whose factors have one sign is satisfied as `>=`. */
  lemma McGeqSat(name: string, v: int, v1: int, v2: int, a: real, b: real, x: int -> real)
    requires x(v) == x(v1) * x(v2)
    requires (x(v1) >= a && x(v2) >= b) || (x(v1) <= a && x(v2) <= b)
    ensures Sat(Linear(name, McTerms(v, v1, v2, a, b), a * b, Geq), x)
  {
    McFactor(v, v1, v2, a, b, x);
    SameSign(x(v1) - a, x(v2) - b);
  }

  /** A McCormick form whose factors have opposite signs is satisfied as `<=`. */
  lemma McLeqSat(name: string, v: int, v1: int, v2: int, a: real, b: real, x: int -> real)
    requires x(v) == x(v1) * x(v2)
    requires (x(v1) >= a && x(v2) <= b) || (x(v1) <= a && x(v2) >= b)
    ensures Sat(Linear(name, McTerms(v, v1, v2, a, b), a * b, Leq), x)
  {
    McFactor(v, v1, v2, a, b, x);
    OppositeSign(x(v1) - a, x(v2) - b);
  }

  /** The McCormick relaxation is sound: a point where v is the product
      v1·v2, with v1 and v2 within their bounds, satisfies all four
      constraints. */
  lemma McCormickSound(name: string, v: int, v1: int, v2: int, l1: real, u1: real, l2: real, u2: real,
                       x: int -> real)
    requires x(v) == x(v1) * x(v2)
    requires l1 <= x(v1) <= u1 && l2 <= x(v2) <= u2
    ensures forall k :: 0 <= k < 4 ==> Sat(McCormick(name, v, v1, v2, l1, u1, l2, u2)[k], x)
  {
    var cs := McCormick(name, v, v1, v2, l1, u1, l2, u2);
    McGeqSat(name + "_McCormick1", v, v1, v2, l1, l2, x);
    McGeqSat(name + "_McCormick2", v, v1, v2, u1, u2, x);
    McLeqSat(name + "_McCormick3", v, v1, v2, l1, u2, x);
    McLeqSat(name + "_McCormick4", v, v1, v2, u1, l2, x);
    assert Sat(cs[0], x) && Sat(cs[1], x) && Sat(cs[2], x) && Sat(cs[3], x);
  }

  /** The terms of `on_off(v, on)`'s two constraints: v − bnd·on −
      (1 − on)·off, with bnd and off the bound and the off-bound. */
  function OnOffTerms(v: int, on: int, bnd: real, off: real): seq<(int, real)>
  {
    [(v, 1.0), (on, -bnd), (on, off)]
  }

  /** The two constraints of `on_off(v, on)` for bounds [lb, ub] and
      off-bounds [lbOff, ubOff] of v: v − ub·on − (1 − on)·ubOff ≤ 0 and
      v − lb·on − (1 − on)·lbOff ≥ 0. */
  function OnOff(name: string, v: int, on: int, lb: real, ub: real, lbOff: real, ubOff: real): (cs: seq<Constraint>)
    ensures |cs| == 2 && cs[0].ctype == Leq && cs[1].ctype == Geq
  {
    [Linear(name + "_UB_on/off", OnOffTerms(v, on, ub, ubOff), -ubOff, Leq),
     Linear(name + "_LB_on/off", OnOffTerms(v, on, lb, lbOff), -lbOff, Geq)]
  }

  /** The value of an on/off form at x. */
  lemma OnOffValue(v: int, on: int, bnd: real, off: real, x: int -> real)
    ensures Value(OnOffTerms(v, on, bnd, off), -off, x) == x(v) - bnd * x(on) - (1.0 - x(on)) * off
  {
    var t := OnOffTerms(v, on, bnd, off);
    Value3((v, 1.0), (on, -bnd), (on, off), -off, x);
    assert Value(t, -off, x) == -off + 1.0 * x(v) + (-bnd) * x(on) + off * x(on);
    OnOffArith(x(v), x(on), bnd, off);
  }

  /** −off + w − bnd·o + off·o is w − bnd·o − (1 − o)·off. */
  lemma OnOffArith(w: real, o: real, bnd: real, off: real)
    ensures -off + 1.0 * w + (-bnd) * o + off * o == w - bnd * o - (1.0 - o) * off
  {
  }

  /** Switched on (on = 1) the pair bounds v by [lb, ub]; switched off
      (on = 0) by [lbOff, ubOff]. */
  lemma OnOffMeaning(name: string, v: int, on: int, lb: real, ub: real, lbOff: real, ubOff: real,
                     x: int -> real)
    requires x(on) == 1.0 || x(on) == 0.0
    ensures var cs := OnOff(name, v, on, lb, ub, lbOff, ubOff);
            (Sat(cs[0], x) && Sat(cs[1], x)) <==>
            if x(on) == 1.0 then lb <= x(v) <= ub else lbOff <= x(v) <= ubOff
  {
    OnOffValue(v, on, ub, ubOff, x);
    OnOffValue(v, on, lb, lbOff, x);
  }

  // ------------------------------------------------ registration and counts

  /** Each constraint's index is its position. */
  predicate Indexed(cs: seq<Constraint>)
  {
    forall i :: 0 <= i < |cs| ==> cs[i].idx == i
  }

  /** What the variables record of the constraints (`_cstrs`, by
      variable index): constraint i is registered with variable v exactly
      when v is one of its variables. */
  ghost predicate Registration(cs: seq<Constraint>, m: map<int, set<int>>)
  {
    (forall i, v {:trigger v in cs[i].vars} :: 0 <= i < |cs| && v in cs[i].vars ==> i in Links(m, v)) &&
    (forall v, i {:trigger i in Links(m, v)} :: i in Links(m, v) ==> 0 <= i < |cs| && v in cs[i].vars)
  }

  /** The registration map after `vi->addConstraint(c)` for each
      variable vi in vs in turn, with cid the constraint's index: `_cstrs`
      is keyed by the constraint index, and inserting it again changes
      nothing. */
  function Registered(m: map<int, set<int>>, vs: seq<int>, cid: int): map<int, set<int>>
  {
    if vs == [] then m
    else
      var r := Registered(m, vs[..|vs| - 1], cid);
      var v := vs[|vs| - 1];
      r[v := Links(r, v) + {cid}]
  }

  /** Registering adds the constraint to its variables and to no other. */
  lemma {:induction false} RegisteredLinks(m: map<int, set<int>>, vs: seq<int>, cid: int)
    ensures forall v :: v in Registered(m, vs, cid) <==> v in m || v in vs
    ensures forall v :: Links(Registered(m, vs, cid), v) == Links(m, v) + (if v in vs then {cid} else {})
  {
    if vs != [] {
      var init := vs[..|vs| - 1];
      RegisteredLinks(m, init, cid);
      assert forall v :: v in vs <==> v in init || v == vs[|vs| - 1];
    }
  }

  /** Registering the next constraint keeps the registration exact. */
  lemma RegisteredExact(cs: seq<Constraint>, m: map<int, set<int>>, c: Constraint, vs: seq<int>)
    requires Registration(cs, m)
    requires forall v :: v in vs <==> v in c.vars
    ensures Registration(cs + [c.(idx := |cs|)], Registered(m, vs, |cs|))
  {
    var cs' := cs + [c.(idx := |cs|)];
    var m' := Registered(m, vs, |cs|);
    RegisteredLinks(m, vs, |cs|);
    forall i, v | 0 <= i < |cs'| && v in cs'[i].vars
      ensures i in Links(m', v)
    {
      if i < |cs| {
        assert cs'[i] == cs[i];
      }
    }
    forall v, i | i in Links(m', v)
      ensures 0 <= i < |cs'| && v in cs'[i].vars
    {
      if !(v in vs && i == |cs|) {
        assert i in Links(m, v);
        assert cs'[i] == cs[i];
      }
    }
  }

  /** Register a constraint with each of its variables, in the order the
      variables are visited. */
  method RegisterAll(m: map<int, set<int>>, vs: seq<int>, cid: int) returns (r: map<int, set<int>>)
    ensures r == Registered(m, vs, cid)
  {
    r := m;
    var k := 0;
    while k < |vs|
      invariant 0 <= k <= |vs|
      invariant r == Registered(m, vs[..k], cid)
    {
      assert vs[..k + 1][..k] == vs[..k];
      r := r[vs[k] := Links(r, vs[k]) + {cid}];
      k := k + 1;
    }
    assert vs[..k] == vs;
  }

  /** The number of Jacobian nonzeros: the constraints' variable counts
      added up. */
  function NnzG(cs: seq<Constraint>): nat
  {
    if cs == [] then 0 else NnzG(cs[..|cs| - 1]) + |cs[|cs| - 1].vars|
  }

  /** The Jacobian nonzeros of one constraint: its index paired with each
      of its variables, in increasing order. */
  ghost function Row(c: Constraint): (r: seq<(int, int)>)
    ensures |r| == |c.vars|
  {
    var vs := Ascending(c.vars);
    seq(|vs|, k requires 0 <= k < |vs| => (c.idx, vs[k]))
  }

  /** The Jacobian pattern `fill_in_jac_nnz` writes: the rows of the
      constraints in turn. */
  ghost function JacPattern(cs: seq<Constraint>): (r: seq<(int, int)>)
    ensures |r| == NnzG(cs)
  {
    if cs == [] then [] else JacPattern(cs[..|cs| - 1]) + Row(cs[|cs| - 1])
  }

  /** The pattern of a prefix of the constraints is a prefix of the
      pattern. */
  lemma {:induction false} JacPrefix(cs: seq<Constraint>, i: nat)
    requires i <= |cs|
    ensures JacPattern(cs[..i]) <= JacPattern(cs)
    decreases |cs| - i
  {
    if i < |cs| {
      var init := cs[..|cs| - 1];
      JacPrefix(init, i);
      assert init[..i] == cs[..i];
      assert JacPattern(cs) == JacPattern(init) + Row(cs[|cs| - 1]);
    } else {
      assert cs[..i] == cs;
    }
  }

  /** The row of a constraint holds (idx, v) exactly for its variables v. */
  lemma RowExact(c: Constraint)
    ensures forall p :: p in Row(c) <==> p.0 == c.idx && p.1 in c.vars
  {
    var vs := Ascending(c.vars);
    AscendingSpec(c.vars);
    forall p | p in Row(c)
      ensures p.0 == c.idx && p.1 in c.vars
    {
      var k :| 0 <= k < |Row(c)| && Row(c)[k] == p;
      assert vs[k] in vs;
    }
    forall p: (int, int) | p.0 == c.idx && p.1 in c.vars
      ensures p in Row(c)
    {
      var k :| 0 <= k < |vs| && vs[k] == p.1;
      assert Row(c)[k] == p;
    }
  }

  /** One more constraint adds its row to the pattern. */
  lemma JacStep(cs: seq<Constraint>, i: nat)
    requires i < |cs|
    ensures JacPattern(cs[..i + 1]) == JacPattern(cs[..i]) + Row(cs[i])
  {
    assert cs[..i + 1][..i] == cs[..i];
  }

  /** Entry t of the row of constraint i in the whole pattern. */
  lemma JacEntry(cs: seq<Constraint>, i: nat, pre: nat, cols: seq<int>, t: nat)
    requires i < |cs| && pre == NnzG(cs[..i]) && cols == Ascending(cs[i].vars) && t < |cols|
    ensures pre + t < NnzG(cs) && JacPattern(cs)[pre + t] == (cs[i].idx, cols[t])
  {
    JacStep(cs, i);
    JacPrefix(cs, i + 1);
    var r, whole := Row(cs[i]), JacPattern(cs);
    assert r[t] == (cs[i].idx, cols[t]);
    ConcatAt(JacPattern(cs[..i]), r, JacPattern(cs[..i + 1]), whole, pre, t);
  }

  /** One pass of the loop of `fill_in_jac_nnz`: the row of the
      constraint at position i. */
  method FillJacRow(cs: seq<Constraint>, iRow: array<int>, jCol: array<int>, i: nat, idx: nat)
      returns (idx': nat)
    requires i < |cs| && iRow != jCol && NnzG(cs) <= iRow.Length && NnzG(cs) <= jCol.Length
    requires idx == NnzG(cs[..i]) && idx <= NnzG(cs)
    modifies iRow, jCol
    ensures idx' == NnzG(cs[..i + 1]) && idx' <= NnzG(cs)
    ensures forall k :: 0 <= k < idx ==> iRow[k] == old(iRow[k]) && jCol[k] == old(jCol[k])
    ensures forall k :: idx <= k < idx' ==> (iRow[k], jCol[k]) == JacPattern(cs)[k]
  {
    JacStep(cs, i);
    JacPrefix(cs, i + 1);
    var c := cs[i];
    var cols := AscendingOf(c.vars);
    WriteRow(iRow, jCol, idx, c.idx, cols);
    idx' := idx + |cols|;
    ghost var whole := JacPattern(cs);
    assert idx' <= |whole|;
    forall k | idx <= k < idx'
      ensures (iRow[k], jCol[k]) == whole[k]
    {
      JacEntry(cs, i, idx, cols, k - idx);
    }
  }

  /** With constraints numbered by position, the Jacobian pattern holds
      the pair (i, v) exactly when v is a variable of constraint i. */
  lemma {:induction false} JacPatternExact(cs: seq<Constraint>)
    requires Indexed(cs)
    ensures forall p :: p in JacPattern(cs) <==> 0 <= p.0 < |cs| && p.1 in cs[p.0].vars
  {
    if cs != [] {
      var n := |cs|;
      var init := cs[..n - 1];
      var c := cs[n - 1];
      JacPatternExact(init);
      RowExact(c);
      assert JacPattern(cs) == JacPattern(init) + Row(c);
      forall p: (int, int)
        ensures p in JacPattern(cs) <==> 0 <= p.0 < n && p.1 in cs[p.0].vars
      {
        assert p in JacPattern(cs) <==> p in JacPattern(init) || p in Row(c);
        if 0 <= p.0 < n - 1 {
          assert init[p.0] == cs[p.0];
        }
      }
    }
  }

  /** The Hessian links of variable vid (its `_hess`), empty when none
      were recorded. */
  function Links(h: map<int, set<int>>, vid: int): set<int>
  {
    if vid in h then h[vid] else {}
  }

  /** The elements of s that are at most vid, in order: the lower
      triangle of a row of the symmetric Hessian. */
  function Lower(s: seq<int>, vid: int): (r: seq<int>)
    ensures |r| <= |s|
  {
    if s == [] then []
    else Lower(s[..|s| - 1], vid) + (if s[|s| - 1] <= vid then [s[|s| - 1]] else [])
  }

  /** The lower part keeps exactly the elements at most vid. */
  lemma {:induction false} LowerMembers(s: seq<int>, vid: int)
    ensures forall j :: j in Lower(s, vid) <==> j in s && j <= vid
  {
    if s != [] {
      LowerMembers(s[..|s| - 1], vid);
      assert forall j :: j in s <==> j in s[..|s| - 1] || j == s[|s| - 1];
    }
  }

  /** The Hessian nonzeros of the variable with index vid: (vid, vjd) for
      each link vjd ≤ vid, in increasing order. */
  ghost function HessRow(h: map<int, set<int>>, vid: int): (r: seq<(int, int)>)
  {
    var ls := Lower(Ascending(Links(h, vid)), vid);
    seq(|ls|, k requires 0 <= k < |ls| => (vid, ls[k]))
  }

  /** The Hessian pattern `fill_in_hess_nnz` writes, for variables with
      indices ids in turn. */
  ghost function HessPattern(h: map<int, set<int>>, ids: seq<int>): seq<(int, int)>
  {
    if ids == [] then [] else HessPattern(h, ids[..|ids| - 1]) + HessRow(h, ids[|ids| - 1])
  }

  /** The Hessian row of vid holds (vid, j) exactly for its links j ≤ vid. */
  lemma HessRowExact(h: map<int, set<int>>, vid: int)
    ensures forall p :: p in HessRow(h, vid) <==> p.0 == vid && p.1 in Links(h, vid) && p.1 <= vid
  {
    var links := Links(h, vid);
    var ls := Lower(Ascending(links), vid);
    AscendingSpec(links);
    LowerMembers(Ascending(links), vid);
    var row := HessRow(h, vid);
    forall p | p in row
      ensures p.0 == vid && p.1 in links && p.1 <= vid
    {
      var k :| 0 <= k < |row| && row[k] == p;
      assert ls[k] in ls;
      assert ls[k] in Ascending(links) && ls[k] <= vid;
    }
    forall p: (int, int) | p.0 == vid && p.1 in links && p.1 <= vid
      ensures p in row
    {
      var k :| 0 <= k < |ls| && ls[k] == p.1;
      assert row[k] == p;
    }
  }

  /** With variables numbered by position, the Hessian pattern holds
      (i, j) exactly when i is a variable, j one of its links, and j ≤ i:
      the lower triangle. */
  lemma {:induction false} HessPatternExact(h: map<int, set<int>>, n: nat)
    ensures forall p :: p in HessPattern(h, Range(n)) <==> 0 <= p.0 < n && p.1 in Links(h, p.0) && p.1 <= p.0
  {
    if n > 0 {
      assert Range(n)[..n - 1] == Range(n - 1);
      HessPatternExact(h, n - 1);
      HessRowExact(h, n - 1);
      assert HessPattern(h, Range(n)) == HessPattern(h, Range(n - 1)) + HessRow(h, n - 1);
    }
  }

  /** 0, 1, …, n − 1. */
  function Range(n: nat): (r: seq<int>)
    ensures |r| == n && forall i :: 0 <= i < n ==> r[i] == i
  {
    if n == 0 then [] else Range(n - 1) + [n - 1]
  }

  /** The indices of a list of variables. */
  function Ids(vs: seq<PtVar.Var>): (r: seq<int>)
    reads set i | 0 <= i < |vs| :: vs[i]
    ensures |r| == |vs| && forall i :: 0 <= i < |vs| ==> r[i] == vs[i].idx
  {
    if vs == [] then [] else Ids(vs[..|vs| - 1]) + [vs[|vs| - 1].idx]
  }

  /** The bounds `fill_in_var_bounds` hands the solver for a variable:
      [0, 1] for a binary variable, its own bounds otherwise. */
  function VarBounds(t: PtVar.VarType, lb: PtVar.Bound, ub: PtVar.Bound): (PtVar.Bound, PtVar.Bound)
  {
    if t.BinaryVar? then (PtVar.Fin(0.0), PtVar.Fin(1.0)) else (lb, ub)
  }

  /** The bounds of a prefix of the constraints, one pair per position. */
  predicate CstrBoundsFilled(cs: seq<Constraint>, gl: seq<PtVar.Bound>, gu: seq<PtVar.Bound>, n: nat)
    requires n <= |cs| && n <= |gl| && n <= |gu|
  {
    forall k :: 0 <= k < n ==> (gl[k], gu[k]) == CstrBounds(cs[k])
  }

  /** Write one row of the Jacobian pattern: the constraint index cid and
      the variables cols, from position at on. */
  method WriteRow(iRow: array<int>, jCol: array<int>, at: nat, cid: int, cols: seq<int>)
    requires iRow != jCol && at + |cols| <= iRow.Length && at + |cols| <= jCol.Length
    modifies iRow, jCol
    ensures forall k :: 0 <= k < iRow.Length ==> iRow[k] == if at <= k < at + |cols| then cid else old(iRow[k])
    ensures forall k :: 0 <= k < jCol.Length ==> jCol[k] == if at <= k < at + |cols| then cols[k - at] else old(jCol[k])
  {
    var k := 0;
    while k < |cols|
      invariant 0 <= k <= |cols|
      invariant forall q :: 0 <= q < iRow.Length ==> iRow[q] == if at <= q < at + k then cid else old(iRow[q])
      invariant forall q :: 0 <= q < jCol.Length ==> jCol[q] == if at <= q < at + k then cols[q - at] else old(jCol[q])
    {
      iRow[at + k] := cid;
      jCol[at + k] := cols[k];
      k := k + 1;
    }
  }

  /** The Lower of a prefix is a prefix of the Lower. */
  lemma {:induction false} LowerPrefix(s: seq<int>, vid: int, t: nat)
    requires t <= |s|
    ensures Lower(s[..t], vid) <= Lower(s, vid)
    decreases |s| - t
  {
    if t < |s| {
      LowerPrefix(s[..|s| - 1], vid, t);
      assert s[..|s| - 1][..t] == s[..t];
    } else {
      assert s[..t] == s;
    }
  }

  /** `_hess_id.insert(b, k)` on the record of position a: a link that is
      already recorded keeps its entry. */
  function Ins(h: map<int, map<int, int>>, a: int, b: int, k: int): map<int, map<int, int>>
  {
    var row := if a in h then h[a] else map[];
    if b in row then h else h[a := row[b := k]]
  }

  /** The two inserts for Hessian entry k = (vid, vjd) written for the
      variable at position pos: (vjd, k) into its own record, then
      (vid, k) into the record of the variable at position vjd. */
  function Ins2(h: map<int, map<int, int>>, pos: int, vid: int, vjd: int, k: int): map<int, map<int, int>>
  {
    Ins(Ins(h, pos, vjd, k), vjd, vid, k)
  }

  /** The records after one row: entries at, at + 1, … for the links ls. */
  function RowFold(h: map<int, map<int, int>>, pos: int, vid: int, ls: seq<int>, at: int): map<int, map<int, int>>
  {
    if ls == [] then h
    else Ins2(RowFold(h, pos, vid, ls[..|ls| - 1], at), pos, vid, ls[|ls| - 1], at + |ls| - 1)
  }

  /** The lower links of variable vid, in increasing order. */
  ghost function LowerLinks(h: map<int, set<int>>, vid: int): seq<int>
  {
    Lower(Ascending(Links(h, vid)), vid)
  }

  /** The `_hess_id` records after `fill_in_hess_nnz` has visited the
      variables with indices ids, at positions 0, 1, …, starting from the
      records h0. */
  ghost function HessIds(h0: map<int, map<int, int>>, h: map<int, set<int>>, ids: seq<int>): map<int, map<int, int>>
  {
    if ids == [] then h0
    else
      var init := ids[..|ids| - 1];
      RowFold(HessIds(h0, h, init), |ids| - 1, ids[|ids| - 1], LowerLinks(h, ids[|ids| - 1]), |HessPattern(h, init)|)
  }

  /** The links in cols that are at most vid, in order. */
  method LowerOf(cols: seq<int>, vid: int) returns (ls: seq<int>)
    ensures ls == Lower(cols, vid)
  {
    ls := [];
    var t := 0;
    while t < |cols|
      invariant 0 <= t <= |cols| && ls == Lower(cols[..t], vid)
    {
      assert cols[..t + 1][..t] == cols[..t];
      if cols[t] <= vid {
        ls := ls + [cols[t]];
      }
      t := t + 1;
    }
    assert cols[..t] == cols;
  }

  /** Write one row of the Hessian pattern from position at on: (vid, j)
      for each lower link j in ls. */
  method WriteHessRow(iRow: array<int>, jCol: array<int>, at: nat, vid: int, ls: seq<int>)
    requires iRow != jCol && at + |ls| <= iRow.Length && at + |ls| <= jCol.Length
    modifies iRow, jCol
    ensures forall k :: 0 <= k < at ==> iRow[k] == old(iRow[k]) && jCol[k] == old(jCol[k])
    ensures forall k :: at <= k < at + |ls| ==> iRow[k] == vid && jCol[k] == ls[k - at]
  {
    var t := 0;
    while t < |ls|
      invariant 0 <= t <= |ls|
      invariant forall k :: 0 <= k < at ==> iRow[k] == old(iRow[k]) && jCol[k] == old(jCol[k])
      invariant forall k :: at <= k < at + t ==> iRow[k] == vid && jCol[k] == ls[k - at]
    {
      iRow[at + t] := vid;
      jCol[at + t] := ls[t];
      t := t + 1;
    }
  }

  /** The `_hess_id` records of one row. */
  method RowRecords(h: map<int, map<int, int>>, pos: int, vid: int, ls: seq<int>, at: int)
      returns (h': map<int, map<int, int>>)
    ensures h' == RowFold(h, pos, vid, ls, at)
  {
    h' := h;
    var t := 0;
    while t < |ls|
      invariant 0 <= t <= |ls|
      invariant h' == RowFold(h, pos, vid, ls[..t], at)
    {
      RowFoldStep(h, pos, vid, ls, at, t);
      h' := Ins2(h', pos, vid, ls[t], at + t);
      t := t + 1;
    }
    assert ls[..t] == ls;
  }

  /** One more link adds its two records. */
  lemma RowFoldStep(h: map<int, map<int, int>>, pos: int, vid: int, ls: seq<int>, at: int, t: nat)
    requires t < |ls|
    ensures RowFold(h, pos, vid, ls[..t + 1], at) == Ins2(RowFold(h, pos, vid, ls[..t], at), pos, vid, ls[t], at + t)
  {
    assert ls[..t + 1][..t] == ls[..t];
  }

  /** One more variable adds its row to the Hessian pattern. */
  lemma HessStep(h: map<int, set<int>>, ids: seq<int>, i: nat)
    requires i < |ids|
    ensures HessPattern(h, ids[..i + 1]) == HessPattern(h, ids[..i]) + HessRow(h, ids[i])
    ensures forall k :: 0 <= k < |HessRow(h, ids[i])| ==> HessRow(h, ids[i])[k] == (ids[i], LowerLinks(h, ids[i])[k])
  {
    assert ids[..i + 1][..i] == ids[..i];
  }

  /** One more variable adds its records to `_hess_id`. */
  lemma HessIdsStep(h0: map<int, map<int, int>>, h: map<int, set<int>>, ids: seq<int>, i: nat)
    requires i < |ids|
    ensures HessIds(h0, h, ids[..i + 1]) == RowFold(HessIds(h0, h, ids[..i]), i, ids[i], LowerLinks(h, ids[i]), |HessPattern(h, ids[..i])|)
  {
    assert ids[..i + 1][..i] == ids[..i];
  }

  /** The pattern of a prefix of the variables is a prefix of the pattern. */
  lemma {:induction false} HessPrefix(h: map<int, set<int>>, ids: seq<int>, i: nat)
    requires i <= |ids|
    ensures HessPattern(h, ids[..i]) <= HessPattern(h, ids)
    decreases |ids| - i
  {
    if i < |ids| {
      HessPrefix(h, ids[..|ids| - 1], i);
      assert ids[..|ids| - 1][..i] == ids[..i];
    } else {
      assert ids[..i] == ids;
    }
  }

  /** Constraints numbered from start on, in order. */
  function Numbered(cs: seq<Constraint>, start: int): (r: seq<Constraint>)
    ensures |r| == |cs|
  {
    seq(|cs|, k requires 0 <= k < |cs| => cs[k].(idx := start + k))
  }

  /** The loop of `fill_in_hess_nnz` over the variables vs with links h,
      from the records h0. */
  method FillHess(vs: seq<PtVar.Var>, ghost ids: seq<int>, h: map<int, set<int>>, h0: map<int, map<int, int>>,
                  iRow: array<int>, jCol: array<int>) returns (hid: map<int, map<int, int>>)
    requires ids == Ids(vs)
    requires iRow != jCol
    requires |HessPattern(h, ids)| <= iRow.Length && |HessPattern(h, ids)| <= jCol.Length
    modifies iRow, jCol
    ensures forall k :: 0 <= k < |HessPattern(h, ids)| ==> (iRow[k], jCol[k]) == HessPattern(h, ids)[k]
    ensures hid == HessIds(h0, h, ids)
  {
    hid := h0;
    var idx: nat := 0;
    var i := 0;
    while i < |vs|
      invariant 0 <= i <= |vs|
      invariant idx == |HessPattern(h, ids[..i])| && idx <= |HessPattern(h, ids)|
      invariant forall k :: 0 <= k < idx ==> iRow[k] == HessPattern(h, ids)[k].0 && jCol[k] == HessPattern(h, ids)[k].1
      invariant hid == HessIds(h0, h, ids[..i])
    {
      idx, hid := FillHessRow(vs, h, h0, iRow, jCol, ids, i, idx, hid);
      i := i + 1;
    }
    assert ids[..i] == ids;
  }

  /** One pass of the loop of `fill_in_hess_nnz`: the row of the
      variable at position i. */
  method FillHessRow(vs: seq<PtVar.Var>, h: map<int, set<int>>, h0: map<int, map<int, int>>,
                     iRow: array<int>, jCol: array<int>, ghost ids: seq<int>, i: nat, idx: nat,
                     hid: map<int, map<int, int>>)
      returns (idx': nat, hid': map<int, map<int, int>>)
    requires i < |vs| && |ids| == |vs| && ids[i] == vs[i].idx
    requires iRow != jCol && |HessPattern(h, ids)| <= iRow.Length && |HessPattern(h, ids)| <= jCol.Length
    requires idx == |HessPattern(h, ids[..i])| && idx <= |HessPattern(h, ids)|
    requires hid == HessIds(h0, h, ids[..i])
    modifies iRow, jCol
    ensures idx' == |HessPattern(h, ids[..i + 1])| && idx' <= |HessPattern(h, ids)|
    ensures forall k :: 0 <= k < idx ==> iRow[k] == old(iRow[k]) && jCol[k] == old(jCol[k])
    ensures forall k :: idx <= k < idx' ==> iRow[k] == HessPattern(h, ids)[k].0 && jCol[k] == HessPattern(h, ids)[k].1
    ensures hid' == HessIds(h0, h, ids[..i + 1])
  {
    HessAt(h, ids, i);
    HessIdsStep(h0, h, ids, i);
    var vid := vs[i].idx;
    var cols := AscendingOf(Links(h, vid));
    var ls := LowerOf(cols, vid);
    assert vid == ids[i];
    assert ls == LowerLinks(h, vid);
    WriteHessRow(iRow, jCol, idx, vid, ls);
    hid' := RowRecords(hid, i, vid, ls, idx);
    idx' := idx + |ls|;
    ghost var whole := HessPattern(h, ids);
    forall k | idx <= k < idx'
      ensures iRow[k] == whole[k].0 && jCol[k] == whole[k].1
    {
      HessEntry(h, ids, i, idx, ls, k - idx);
    }
  }

  /** Where the row of the variable at position i sits in the whole
      pattern. */
  lemma HessAt(h: map<int, set<int>>, ids: seq<int>, i: nat)
    requires i < |ids|
    ensures |HessPattern(h, ids[..i])| + |LowerLinks(h, ids[i])| == |HessPattern(h, ids[..i + 1])|
    ensures |HessPattern(h, ids[..i + 1])| <= |HessPattern(h, ids)|
  {
    HessStep(h, ids, i);
    HessPrefix(h, ids, i + 1);
  }

  /** Entry t of the row of the variable at position i in the whole
      pattern. */
  lemma HessEntry(h: map<int, set<int>>, ids: seq<int>, i: nat, pre: nat, row: seq<int>, t: nat)
    requires i < |ids| && pre == |HessPattern(h, ids[..i])| && row == LowerLinks(h, ids[i]) && t < |row|
    ensures pre + t < |HessPattern(h, ids)| && HessPattern(h, ids)[pre + t] == (ids[i], row[t])
  {
    HessStep(h, ids, i);
    HessPrefix(h, ids, i + 1);
    var r, whole := HessRow(h, ids[i]), HessPattern(h, ids);
    assert r[t] == (ids[i], row[t]);
    ConcatAt(HessPattern(h, ids[..i]), r, HessPattern(h, ids[..i + 1]), whole, pre, t);
  }

  /** Entry t of the second part of a prefix of whole. */
  lemma ConcatAt<T>(pre: seq<T>, row: seq<T>, full: seq<T>, whole: seq<T>, n: nat, t: nat)
    requires full == pre + row && full <= whole && n == |pre| && t < |row|
    ensures n + t < |whole| && whole[n + t] == row[t]
  {
  }

  /** Numbering one more constraint appends it with the next index. */
  lemma NumberedStep(cs: seq<Constraint>, start: int, k: nat)
    requires k < |cs|
    ensures Numbered(cs[..k + 1], start) == Numbered(cs[..k], start) + [cs[k].(idx := start + k)]
  {
  }

  /** The optimisation model: its variables and constraints in the order
      they were added, the counters `_idx_var`, `_idx_con` and `_nnz_g`,
      and what the variables record: `_cstrs` (the constraint indices
      registered with each variable index), `_hess` (each variable
      index's Hessian links) and `_hess_id` (for the variable at each
      position, the Hessian entry of each link). */
  class Model {
    var vars: seq<PtVar.Var>
    var cons: seq<Constraint>
    var idxVar: int
    var idxCon: int
    var nnzG: int
    var cstrs: map<int, set<int>>
    var hess: map<int, set<int>>
    var hessId: map<int, map<int, int>>

    /** Variables and constraints are numbered by position, the counters
        match the lists, and each constraint is registered with exactly
        its variables. */
    ghost predicate Valid()
      reads this, set i | 0 <= i < |vars| :: vars[i]
    {
      idxVar == |vars| && (forall i :: 0 <= i < |vars| ==> vars[i].idx == i) &&
      idxCon == |cons| && Indexed(cons) &&
      nnzG == NnzG(cons) && Registration(cons, cstrs)
    }

    /** An empty model. */
    constructor()
      ensures vars == [] && cons == [] && cstrs == map[] && hess == map[] && hessId == map[]
      ensures Valid()
    {
      vars, cons := [], [];
      idxVar, idxCon, nnzG := 0, 0, 0;
      cstrs, hess, hessId := map[], map[], map[];
    }

    /** `addVar(v)`: append v and give it the next variable index. */
    method AddVar(v: PtVar.Var)
      modifies this, v
      ensures vars == old(vars) + [v] && idxVar == old(idxVar) + 1
      ensures v.State() == old(v.State()).(idx := old(idxVar))
      ensures cons == old(cons) && idxCon == old(idxCon) && nnzG == old(nnzG)
      ensures cstrs == old(cstrs) && hess == old(hess) && hessId == old(hessId)
      ensures old(Valid()) && v !in old(vars) ==> Valid()
    {
      vars := vars + [v];
      v.idx := idxVar;
      idxVar := idxVar + 1;
    }

    /** `hasVar(v)`: the index of v, compared with the number of variables
        as an unsigned size, is below it. A negative index converts to a
        huge unsigned value, so it is never below. */
    predicate HasVar(v: PtVar.Var)
      reads this, v
    {
      0 <= v.idx < |vars|
    }

    /** In a valid model every added variable is found, and a variable
        that is found has the index of the one at its position. */
    lemma HasVarOfAdded(v: PtVar.Var)
      requires Valid()
      ensures v in vars ==> HasVar(v)
      ensures HasVar(v) ==> vars[v.idx].idx == v.idx
    {
      if v in vars {
        var i :| 0 <= i < |vars| && vars[i] == v;
      }
    }

    /** `addConstraint(c)`: append a copy of c with the next constraint
        index, register it with each of its variables, and add its number
        of variables to `_nnz_g`. */
    method AddConstraint(c: Constraint)
      modifies this
      ensures cons == old(cons) + [c.(idx := old(idxCon))] && idxCon == old(idxCon) + 1
      ensures nnzG == old(nnzG) + |c.vars|
      ensures cstrs == Registered(old(cstrs), Ascending(c.vars), old(idxCon))
      ensures vars == old(vars) && idxVar == old(idxVar) && hess == old(hess) && hessId == old(hessId)
      ensures old(Valid()) ==> Valid()
    {
      ghost var wasValid := Valid();
      var cid := idxCon;
      var c' := c.(idx := cid);
      cons := cons + [c'];
      idxCon := idxCon + 1;
      var order := AscendingOf(c.vars);
      cstrs := RegisterAll(cstrs, order, cid);
      nnzG := nnzG + |c.vars|;
      if wasValid {
        AscendingSpec(c.vars);
        RegisteredExact(old(cons), old(cstrs), c, order);
        assert cons[..|cons| - 1] == old(cons);
      }
    }

    /** `get_nb_nnz_g`: the constraints' variable counts added up, which
        in a valid model is the running count `_nnz_g`. */
    method GetNbNnzG() returns (n: int)
      ensures n == NnzG(cons)
      ensures Valid() ==> n == nnzG
    {
      n := 0;
      var i := 0;
      while i < |cons|
        invariant 0 <= i <= |cons| && n == NnzG(cons[..i])
      {
        assert cons[..i + 1][..i] == cons[..i];
        n := n + |cons[i].vars|;
        i := i + 1;
      }
      assert cons[..i] == cons;
    }

    /** `fill_in_jac_nnz`: the Jacobian pattern, constraint index in
        iRow and variable index in jCol. */
    method FillInJacNnz(iRow: array<int>, jCol: array<int>)
      requires iRow != jCol && NnzG(cons) <= iRow.Length && NnzG(cons) <= jCol.Length
      modifies iRow, jCol
      ensures forall k :: 0 <= k < NnzG(cons) ==> (iRow[k], jCol[k]) == JacPattern(cons)[k]
    {
      var idx := 0;
      var i := 0;
      while i < |cons|
        invariant 0 <= i <= |cons| && idx == NnzG(cons[..i]) && idx <= NnzG(cons)
        invariant forall k :: 0 <= k < idx ==> (iRow[k], jCol[k]) == JacPattern(cons)[k]
      {
        idx := FillJacRow(cons, iRow, jCol, i, idx);
        i := i + 1;
      }
      assert cons[..i] == cons;
    }

    /** `fill_in_cstr_bounds`: each constraint's interval, by position. */
    method FillInCstrBounds(gl: array<PtVar.Bound>, gu: array<PtVar.Bound>)
      requires gl != gu && |cons| <= gl.Length && |cons| <= gu.Length
      modifies gl, gu
      ensures CstrBoundsFilled(cons, gl[..], gu[..], |cons|)
    {
      var i := 0;
      while i < |cons|
        invariant 0 <= i <= |cons|
        invariant CstrBoundsFilled(cons, gl[..], gu[..], i)
      {
        var b := CstrBounds(cons[i]);
        gl[i] := b.0;
        gu[i] := b.1;
        i := i + 1;
      }
    }

    /** `fill_in_var_bounds`: each variable's interval, by position. */
    method FillInVarBounds(xl: array<PtVar.Bound>, xu: array<PtVar.Bound>)
      requires xl != xu && |vars| <= xl.Length && |vars| <= xu.Length
      modifies xl, xu
      ensures forall k :: 0 <= k < |vars| ==> (xl[k], xu[k]) == VarBounds(vars[k].vtype, vars[k].lb, vars[k].ub)
    {
      var i := 0;
      while i < |vars|
        invariant 0 <= i <= |vars|
        invariant forall k :: 0 <= k < i ==> (xl[k], xu[k]) == VarBounds(vars[k].vtype, vars[k].lb, vars[k].ub)
      {
        var b := VarBounds(vars[i].vtype, vars[i].lb, vars[i].ub);
        xl[i] := b.0;
        xu[i] := b.1;
        i := i + 1;
      }
    }
  
    /** `get_nb_nnz_h`: the number of Hessian links vjd ≤ vid over all
        variables, which is the length of the pattern `FillInHessNnz`
        writes. */
    method GetNbNnzH() returns (n: int)
      ensures n == |HessPattern(hess, Ids(vars))|
    {
      ghost var ids := Ids(vars);
      n := 0;
      var i := 0;
      while i < |vars|
        invariant 0 <= i <= |vars| && n == |HessPattern(hess, ids[..i])|
      {
        HessStep(hess, ids, i);
        var vid := vars[i].idx;
        var cols := AscendingOf(Links(hess, vid));
        var ls := LowerOf(cols, vid);
        n := n + |ls|;
        i := i + 1;
      }
      assert ids[..i] == ids;
    }

    /** `fill_in_hess_nnz`: the lower triangle of the Hessian pattern,
        row in iRow and column in jCol, recording each entry's position
        in the `_hess_id` of both variables. */
    method FillInHessNnz(iRow: array<int>, jCol: array<int>)
      requires iRow != jCol
      requires |HessPattern(hess, Ids(vars))| <= iRow.Length && |HessPattern(hess, Ids(vars))| <= jCol.Length
      requires forall p :: p in HessPattern(hess, Ids(vars)) ==> 0 <= p.1 < |vars|
      modifies this, iRow, jCol
      ensures vars == old(vars) && cons == old(cons) && hess == old(hess) && cstrs == old(cstrs)
      ensures idxVar == old(idxVar) && idxCon == old(idxCon) && nnzG == old(nnzG)
      ensures forall k :: 0 <= k < |HessPattern(hess, Ids(vars))| ==> (iRow[k], jCol[k]) == HessPattern(hess, Ids(vars))[k]
      ensures hessId == HessIds(old(hessId), hess, Ids(vars))
    {
      ghost var ids := Ids(vars);
      var hid := FillHess(vars, ids, hess, hessId, iRow, jCol);
      hessId := hid;
      assert Ids(vars) == ids;
    }

    /** Add the constraints cs in order. */
    method AddAll(cs: seq<Constraint>)
      modifies this
      ensures cons == old(cons) + Numbered(cs, old(idxCon)) && idxCon == old(idxCon) + |cs|
      ensures vars == old(vars)
      ensures old(Valid()) ==> Valid()
    {
      ghost var wasValid := Valid();
      var k := 0;
      while k < |cs|
        invariant 0 <= k <= |cs|
        invariant cons == old(cons) + Numbered(cs[..k], old(idxCon)) && idxCon == old(idxCon) + k
        invariant vars == old(vars)
        invariant wasValid ==> Valid()
      {
        NumberedStep(cs, old(idxCon), k);
        AddConstraint(cs[k]);
        k := k + 1;
      }
      assert cs[..k] == cs;
    }

    /** `add_McCormick(name, v, v1, v2)`: the four McCormick constraints
        for the bounds of v1 and v2, added in order. */
    method AddMcCormick(name: string, v: PtVar.Var, v1: PtVar.Var, v2: PtVar.Var)
      requires v1.lb.Fin? && v1.ub.Fin? && v2.lb.Fin? && v2.ub.Fin?
      modifies this
      ensures cons == old(cons) + Numbered(McCormick(name, v.idx, v1.idx, v2.idx, v1.lb.v, v1.ub.v, v2.lb.v, v2.ub.v), old(idxCon))
      ensures vars == old(vars) && idxCon == old(idxCon) + 4
      ensures old(Valid()) ==> Valid()
    {
      AddAll(McCormick(name, v.idx, v1.idx, v2.idx, v1.lb.v, v1.ub.v, v2.lb.v, v2.ub.v));
    }

    /** `on_off(v, on)`: the two constraints that bound v by its bounds
        when on is 1 and by its off-bounds when on is 0. */
    method OnOffVar(v: PtVar.Var, on: PtVar.Var)
      requires v.lb.Fin? && v.ub.Fin? && v.lbOff.Fin? && v.ubOff.Fin?
      modifies this
      ensures cons == old(cons) + Numbered(OnOff(v.name, v.idx, on.idx, v.lb.v, v.ub.v, v.lbOff.v, v.ubOff.v), old(idxCon))
      ensures vars == old(vars) && idxCon == old(idxCon) + 2
      ensures old(Valid()) ==> Valid()
    {
      AddAll(OnOff(v.name, v.idx, on.idx, v.lb.v, v.ub.v, v.lbOff.v, v.ubOff.v));
    }
  }
}
