// Time series of SgtSim/TimeSeries.h: functions of time given as a
// constant, as a table of points read stepwise or by linear interpolation,
// or as an arbitrary function.
//
// A table is `std::map<double, V>` keyed by `dSeconds(t)`; here it is the
// sequence of its (seconds, value) pairs in increasing key order, and the
// lookups take the time already converted to seconds.

module TimeSeries {
  import opened Shared

  type Points<V> = seq<(real, V)>

  /** The keys of a `std::map`, in iteration order, are strictly increasing. */
  predicate Increasing<V>(p: Points<V>)
  {
    forall i, j :: 0 <= i < j < |p| ==> p[i].0 < p[j].0
  }

  /** The value stored under key k, if any. */
  function Lookup<V>(p: Points<V>, k: real): Option<V>
  {
    if |p| == 0 then None
    else if p[0].0 == k then Some(p[0].1)
    else Lookup(p[1..], k)
  }

  /** `points_[k] = v`: insert, or overwrite the value already at k. */
  function Put<V>(p: Points<V>, k: real, v: V): Points<V>
  {
    if |p| == 0 then [(k, v)]
    else if k < p[0].0 then [(k, v)] + p
    else if k == p[0].0 then [(k, v)] + p[1..]
    else [p[0]] + Put(p[1..], k, v)
  }

  /** In an increasing table, every key below the first is absent. */
  lemma {:induction false} LookupBelow<V>(p: Points<V>, k: real)
    requires Increasing(p) && (|p| == 0 || k < p[0].0)
    ensures Lookup(p, k) == None
  {
    if |p| > 0 {
      assert Increasing(p[1..]);
      LookupBelow(p[1..], k);
    }
  }

  /** `points_[k] = v` keeps the table ordered and holds only the old
      points and the new one. */
  lemma {:induction false} PutOrdered<V>(p: Points<V>, k: real, v: V)
    requires Increasing(p)
    ensures Increasing(Put(p, k, v))
    ensures forall x :: x in Put(p, k, v) ==> x == (k, v) || x in p
  {
    if |p| > 0 && p[0].0 < k {
      PutOrdered(p[1..], k, v);
      var r := Put(p[1..], k, v);
      forall j | 0 <= j < |r| ensures p[0].0 < r[j].0 {
        assert r[j] in r;
        if r[j] != (k, v) {
          var i :| 0 <= i < |p[1..]| && p[1..][i] == r[j];
          assert p[i + 1] == r[j];
        }
      }
      assert p == [p[0]] + p[1..];
    }
  }

  /** `points_[k] = v` makes k map to v, leaves every other key alone, and
      grows the table only when k is new. */
  lemma {:induction false} PutSpec<V>(p: Points<V>, k: real, v: V)
    requires Increasing(p)
    ensures Increasing(Put(p, k, v))
    ensures Lookup(Put(p, k, v), k) == Some(v)
    ensures forall k' :: k' != k ==> Lookup(Put(p, k, v), k') == Lookup(p, k')
    ensures |Put(p, k, v)| == if Lookup(p, k).Some? then |p| else |p| + 1
  {
    PutOrdered(p, k, v);
    if |p| == 0 {
    } else if k < p[0].0 {
      LookupBelow(p, k);
      assert ([(k, v)] + p)[1..] == p;
    } else if k == p[0].0 {
      assert ([(k, v)] + p[1..])[1..] == p[1..];
    } else {
      PutSpec(p[1..], k, v);
      assert ([p[0]] + Put(p[1..], k, v))[1..] == Put(p[1..], k, v);
    }
  }

  /** A point after every key goes at the end of the table. */
  lemma {:induction false} PutAfterLast<V>(p: Points<V>, k: real, v: V)
    requires forall i :: 0 <= i < |p| ==> p[i].0 < k
    ensures Put(p, k, v) == p + [(k, v)]
  {
    if |p| > 0 {
      PutAfterLast(p[1..], k, v);
      assert p == [p[0]] + p[1..];
    }
  }

  /** A key that is present lies at some position of the table. */
  lemma {:induction false} LookupMember<V>(p: Points<V>, k: real)
    ensures Lookup(p, k).Some? <==> exists i :: 0 <= i < |p| && p[i].0 == k
  {
    if |p| > 0 {
      LookupMember(p[1..], k);
      if exists i :: 0 <= i < |p| && p[i].0 == k {
        var i :| 0 <= i < |p| && p[i].0 == k;
        if i > 0 {
          assert p[1..][i - 1].0 == k;
        }
      }
      if exists i :: 0 <= i < |p[1..]| && p[1..][i].0 == k {
        var i :| 0 <= i < |p[1..]| && p[1..][i].0 == k;
        assert p[i + 1].0 == k;
      }
    }
  }

  /** `points_.upper_bound(t)`: the position of the first key above t. */
  function UpperBound<V>(p: Points<V>, t: real): (r: nat)
    requires Increasing(p)
    ensures r <= |p|
    ensures forall i :: 0 <= i < r ==> p[i].0 <= t
    ensures forall i :: r <= i < |p| ==> t < p[i].0
  {
    if |p| == 0 || t < p[0].0 then 0 else 1 + UpperBound(p[1..], t)
  }

  /** ConstTimeSeries: the same value at every time. */
  datatype ConstTimeSeries<V> = ConstTimeSeries(val: V)
  {
    function Value(t: real): (r: V)
      ensures r == val
    {
      val
    }
  }

  /** FunctionTimeSeries: the value of a function of time. */
  datatype FunctionTimeSeries<V> = FunctionTimeSeries(func: real -> V)
  {
    function Value(t: real): (r: V)
      ensures r == func(t)
    {
      func(t)
    }
  }

  /** StepwiseTimeSeries: the value at the last tabulated time not after t. */
  class StepwiseTimeSeries<V> {
    var points: Points<V>

    ghost predicate Valid()
      reads this
    {
      Increasing(points)
    }

    constructor()
      ensures Valid() && points == []
    {
      points := [];
    }

    /** The value at the greatest key not above t, or the first value when
        t comes before every key. The table must not be empty (the source
        dereferences its first element). */
    function Value(t: real): (r: V)
      reads this
      requires Valid() && |points| > 0
      ensures t < points[0].0 ==> r == points[0].1
      ensures forall i :: (0 <= i < |points| && points[i].0 <= t
                            && (i + 1 == |points| || t < points[i + 1].0)) ==> r == points[i].1
    {
      var pos := UpperBound(points, t);
      if pos == 0 then points[0].1 else points[pos - 1].1
    }

    method AddPoint(t: real, v: V)
      requires Valid()
      modifies this
      ensures Valid()
      ensures points == Put(old(points), t, v)
      ensures Lookup(points, t) == Some(v)
      ensures forall k :: k != t ==> Lookup(points, k) == Lookup(old(points), k)
    {
      PutSpec(points, t, v);
      points := Put(points, t, v);
    }
  }

  /** The interpolation between (t1, v1) and (t2, v2) at td. */
  function Interpolate(p1: (real, Complex), p2: (real, Complex), td: real): Complex
    requires p1.0 < p2.0
  {
    CAdd(p1.1, CScale((td - p1.0) / (p2.0 - p1.0), CSub(p2.1, p1.1)))
  }

  /** A point of the segment from a to b, x of the way along. */
  lemma BetweenReal(a: real, b: real, x: real)
    requires 0.0 <= x <= 1.0
    ensures RMin(a, b) <= a + x * (b - a) <= RMax(a, b)
  {
    var d := b - a;
    assert (1.0 - x) * d == d - x * d;
    if a <= b {
      assert 0.0 <= x * d && 0.0 <= (1.0 - x) * d;
    } else {
      assert x * d <= 0.0 && (1.0 - x) * d <= 0.0;
    }
  }

  /** A constant series is a stepwise series with one point: both give the
      point's value at every time. */
  lemma ConstIsOnePointStepwise<V>(c: ConstTimeSeries<V>, s: StepwiseTimeSeries<V>, t: real)
    requires s.Valid() && |s.points| == 1 && s.points[0].1 == c.val
    ensures s.Value(t) == c.Value(t)
  {
    if s.points[0].0 <= t {
      assert s.points[0].0 <= t && 0 + 1 == |s.points|;
    }
  }

  /** LerpTimeSeries: linear interpolation between neighbouring points,
      clamped to the first and last values outside the table. */
  class LerpTimeSeries {
    var points: Points<Complex>

    ghost predicate Valid()
      reads this
    {
      Increasing(points)
    }

    constructor()
      ensures Valid() && points == []
    {
      points := [];
    }

    /** The first value before the table, the last value after it, and the
        linear interpolation of the two neighbouring points inside it. The
        table must not be empty. */
    function Value(t: real): (r: Complex)
      reads this
      requires Valid() && |points| > 0
      ensures t < points[0].0 ==> r == points[0].1
      ensures points[|points| - 1].0 <= t ==> r == points[|points| - 1].1
      ensures forall i :: 0 <= i < |points| - 1 && points[i].0 <= t < points[i + 1].0
                ==> r == Interpolate(points[i], points[i + 1], t)
    {
      var pos2 := UpperBound(points, t);
      if pos2 == 0 then points[0].1
      else if pos2 == |points| then points[|points| - 1].1
      else Interpolate(points[pos2 - 1], points[pos2], t)
    }

    method AddPoint(t: real, v: Complex)
      requires Valid()
      modifies this
      ensures Valid()
      ensures points == Put(old(points), t, v)
      ensures Lookup(points, t) == Some(v)
      ensures forall k :: k != t ==> Lookup(points, k) == Lookup(old(points), k)
    {
      PutSpec(points, t, v);
      points := Put(points, t, v);
    }
  }

  /** Interpolation reproduces every tabulated point exactly. */
  lemma LerpExact(s: LerpTimeSeries, i: nat)
    requires s.Valid() && i < |s.points|
    ensures s.Value(s.points[i].0) == s.points[i].1
  {
    if i + 1 < |s.points| {
      var d := CSub(s.points[i + 1].1, s.points[i].1);
      assert CScale(0.0, d) == CZero;
    }
  }

  /** Between two neighbouring points the interpolated value lies, part by
      part, between their values. */
  lemma LerpBetween(s: LerpTimeSeries, i: nat, t: real)
    requires s.Valid() && i + 1 < |s.points|
    requires s.points[i].0 <= t < s.points[i + 1].0
    ensures var r := s.Value(t);
      var v1 := s.points[i].1;
      var v2 := s.points[i + 1].1;
      && RMin(v1.re, v2.re) <= r.re <= RMax(v1.re, v2.re)
      && RMin(v1.im, v2.im) <= r.im <= RMax(v1.im, v2.im)
  {
    var p1 := s.points[i];
    var p2 := s.points[i + 1];
    var x := (t - p1.0) / (p2.0 - p1.0);
    assert 0.0 <= x <= 1.0;
    BetweenReal(p1.1.re, p2.1.re, x);
    BetweenReal(p1.1.im, p2.1.im, x);
  }

  /** The stepwise unit test: points at base + 0 h, 1 h and 3 h with base
      five minutes, looked up one second either side of them. */
  method StepwiseTest() returns (vals: seq<real>)
    ensures vals == [1.5, 1.5, 1.5, 2.5, 5.5]
  {
    var base := 300.0;
    var sts := new StepwiseTimeSeries<real>();
    sts.AddPoint(base, 1.5);
    PutAfterLast(sts.points, base + 3600.0, 2.5);
    sts.AddPoint(base + 3600.0, 2.5);
    PutAfterLast(sts.points, base + 10800.0, 5.5);
    sts.AddPoint(base + 10800.0, 5.5);
    assert sts.points == [(base, 1.5), (base + 3600.0, 2.5), (base + 10800.0, 5.5)];
    var p := sts.points;
    assert p[0].0 <= base + 1.0 < p[1].0 && p[0].0 <= base + 3599.0 < p[1].0;
    assert p[1].0 <= base + 3601.0 < p[2].0 && p[2].0 <= base + 10801.0;
    vals := [sts.Value(base - 1.0), sts.Value(base + 1.0), sts.Value(base + 3599.0),
             sts.Value(base + 3601.0), sts.Value(base + 10801.0)];
  }

  /** The interpolation unit test: complex points at base + 0 h, 1 h and 3 h. */
  method LerpTest(base: real) returns (vals: seq<Complex>)
    ensures vals == [Complex(0.0, 0.0), Complex(0.0, 0.0), Complex(1.5, 0.5), Complex(3.0, 1.0),
                     Complex(6.5, 6.0), Complex(10.0, 11.0), Complex(10.0, 11.0)]
  {
    var lts := new LerpTimeSeries();
    lts.AddPoint(base, Complex(0.0, 0.0));
    PutAfterLast(lts.points, base + 3600.0, Complex(3.0, 1.0));
    lts.AddPoint(base + 3600.0, Complex(3.0, 1.0));
    PutAfterLast(lts.points, base + 10800.0, Complex(10.0, 11.0));
    lts.AddPoint(base + 10800.0, Complex(10.0, 11.0));
    assert lts.points == [(base, Complex(0.0, 0.0)), (base + 3600.0, Complex(3.0, 1.0)),
                          (base + 10800.0, Complex(10.0, 11.0))];
    var p := lts.points;
    assert lts.Value(base) == Complex(0.0, 0.0) by { LerpExact(lts, 0); }
    assert lts.Value(base + 3600.0) == Complex(3.0, 1.0) by { LerpExact(lts, 1); }
    assert (base + 1800.0 - base) / (base + 3600.0 - base) == 0.5;
    assert lts.Value(base + 1800.0) == Interpolate(p[0], p[1], base + 1800.0) == Complex(1.5, 0.5);
    assert (base + 7200.0 - (base + 3600.0)) / (base + 10800.0 - (base + 3600.0)) == 0.5;
    assert lts.Value(base + 7200.0) == Interpolate(p[1], p[2], base + 7200.0) == Complex(6.5, 6.0);
    vals := [lts.Value(base - 3600.0), lts.Value(base), lts.Value(base + 1800.0),
             lts.Value(base + 3600.0), lts.Value(base + 7200.0), lts.Value(base + 10800.0),
             lts.Value(base + 14401.0)];
  }

  /** The function unit test: twice the time in seconds. */
  lemma FunctionTest()
    ensures var fts := FunctionTimeSeries((t: real) => 2.0 * t);
      fts.Value(-1.0) == -2.0 && fts.Value(3.0) == 6.0
  {
  }
}
