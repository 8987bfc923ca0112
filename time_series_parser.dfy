// The keyword tables and data loading of SgtSim/TimeSeriesParserPlugin.cc.
// `Log().fatal()` aborts the parse; here it is an `Err`. The data file is
// given as its lines already split into a time (in the file's time unit)
// and a value.

module TimeSeriesParser {
  import opened Shared
  import opened SimTime
  import opened TimeSeries

  /** `posix_time::time_duration` counts microseconds. */
  const TicksPerSecond: int := 1000000

  /** `dSeconds`: a finite duration in seconds. */
  function DSeconds(t: Time): real
    requires t.Ticks?
  {
    t.n as real / TicksPerSecond as real
  }

  /** `getToSecsFactor`: seconds per unit of "s", "m", "h" or "d"; any other
      unit is fatal. */
  function ToSecsFactor(unit: string): (r: Result<real>)
    ensures r.Ok? <==> unit in ["s", "m", "h", "d"]
    ensures r.Ok? ==> r.value >= 1.0
    ensures r.Ok? && r.value == 1.0 ==> unit == "s"
  {
    if unit == "s" then Ok(1.0)
    else if unit == "m" then Ok(60.0)
    else if unit == "h" then Ok(3600.0)
    else if unit == "d" then Ok(86400.0)
    else Err("Invalid time unit in data_time_series. Aborting.")
  }

  /** The units in increasing size have increasing factors. */
  lemma ToSecsFactorIncreasing()
    ensures ToSecsFactor("s").value < ToSecsFactor("m").value
            < ToSecsFactor("h").value < ToSecsFactor("d").value
    ensures ToSecsFactor("d").value == 24.0 * ToSecsFactor("h").value
                                   == 1440.0 * ToSecsFactor("m").value
  {
  }

  datatype TsType = ConstTs | DataTs
  datatype ValType = RealScalar | ComplexScalar | RealVector | ComplexVector
  datatype InterpType = Stepwise | Lerp | Spline

  function TsTypeName(t: TsType): string
  {
    match t
    case ConstTs => "const_time_series"
    case DataTs => "data_time_series"
  }

  function ValTypeName(v: ValType): string
  {
    match v
    case RealScalar => "real_scalar"
    case ComplexScalar => "complex_scalar"
    case RealVector => "real_vector"
    case ComplexVector => "complex_vector"
  }

  function InterpTypeName(i: InterpType): string
  {
    match i
    case Stepwise => "stepwise"
    case Lerp => "lerp"
    case Spline => "spline"
  }

  /** `getTsType`: the type whose keyword is s; an unknown keyword is fatal. */
  function GetTsType(s: string): (r: Result<TsType>)
    ensures r.Ok? ==> TsTypeName(r.value) == s
  {
    if s == "const_time_series" then Ok(ConstTs)
    else if s == "data_time_series" then Ok(DataTs)
    else Err("Bad time series type " + s)
  }

  /** `getValType`: the value type whose keyword is s, else fatal. */
  function GetValType(s: string): (r: Result<ValType>)
    ensures r.Ok? ==> ValTypeName(r.value) == s
  {
    if s == "real_scalar" then Ok(RealScalar)
    else if s == "complex_scalar" then Ok(ComplexScalar)
    else if s == "real_vector" then Ok(RealVector)
    else if s == "complex_vector" then Ok(ComplexVector)
    else Err("Bad value_type " + s + " for time series.")
  }

  /** `getInterpType`: the interpolation whose keyword is s, else fatal. */
  function GetInterpType(s: string): (r: Result<InterpType>)
    ensures r.Ok? ==> InterpTypeName(r.value) == s
  {
    if s == "stepwise" then Ok(Stepwise)
    else if s == "lerp" then Ok(Lerp)
    else if s == "spline" then Ok(Spline)
    else Err("Bad interp_type " + s + " for time series.")
  }

  /** Every keyword is read back as the type it names, so the three tables
      accept exactly the keywords of the types. */
  lemma KeywordRoundTrip(t: TsType, v: ValType, i: InterpType)
    ensures GetTsType(TsTypeName(t)) == Ok(t)
    ensures GetValType(ValTypeName(v)) == Ok(v)
    ensures GetInterpType(InterpTypeName(i)) == Ok(i)
  {
    match t
    case ConstTs => {}
    case DataTs => {}
  }

  /** Which table series `initDataTimeSeries` makes. */
  datatype SeriesKind = StepwiseSeries | LerpSeries | SplineSeries

  /** `initDataTimeSeries<T>`: a stepwise or interpolating table for any
      value type; a spline only for real scalars (the `double`
      specialisation), fatal otherwise. */
  function InitDataTimeSeries(valType: ValType, interp: InterpType): (r: Result<SeriesKind>)
    ensures r.Ok? <==> (interp == Spline ==> valType == RealScalar)
    ensures r.Ok? ==> (r.value == SplineSeries <==> interp == Spline)
    ensures r.Ok? ==> (r.value == LerpSeries <==> interp == Lerp)
  {
    if valType == RealScalar && interp == Spline then Ok(SplineSeries)
    else match interp
      case Stepwise => Ok(StepwiseSeries)
      case Lerp => Ok(LerpSeries)
      case Spline => Err("Spline data time series can only be used with real data")
  }

  /** Conversion of a double to an integer type: toward zero. */
  function TruncToZero(x: real): (r: int)
    ensures 0.0 <= x ==> r as real <= x < r as real + 1.0
    ensures x < 0.0 ==> r as real - 1.0 < x <= r as real
  {
    if x >= 0.0 then x.Floor else -((-x).Floor)
  }

  /** `readTime`: t0 plus the time read, converted to seconds and passed to
      `posix_time::seconds`, which takes a whole number of seconds. */
  function ReadTime(secs: real, t0: Time, toSecs: real): (r: Time)
    ensures t0.Ticks? ==> r.Ticks? && DSeconds(r) == DSeconds(t0) + TruncToZero(secs * toSecs) as real
    ensures t0.IsSpecial() ==> r == t0
  {
    Add(t0, Ticks(TruncToZero(secs * toSecs) * TicksPerSecond))
  }

  /** A time that is a whole number of seconds is read exactly. */
  lemma ReadTimeWholeSeconds(secs: real, t0: Time, toSecs: real, k: int)
    requires t0.Ticks? && secs * toSecs == k as real
    ensures DSeconds(ReadTime(secs, t0, toSecs)) == DSeconds(t0) + secs * toSecs
  {
    TruncWhole(k);
  }

  lemma TruncWhole(k: int)
    ensures TruncToZero(k as real) == k
  {
  }

  lemma TruncMonotone(x: real, y: real)
    requires x <= y
    ensures TruncToZero(x) <= TruncToZero(y)
  {
  }

  /** Later times in the file are read as times no earlier. */
  lemma ReadTimeMonotone(s1: real, s2: real, t0: Time, toSecs: real)
    requires t0.Ticks? && s1 <= s2 && toSecs > 0.0
    ensures LessEq(ReadTime(s1, t0, toSecs), ReadTime(s2, t0, toSecs))
  {
    assert s1 * toSecs <= s2 * toSecs;
    TruncMonotone(s1 * toSecs, s2 * toSecs);
  }

  /** The table key of a data line. */
  function LineKey(secs: real, t0: Time, toSecs: real): real
    requires t0.Ticks?
  {
    DSeconds(ReadTime(secs, t0, toSecs))
  }

  /** The table after the `addPoint` of every line, in file order. */
  function PutLines<V>(p: Points<V>, lines: seq<(real, V)>, t0: Time, toSecs: real): Points<V>
    requires t0.Ticks?
  {
    if |lines| == 0 then p
    else
      var last := lines[|lines| - 1];
      Put(PutLines(p, lines[..|lines| - 1], t0, toSecs), LineKey(last.0, t0, toSecs), last.1)
  }

  /** The value of the last line whose time reads as key k. */
  function LastLineAt<V>(lines: seq<(real, V)>, k: real, t0: Time, toSecs: real): Option<V>
    requires t0.Ticks?
  {
    if |lines| == 0 then None
    else if LineKey(lines[|lines| - 1].0, t0, toSecs) == k then Some(lines[|lines| - 1].1)
    else LastLineAt(lines[..|lines| - 1], k, t0, toSecs)
  }

  /** Loading keeps the table ordered, and each time ends up holding the
      value of the last line read at it; times no line names keep their old
      value. */
  lemma {:induction false} PutLinesSpec<V>(p: Points<V>, lines: seq<(real, V)>, t0: Time, toSecs: real, k: real)
    requires Increasing(p) && t0.Ticks?
    ensures Increasing(PutLines(p, lines, t0, toSecs))
    ensures Lookup(PutLines(p, lines, t0, toSecs), k)
            == if LastLineAt(lines, k, t0, toSecs).Some? then LastLineAt(lines, k, t0, toSecs) else Lookup(p, k)
  {
    if |lines| > 0 {
      var last := lines[|lines| - 1];
      PutLinesSpec(p, lines[..|lines| - 1], t0, toSecs, k);
      PutSpec(PutLines(p, lines[..|lines| - 1], t0, toSecs), LineKey(last.0, t0, toSecs), last.1);
    }
  }

  /** The read loop of a stepwise data series: one `addPoint` per line. */
  method LoadStepwise<V>(dts: StepwiseTimeSeries<V>, lines: seq<(real, V)>, t0: Time, toSecs: real)
    requires dts.Valid() && t0.Ticks?
    modifies dts
    ensures dts.Valid()
    ensures dts.points == PutLines(old(dts.points), lines, t0, toSecs)
  {
    var i := 0;
    while i < |lines|
      invariant 0 <= i <= |lines|
      invariant dts.Valid()
      invariant dts.points == PutLines(old(dts.points), lines[..i], t0, toSecs)
    {
      assert lines[..i + 1][..i] == lines[..i];
      dts.AddPoint(LineKey(lines[i].0, t0, toSecs), lines[i].1);
      i := i + 1;
    }
    assert lines[..i] == lines;
  }

  /** The read loop of an interpolating data series. */
  method LoadLerp(dts: LerpTimeSeries, lines: seq<(real, Complex)>, t0: Time, toSecs: real)
    requires dts.Valid() && t0.Ticks?
    modifies dts
    ensures dts.Valid()
    ensures dts.points == PutLines(old(dts.points), lines, t0, toSecs)
  {
    var i := 0;
    while i < |lines|
      invariant 0 <= i <= |lines|
      invariant dts.Valid()
      invariant dts.points == PutLines(old(dts.points), lines[..i], t0, toSecs)
    {
      assert lines[..i + 1][..i] == lines[..i];
      dts.AddPoint(LineKey(lines[i].0, t0, toSecs), lines[i].1);
      i := i + 1;
    }
    assert lines[..i] == lines;
  }
}
