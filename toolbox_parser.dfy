// The simulation-file parser of SmartGridToolbox/Parser.cc: the checks of
// `parseGlobal` and the keyword tables and branches of `parseTimeSeries`.
// The reading of the data file is given as its lines already split into
// (time, value); the parsing of dates and time zones are parameters. The
// matrix decoder and `assertFieldPresent` of that file are the same as the
// network parser's, in module YamlDecode; its `expandName` and loop nodes
// are in module NameExpansion.

module ToolboxParser {
  import opened Shared
  import opened SimTime
  import opened YamlDecode
  import opened TimeSeriesParser
  import TS = TimeSeries

  /** `as<std::string>()`: the text of a scalar; anything else throws. */
  function Text(n: YNode): Option<string>
  {
    if n.Scalar? then Some(n.text) else None
  }

  // ------------------------------------------------------- parseGlobal

  /** What `parseGlobal` sets on the model and the simulation. */
  datatype Global<T> = Global(name: string, start: T, end: T, latLong: Option<(real, real)>, timezone: Option<string>)

  /** A lat_long node that is accepted: a sequence of exactly two numbers. */
  predicate LatLongOk(nd: YNode, toReal: string -> Option<real>)
  {
    nd.YSeq? && |nd.items| == 2 && As(toReal, nd.items[0]).Some? && As(toReal, nd.items[1]).Some?
  }

  /** `parseGlobal`: start and end times must be present and parse; the
      configuration name defaults to "null"; a lat_long, if given, must be
      two numbers; a time zone, if given, must be one the time-zone
      library accepts (`validTz`). Any failure is fatal. */
  method ParseGlobal<T>(top: YNode, parseTime: YNode -> Option<T>, toReal: string -> Option<real>,
                        validTz: string -> bool) returns (r: Result<Global<T>>)
    ensures Field(top, "start_time") == Undefined ==> r == Err("Parsing: start_time field not present.")
    ensures Field(top, "start_time") != Undefined && Field(top, "end_time") == Undefined
            ==> r == Err("Parsing: end_time field not present.")
    ensures r.Ok? <==>
              Field(top, "start_time") != Undefined && Field(top, "end_time") != Undefined
              && (Field(top, "configuration_name") == Undefined || Field(top, "configuration_name").Scalar?)
              && parseTime(Field(top, "start_time")).Some? && parseTime(Field(top, "end_time")).Some?
              && (Field(top, "lat_long") == Undefined || LatLongOk(Field(top, "lat_long"), toReal))
              && (Field(top, "timezone") == Undefined
                  || (Field(top, "timezone").Scalar? && validTz(Field(top, "timezone").text)))
    ensures r.Ok? ==> r.value.name == (if Field(top, "configuration_name") == Undefined then "null"
                                       else Field(top, "configuration_name").text)
    ensures r.Ok? ==> Some(r.value.start) == parseTime(Field(top, "start_time"))
                      && Some(r.value.end) == parseTime(Field(top, "end_time"))
    ensures r.Ok? ==> (r.value.latLong.None? <==> Field(top, "lat_long") == Undefined)
    ensures r.Ok? && r.value.latLong.Some? ==>
              Some(r.value.latLong.value.0) == As(toReal, Field(top, "lat_long").items[0])
              && Some(r.value.latLong.value.1) == As(toReal, Field(top, "lat_long").items[1])
    ensures r.Ok? ==> r.value.timezone == Text(Field(top, "timezone"))
  {
    var required := RequiredGlobals(Field(top, "start_time"), Field(top, "end_time"),
                                    Field(top, "configuration_name"), parseTime);
    if required.Err? {
      return Err(required.msg);
    }
    var latLong := ParseLatLong(Field(top, "lat_long"), toReal);
    if latLong.Err? {
      return Err(latLong.msg);
    }
    var nodeTz := Field(top, "timezone");
    if nodeTz != Undefined && !(nodeTz.Scalar? && validTz(nodeTz.text)) {
      return Err("Couldn't parse timezone");
    }
    var (name, start, end) := required.value;
    r := Ok(Global(name, start, end, latLong.value, Text(nodeTz)));
  }

  /** The first part of `parseGlobal`, given the nodes of start_time,
      end_time and configuration_name: the two times and the name. */
  method RequiredGlobals<T>(startNode: YNode, endNode: YNode, configNode: YNode, parseTime: YNode -> Option<T>)
    returns (r: Result<(string, T, T)>)
    ensures startNode == Undefined ==> r == Err("Parsing: start_time field not present.")
    ensures startNode != Undefined && endNode == Undefined ==> r == Err("Parsing: end_time field not present.")
    ensures r.Ok? <==>
              startNode != Undefined && endNode != Undefined
              && (configNode == Undefined || configNode.Scalar?)
              && parseTime(startNode).Some? && parseTime(endNode).Some?
    ensures r.Ok? ==> r.value.0 == if configNode == Undefined then "null" else configNode.text
    ensures r.Ok? ==> Some(r.value.1) == parseTime(startNode) && Some(r.value.2) == parseTime(endNode)
  {
    if startNode == Undefined {
      return Err("Parsing: start_time field not present.");
    }
    if endNode == Undefined {
      return Err("Parsing: end_time field not present.");
    }
    var name := "null";
    if configNode != Undefined {
      if !configNode.Scalar? {
        return Err("Bad conversion");
      }
      name := configNode.text;
    }
    var start := parseTime(startNode);
    if start.None? {
      return Err("Couldn't parse start date");
    }
    var end := parseTime(endNode);
    if end.None? {
      return Err("Couldn't parse end date");
    }
    r := Ok((name, start.value, end.value));
  }

  /** The lat_long part of `parseGlobal`: absent, or two numbers. */
  method ParseLatLong(nd: YNode, toReal: string -> Option<real>) returns (r: Result<Option<(real, real)>>)
    ensures r.Ok? <==> nd == Undefined || LatLongOk(nd, toReal)
    ensures r.Ok? ==> (r.value.None? <==> nd == Undefined)
    ensures r.Ok? && r.value.Some? ==>
              Some(r.value.value.0) == As(toReal, nd.items[0]) && Some(r.value.value.1) == As(toReal, nd.items[1])
  {
    if nd == Undefined {
      return Ok(None);
    }
    var llvec := DecodeVector(nd, toReal);
    if llvec.Err? {
      return Err("Couldn't parse lat_long");
    }
    if |llvec.value| != 2 {
      // A bare `throw;` with no exception being handled terminates.
      return Err("terminate");
    }
    r := Ok(Some((llvec.value[0], llvec.value[1])));
  }

  // --------------------------------------------------- parseTimeSeries

  /** The value_type table: (isComplex, isVector) for the four keywords;
      anything else is fatal. */
  function ValTypeFlags(s: string): Result<(bool, bool)>
  {
    if s == "real_scalar" then Ok((false, false))
    else if s == "complex_scalar" then Ok((true, false))
    else if s == "real_vector" then Ok((false, true))
    else if s == "complex_vector" then Ok((true, true))
    else Err("Bad data_type for time series.")
  }

  /** The table accepts the same keywords as the plugin parser's
      `getValType`, and its two flags say which of the four it is. */
  lemma ValTypeFlagsAgree(s: string)
    ensures ValTypeFlags(s).Ok? <==> GetValType(s).Ok?
    ensures ValTypeFlags(s).Ok? ==>
              ValTypeFlags(s).value.0 == (GetValType(s).value in {ComplexScalar, ComplexVector})
              && ValTypeFlags(s).value.1 == (GetValType(s).value in {RealVector, ComplexVector})
  {
  }

  /** The interpolation table: the series made for each keyword, none for
      an unknown one (the pointer stays null). */
  function InterpKind(s: string): Option<SeriesKind>
  {
    if s == "stepwise" then Some(StepwiseSeries)
    else if s == "lerp" then Some(LerpSeries)
    else if s == "spline" then Some(SplineSeries)
    else None
  }

  /** For real scalars the table makes the series the plugin parser's
      `initDataTimeSeries` makes, for the same keywords. */
  lemma InterpKindAgrees(s: string)
    ensures InterpKind(s).Some? <==> GetInterpType(s).Ok?
    ensures InterpKind(s).Some? ==> InterpKind(s) == Some(InitDataTimeSeries(RealScalar, GetInterpType(s).value).value)
  {
  }

  /** The data of a time series that are not in the YAML: whether the data
      file opens, its lines as (time, value), and the reading of
      relative_to_time as a local time in ticks (None where it throws). */
  datatype DataInputs = DataInputs(fileOpens: bool, lines: seq<(real, real)>, relTo: string -> Option<int>)

  /** A series to be acquired by the model under its name: a constant, or
      a data table of the given kind, None being the null pointer. */
  datatype TsPlan =
    | ConstPlan(name: string, v: real)
    | DataPlan(name: string, kind: Option<SeriesKind>, points: TS.Points<real>)

  /** The fields every series needs: the name and the value type. */
  function Header(node: YNode): Result<(string, (bool, bool))>
  {
    if AssertFieldPresent(node, "name").Err? then Err(AssertFieldPresent(node, "name").msg)
    else if AssertFieldPresent(node, "value_type").Err? then Err(AssertFieldPresent(node, "value_type").msg)
    else if Text(Field(node, "name")).None? || Text(Field(node, "value_type")).None? then Err("Bad conversion")
    else match ValTypeFlags(Text(Field(node, "value_type")).value)
      case Err(e) => Err(e)
      case Ok(flags) => Ok((Text(Field(node, "name")).value, flags))
  }

  /** A constant series: only a real scalar is supported. */
  function ConstSeries(node: YNode, name: string, flags: (bool, bool), toReal: string -> Option<real>): Result<TsPlan>
  {
    if AssertFieldPresent(node, "const_value").Err? then Err(AssertFieldPresent(node, "const_value").msg)
    else if As(toReal, Field(node, "const_value")).None? then Err("Bad conversion")
    else if flags != (false, false) then Err("Time series not yet supported.")
    else Ok(ConstPlan(name, As(toReal, Field(node, "const_value")).value))
  }

  /** The checks of a data series up to the choice of interpolation: four
      fields, the file, the reference time and the time unit. The result
      is the interpolation keyword, the unit's factor and the reference
      time in ticks. */
  function DataSetup(node: YNode, data: DataInputs): Result<(string, real, int)>
  {
    if AssertFieldPresent(node, "data_file").Err? then Err(AssertFieldPresent(node, "data_file").msg)
    else if AssertFieldPresent(node, "interp_type").Err? then Err(AssertFieldPresent(node, "interp_type").msg)
    else if AssertFieldPresent(node, "relative_to_time").Err? then Err(AssertFieldPresent(node, "relative_to_time").msg)
    else if AssertFieldPresent(node, "time_unit").Err? then Err(AssertFieldPresent(node, "time_unit").msg)
    else if Text(Field(node, "data_file")).None? then Err("Bad conversion")
    else if !data.fileOpens then Err("Could not open the timeseries input file.")
    else if Text(Field(node, "interp_type")).None? || Text(Field(node, "relative_to_time")).None? then
      Err("Bad conversion")
    else if data.relTo(Text(Field(node, "relative_to_time")).value).None? then Err("Bad time")
    else if Text(Field(node, "time_unit")).None? then Err("Bad conversion")
    else match ToSecsFactor(Text(Field(node, "time_unit")).value)
      case Err(e) => Err(e)
      case Ok(toSecs) =>
        Ok((Text(Field(node, "interp_type")).value, toSecs,
            data.relTo(Text(Field(node, "relative_to_time")).value).value))
  }

  /** The table read from the file: one `addPoint` per line, at t0 plus
      the line's time in the unit. */
  function DataPoints(lines: seq<(real, real)>, t0: int, toSecs: real): TS.Points<real>
  {
    PutLines([], lines, Ticks(t0), toSecs)
  }

  /** The last step of a data series as written: an unknown interpolation
      leaves the series null, and the first line read through it is a
      null dereference; with no lines the null series is acquired. */
  function DataSeriesAsWritten(name: string, flags: (bool, bool), interp: string, toSecs: real, t0: int,
                               lines: seq<(real, real)>): Result<TsPlan>
  {
    if flags != (false, false) then Err("Time series not yet supported.")
    else if InterpKind(interp).None? && |lines| > 0 then Err("null dereference")
    else Ok(DataPlan(name, InterpKind(interp), DataPoints(lines, t0, toSecs)))
  }

  /** As intended: an unknown interpolation is fatal like every other
      unknown keyword of the file. */
  function DataSeries(name: string, flags: (bool, bool), interp: string, toSecs: real, t0: int,
                      lines: seq<(real, real)>): Result<TsPlan>
  {
    if flags != (false, false) then Err("Time series not yet supported.")
    else if InterpKind(interp).None? then Err("Bad interp_type for time series.")
    else Ok(DataPlan(name, InterpKind(interp), DataPoints(lines, t0, toSecs)))
  }

  /** `parseTimeSeries` as written. */
  function ParseTimeSeriesAsWritten(tsType: string, node: YNode, toReal: string -> Option<real>,
                                    data: DataInputs): Result<TsPlan>
  {
    match Header(node)
    case Err(e) => Err(e)
    case Ok((name, flags)) =>
      if tsType == "const_time_series" then ConstSeries(node, name, flags, toReal)
      else if tsType == "data_time_series" then
        match DataSetup(node, data)
        case Err(e) => Err(e)
        case Ok((interp, toSecs, t0)) => DataSeriesAsWritten(name, flags, interp, toSecs, t0, data.lines)
      else Err("Bad time series type " + tsType + ".")
  }

  /** `parseTimeSeries` with the unknown interpolation rejected. */
  function ParseTimeSeries(tsType: string, node: YNode, toReal: string -> Option<real>,
                           data: DataInputs): Result<TsPlan>
  {
    match Header(node)
    case Err(e) => Err(e)
    case Ok((name, flags)) =>
      if tsType == "const_time_series" then ConstSeries(node, name, flags, toReal)
      else if tsType == "data_time_series" then
        match DataSetup(node, data)
        case Err(e) => Err(e)
        case Ok((interp, toSecs, t0)) => DataSeries(name, flags, interp, toSecs, t0, data.lines)
      else Err("Bad time series type " + tsType + ".")
  }

  /** Whatever series is made, its value type was "real_scalar", its type
      one of the two keywords, and its name the name field; a data series
      is made with a known interpolation. */
  lemma ParsedSeries(tsType: string, node: YNode, toReal: string -> Option<real>, data: DataInputs)
    ensures ParseTimeSeries(tsType, node, toReal, data).Ok? ==>
              Text(Field(node, "value_type")) == Some("real_scalar")
              && Text(Field(node, "name")) == Some(ParseTimeSeries(tsType, node, toReal, data).value.name)
              && (tsType == "const_time_series" <==> ParseTimeSeries(tsType, node, toReal, data).value.ConstPlan?)
              && (tsType == "data_time_series" <==> ParseTimeSeries(tsType, node, toReal, data).value.DataPlan?)
    ensures ParseTimeSeries(tsType, node, toReal, data).Ok? && ParseTimeSeries(tsType, node, toReal, data).value.DataPlan?
            ==> ParseTimeSeries(tsType, node, toReal, data).value.kind.Some?
    ensures tsType != "const_time_series" && tsType != "data_time_series"
            ==> ParseTimeSeries(tsType, node, toReal, data).Err?
  {
  }

  /** A constant real series holds the number in const_value. */
  lemma ConstSeriesValue(tsType: string, node: YNode, toReal: string -> Option<real>, data: DataInputs)
    requires ParseTimeSeries(tsType, node, toReal, data).Ok?
    requires ParseTimeSeries(tsType, node, toReal, data).value.ConstPlan?
    ensures Some(ParseTimeSeries(tsType, node, toReal, data).value.v) == As(toReal, Field(node, "const_value"))
  {
  }

  /** The table of a data series is ordered, and at each time holds the
      value of the last line read at that time. */
  lemma DataPointsSpec(lines: seq<(real, real)>, t0: int, toSecs: real, k: real)
    ensures TS.Increasing(DataPoints(lines, t0, toSecs))
    ensures TS.Lookup(DataPoints(lines, t0, toSecs), k) == LastLineAt(lines, k, Ticks(t0), toSecs)
  {
    PutLinesSpec([], lines, Ticks(t0), toSecs, k);
  }

  /** The two versions differ only where the interpolation keyword is
      unknown: as written, no lines give a null series and any line a
      null dereference; as intended, the keyword is rejected. */
  lemma UnknownInterpolation(name: string, interp: string, toSecs: real, t0: int, lines: seq<(real, real)>)
    requires interp !in {"stepwise", "lerp", "spline"}
    ensures DataSeriesAsWritten(name, (false, false), interp, toSecs, t0, lines)
            == if |lines| == 0 then Ok(DataPlan(name, None, [])) else Err("null dereference")
    ensures DataSeries(name, (false, false), interp, toSecs, t0, lines) == Err("Bad interp_type for time series.")
  {
  }

  /** With a known interpolation, the corrected parser agrees with the
      one as written. */
  lemma KnownInterpolationAgrees(tsType: string, node: YNode, toReal: string -> Option<real>, data: DataInputs)
    requires DataSetup(node, data).Ok? ==> DataSetup(node, data).value.0 in {"stepwise", "lerp", "spline"}
    ensures ParseTimeSeries(tsType, node, toReal, data) == ParseTimeSeriesAsWritten(tsType, node, toReal, data)
  {
  }
}
