// The IEEE Common Data Format reader of SmartGridToolbox/CdfParser.cc.
// A CDF file is read line by line: a title line holding the system's MVA
// base, a "BUS" header, fixed-column bus lines up to a "-999" line, a
// "BRANCH" header and fixed-column branch lines up to another "-999"
// line. The bus lines are gathered in a map keyed by bus number; busses
// are then made in increasing order of number, each with a ZIP load, and
// the branches in file order, each joining two of those busses.
//
// The file system is a map from file name to the file's lines, and the
// conversion of a field's text to a number (a string-stream extraction)
// is a pair of functions given to the parser, as are `std::polar` and pi.

module CdfParser {
  import opened Shared
  import PowerFlow
  import Calculator
  import MP = MatpowerParser
  import MatpowerPlugin
  import NameExpansion

  const MW := 1000000.0

  const Invalid := "The CDF file is not in the correct format."
  const OutOfRange := "std::out_of_range: basic_string::substr"
  const Unterminated := "the file ends before the section's -999 line"

  // ---------------------------------------------------------------- settings

  /** The fields of the parser's YAML node that it reads; a missing field
      is None. The phases are given by their number. */
  datatype CdfNode = CdfNode(
    inputFile: Option<string>, networkName: Option<string>, defaultVBase: Option<real>,
    phases: Option<nat>, usePerUnit: Option<bool>, freq: Option<real>)

  datatype Settings = Settings(
    inputFile: string, networkName: string, defaultVBase: real,
    nPhase: nat, usePerUnit: bool, freq: real)

  /** The input file, network name and default base voltage must be
      given; the phases default to a single balanced phase, the units to
      SI and the frequency to 50 Hz. */
  function SettingsOf(nd: CdfNode): (r: Result<Settings>)
    ensures r.Ok? <==> nd.inputFile.Some? && nd.networkName.Some? && nd.defaultVBase.Some?
    ensures r.Ok? ==> r.value.inputFile == nd.inputFile.value && r.value.networkName == nd.networkName.value
                      && r.value.defaultVBase == nd.defaultVBase.value
    ensures r.Ok? && nd.phases.None? ==> r.value.nPhase == 1
    ensures r.Ok? && nd.phases.Some? ==> r.value.nPhase == nd.phases.value
    ensures r.Ok? ==> (r.value.usePerUnit <==> nd.usePerUnit == Some(true))
    ensures r.Ok? ==> r.value.freq == (if nd.freq.Some? then nd.freq.value else 50.0)
  {
    if nd.inputFile.None? then Err("input_file is missing")
    else if nd.networkName.None? then Err("network_name is missing")
    else if nd.defaultVBase.None? then Err("default_V_base is missing")
    else
      Ok(Settings(nd.inputFile.value, nd.networkName.value, nd.defaultVBase.value,
                  if nd.phases.Some? then nd.phases.value else 1,
                  if nd.usePerUnit.Some? then nd.usePerUnit.value else false,
                  if nd.freq.Some? then nd.freq.value else 50.0))
  }

  // ------------------------------------------------------------------ columns

  /** A fixed-width field of a line: its first column, counting from 0,
      and its width. */
  datatype Column = Column(start: nat, width: nat)

  function End(c: Column): nat { c.start + c.width }

  /** `line.substr(pos, n)` for a position inside the line or at its end:
      at most n characters from pos. */
  function Field(line: string, pos: nat, n: nat): (f: string)
    requires pos <= |line|
    ensures |f| == Min(n, |line| - pos)
    ensures forall i :: 0 <= i < |f| ==> f[i] == line[pos + i]
  {
    line[pos..Min(pos + n, |line|)]
  }

  function Prefix(line: string, n: nat): string
  {
    Field(line, 0, n)
  }

  function Read(line: string, c: Column): string
    requires c.start <= |line|
  {
    Field(line, c.start, c.width)
  }

  // The columns of a bus line, per the IEEE Common Data Format.
  const BusNumberCol := Column(0, 4)
  const BusTypeCol := Column(24, 2)
  const VmCol := Column(27, 6)
  const VaCol := Column(33, 7)
  const PdCol := Column(40, 9)
  const QdCol := Column(49, 10)
  const PgCol := Column(59, 8)
  const QgCol := Column(67, 8)
  const KVBaseCol := Column(76, 7)
  const QMaxCol := Column(90, 8)
  const QMinCol := Column(98, 8)
  const GsCol := Column(106, 8)
  const BsCol := Column(114, 8)

  const BusColumns := [BusNumberCol, BusTypeCol, VmCol, VaCol, PdCol, QdCol, PgCol, QgCol,
                       KVBaseCol, QMaxCol, QMinCol, GsCol, BsCol]

  // The columns of a branch line.
  const FromCol := Column(0, 4)
  const ToCol := Column(5, 4)
  const RCol := Column(19, 10)
  const XCol := Column(29, 11)
  const BCol := Column(40, 10)
  const TapCol := Column(76, 6)
  const ShiftCol := Column(83, 7)

  const BranchColumns := [FromCol, ToCol, RCol, XCol, BCol, TapCol, ShiftCol]

  /** Columns in increasing order that do not overlap. */
  predicate Ordered(cols: seq<Column>)
  {
    forall i :: 0 <= i < |cols| - 1 ==> End(cols[i]) <= cols[i + 1].start
  }

  predicate Fits(cols: seq<Column>, texts: seq<string>)
    requires |texts| == |cols|
  {
    forall i :: 0 <= i < |cols| ==> |texts[i]| == cols[i].width
  }

  function Spaces(k: nat): (s: string)
    ensures |s| == k
  {
    seq(k, _ => ' ')
  }

  /** The line that holds each text in its column and spaces between. */
  function Layout(cols: seq<Column>, texts: seq<string>): (line: string)
    requires |texts| == |cols| && Fits(cols, texts) && Ordered(cols)
    ensures |line| == if |cols| == 0 then 0 else End(cols[|cols| - 1])
    decreases |cols|
  {
    if |cols| == 0 then ""
    else
      var n := |cols| - 1;
      assert Ordered(cols[..n]) && Fits(cols[..n], texts[..n]);
      var prev := Layout(cols[..n], texts[..n]);
      assert n > 0 ==> End(cols[n - 1]) <= cols[n].start;
      prev + Spaces(cols[n].start - |prev|) + texts[n]
  }

  /** Each column of a laid-out line reads back its own text: the columns
      do not overlap, so no field takes characters of another. */
  lemma {:induction false} LayoutReadsBack(cols: seq<Column>, texts: seq<string>, i: nat)
    requires |texts| == |cols| && Fits(cols, texts) && Ordered(cols) && i < |cols|
    ensures End(cols[i]) <= |Layout(cols, texts)|
    ensures Read(Layout(cols, texts), cols[i]) == texts[i]
  {
    var n := |cols| - 1;
    LayoutLast(cols, texts);
    var prev := Layout(cols[..n], texts[..n]);
    var line := Layout(cols, texts);
    if i < n {
      LayoutReadsBack(cols[..n], texts[..n], i);
      ReadInPrefix(prev, Spaces(cols[n].start - |prev|) + texts[n], line, cols[i]);
    } else {
      ReadAtEnd(prev + Spaces(cols[n].start - |prev|), texts[n], line, cols[n]);
    }
  }

  /** The line of all columns is the line of all but the last, padded to the last
      column's start, then the last text. */
  lemma LayoutLast(cols: seq<Column>, texts: seq<string>)
    requires |texts| == |cols| && Fits(cols, texts) && Ordered(cols) && |cols| > 0
    ensures Ordered(cols[..|cols| - 1]) && Fits(cols[..|cols| - 1], texts[..|cols| - 1])
    ensures |Layout(cols[..|cols| - 1], texts[..|cols| - 1])| <= cols[|cols| - 1].start
    ensures Layout(cols, texts) ==
      Layout(cols[..|cols| - 1], texts[..|cols| - 1])
        + Spaces(cols[|cols| - 1].start - |Layout(cols[..|cols| - 1], texts[..|cols| - 1])|)
        + texts[|cols| - 1]
  {
    var n := |cols| - 1;
    assert Ordered(cols[..n]) && Fits(cols[..n], texts[..n]);
    assert n > 0 ==> End(cols[n - 1]) <= cols[n].start;
  }

  /** A column that lies inside a prefix of the line reads the same from the prefix. */
  lemma ReadInPrefix(prev: string, rest: string, line: string, c: Column)
    requires line == prev + rest && End(c) <= |prev|
    ensures Read(line, c) == Read(prev, c)
  {
    assert line[..|prev|] == prev;
  }

  /** The last text, placed at its column's start, is what that column reads. */
  lemma ReadAtEnd(head: string, text: string, line: string, c: Column)
    requires line == head + text && c.start == |head| && c.width == |text|
    ensures Read(line, c) == text
  {
    assert line[c.start..] == text;
  }

  lemma BusColumnsOrdered()
    ensures Ordered(BusColumns) && |BusColumns| == 13 && End(BusColumns[12]) == 122
  {
  }

  lemma BranchColumnsOrdered()
    ensures Ordered(BranchColumns) && |BranchColumns| == 7 && End(BranchColumns[6]) == 90
  {
  }

  // --------------------------------------------------------------- bus lines

  /** The stream extraction of a number from a field's text. */
  datatype Readers = Readers(toReal: string -> real, toInt: string -> int)

  /** What a line is read with: the default base voltage, the number
      readers, and `std::polar` and pi. */
  datatype Env = Env(defaultVBase: real, rd: Readers, polar: (real, real) -> Complex, pi: real)

  /** A bus line's values: the CDF bus type, the base voltage in volts,
      the voltage in per-unit, the load and generation in VA as
      injections, the reactive limits in VAr and the shunt in per-unit. */
  datatype BusInfo = BusInfo(
    cdfType: int, vBase: real, vPu: Complex, sLoad: Complex, sg: Complex,
    qMin: real, qMax: real, ysPu: Complex)

  /** The base voltage: the kV column in volts, or the default when the
      column reads zero. */
  function VBaseOf(kV: real, defaultVBase: real): (v: real)
    ensures kV == 0.0 ==> v == defaultVBase
    ensures kV != 0.0 ==> v != 0.0 && v / 1000.0 == kV
  {
    if kV == 0.0 then defaultVBase else kV * 1000.0
  }

  /** The number in a column of a line. */
  function Num(line: string, c: Column, env: Env): real
    requires c.start <= |line|
  {
    env.rd.toReal(Read(line, c))
  }

  /** The shortest line all of whose bus columns start inside it. */
  const BusLineMin := 114

  /** A bus line: its bus number and its values. A line too short for its
      last column throws `std::out_of_range`. */
  function BusLine(line: string, env: Env): (r: Result<(int, BusInfo)>)
    ensures r.Ok? <==> |line| >= BusLineMin
  {
    if |line| < BusLineMin then Err(OutOfRange)
    else
      Ok((env.rd.toInt(Read(line, BusNumberCol)),
          BusInfo(env.rd.toInt(Read(line, BusTypeCol)),
                  VBaseOf(Num(line, KVBaseCol, env), env.defaultVBase),
                  env.polar(Num(line, VmCol, env), MP.Deg2Rad(Num(line, VaCol, env), env.pi)),
                  CScale(MW, CNeg(Complex(Num(line, PdCol, env), Num(line, QdCol, env)))),
                  CScale(MW, Complex(Num(line, PgCol, env), Num(line, QgCol, env))),
                  Num(line, QMinCol, env) * MW, Num(line, QMaxCol, env) * MW,
                  Complex(Num(line, GsCol, env), Num(line, BsCol, env)))))
  }

  /** The bus line that holds the given texts in the bus columns. */
  function BusLineText(texts: seq<string>): string
    requires |texts| == |BusColumns| && Fits(BusColumns, texts)
  {
    BusColumnsOrdered();
    Layout(BusColumns, texts)
  }

  /** A bus line laid out column by column reads back, in each value, the
      text of that value's own column. */
  lemma BusLineReadsColumns(texts: seq<string>, env: Env)
    requires |texts| == |BusColumns| && Fits(BusColumns, texts)
    ensures BusLine(BusLineText(texts), env) == Ok((env.rd.toInt(texts[0]),
              BusInfo(env.rd.toInt(texts[1]), VBaseOf(env.rd.toReal(texts[8]), env.defaultVBase),
                      env.polar(env.rd.toReal(texts[2]), MP.Deg2Rad(env.rd.toReal(texts[3]), env.pi)),
                      CScale(MW, CNeg(Complex(env.rd.toReal(texts[4]), env.rd.toReal(texts[5])))),
                      CScale(MW, Complex(env.rd.toReal(texts[6]), env.rd.toReal(texts[7]))),
                      env.rd.toReal(texts[10]) * MW, env.rd.toReal(texts[9]) * MW, Complex(env.rd.toReal(texts[11]), env.rd.toReal(texts[12])))))
  {
    BusColumnsOrdered();
    forall i | 0 <= i < 13
      ensures Read(Layout(BusColumns, texts), BusColumns[i]) == texts[i]
    {
      LayoutReadsBack(BusColumns, texts, i);
    }
  }

  // ------------------------------------------------------------ branch lines

  /** A branch line's values: its two bus numbers, its per-unit series
      resistance and reactance and line charging, and its tap ratio and
      phase shift in radians. */
  datatype BranchInfo = BranchInfo(
    bus0Id: int, bus1Id: int, rsPu: real, xsPu: real, bcPu: real, tap: real, thetaRad: real)

  /** A tap column reading zero means the nominal ratio 1. */
  function TapOf(tap: real): (t: real)
    ensures t != 0.0
    ensures tap != 0.0 ==> t == tap
  {
    if tap == 0.0 then 1.0 else tap
  }

  const BranchLineMin := 83

  function BranchLine(line: string, env: Env): (r: Result<BranchInfo>)
    ensures r.Ok? <==> |line| >= BranchLineMin
    ensures r.Ok? ==> r.value.tap != 0.0
  {
    if |line| < BranchLineMin then Err(OutOfRange)
    else
      Ok(BranchInfo(env.rd.toInt(Read(line, FromCol)), env.rd.toInt(Read(line, ToCol)),
                    Num(line, RCol, env), Num(line, XCol, env), Num(line, BCol, env), TapOf(Num(line, TapCol, env)),
                    Num(line, ShiftCol, env) * (env.pi / 180.0)))
  }

  function BranchLineText(texts: seq<string>): string
    requires |texts| == |BranchColumns| && Fits(BranchColumns, texts)
  {
    BranchColumnsOrdered();
    Layout(BranchColumns, texts)
  }

  /** A branch line laid out column by column reads back each value from
      its own column, with a zero tap read as 1. */
  lemma BranchLineReadsColumns(texts: seq<string>, env: Env)
    requires |texts| == |BranchColumns| && Fits(BranchColumns, texts)
    ensures BranchLine(BranchLineText(texts), env) == Ok(BranchInfo(env.rd.toInt(texts[0]), env.rd.toInt(texts[1]),
              env.rd.toReal(texts[2]), env.rd.toReal(texts[3]), env.rd.toReal(texts[4]), TapOf(env.rd.toReal(texts[5])), env.rd.toReal(texts[6]) * (env.pi / 180.0)))
  {
    BranchColumnsOrdered();
    forall i | 0 <= i < 7
      ensures Read(Layout(BranchColumns, texts), BranchColumns[i]) == texts[i]
    {
      LayoutReadsBack(BranchColumns, texts, i);
    }
    var line := BranchLineText(texts);
    assert |line| == 90;
    assert Read(line, FromCol) == texts[0] && Read(line, ToCol) == texts[1];
    assert Read(line, RCol) == texts[2] && Read(line, XCol) == texts[3] && Read(line, BCol) == texts[4];
    assert Read(line, TapCol) == texts[5] && Read(line, ShiftCol) == texts[6];
    var b := BranchLine(line, env).value;
    assert b.bus0Id == env.rd.toInt(texts[0]);
    assert b.rsPu == env.rd.toReal(texts[2]);
    assert b.tap == TapOf(env.rd.toReal(texts[5]));
    assert b.thetaRad == env.rd.toReal(texts[6]) * (env.pi / 180.0);
  }

  // ----------------------------------------------------------------- sections

  /** The line that ends a section: its first four characters are "-999". */
  predicate Terminator(line: string)
  {
    Prefix(line, 4) == "-999"
  }

  function LineId(line: string, env: Env): int
  {
    env.rd.toInt(Prefix(line, 4))
  }

  /** The position of the first terminating line from k on, or the
      number of lines when there is none. */
  function FirstTerminator(lines: seq<string>, k: nat): (e: nat)
    requires k <= |lines|
    ensures k <= e <= |lines|
    ensures e < |lines| ==> Terminator(lines[e])
    ensures forall j :: k <= j < e ==> !Terminator(lines[j])
    decreases |lines| - k
  {
    if k == |lines| || Terminator(lines[k]) then k else FirstTerminator(lines, k + 1)
  }

  /** The bus loop from line k on, with the map m gathered so far: each
      line stores its values under its number, replacing an earlier line
      of the same number. It reads the whole section exactly when the
      section is terminated and each of its lines is long enough for a
      bus line, and it ends at the first terminating line. */
  function ScanBuses(lines: seq<string>, k: nat, m: map<int, BusInfo>, env: Env): (r: Result<(map<int, BusInfo>, nat)>)
    requires k <= |lines|
    ensures r.Ok? <==> FirstTerminator(lines, k) < |lines|
                       && forall j :: k <= j < FirstTerminator(lines, k) ==> |lines[j]| >= BusLineMin
    ensures r.Ok? ==> r.value.1 == FirstTerminator(lines, k)
    decreases |lines| - k
  {
    if k == |lines| then Err(Unterminated)
    else if Terminator(lines[k]) then Ok((m, k))
    else
      var b := BusLine(lines[k], env);
      if b.Err? then Err(b.msg)
      else ScanBuses(lines, k + 1, m[b.value.0 := b.value.1], env)
  }

  /** A number no line of the section carries keeps what the map held. */
  lemma {:induction false} ScanBusesUntouched(lines: seq<string>, k: nat, m: map<int, BusInfo>, env: Env, id: int)
    requires k <= |lines| && ScanBuses(lines, k, m, env).Ok?
    requires forall j :: k <= j < FirstTerminator(lines, k) ==> LineId(lines[j], env) != id
    ensures var m' := ScanBuses(lines, k, m, env).value.0;
            (id in m' <==> id in m) && (id in m ==> m'[id] == m[id])
    decreases |lines| - k
  {
    if !Terminator(lines[k]) {
      var b := BusLine(lines[k], env);
      assert b.value.0 == LineId(lines[k], env);
      ScanBusesUntouched(lines, k + 1, m[b.value.0 := b.value.1], env, id);
    }
  }

  /** The map holds, under each number, the values of the LAST line of the
      section that carries that number. */
  lemma {:induction false} ScanBusesLastWins(lines: seq<string>, k: nat, m: map<int, BusInfo>, env: Env, j: nat)
    requires k <= |lines| && ScanBuses(lines, k, m, env).Ok?
    requires k <= j < FirstTerminator(lines, k)
    requires forall j' :: j < j' < FirstTerminator(lines, k) ==> LineId(lines[j'], env) != LineId(lines[j], env)
    ensures BusLine(lines[j], env).Ok?
    ensures var id := LineId(lines[j], env);
            id in ScanBuses(lines, k, m, env).value.0
            && ScanBuses(lines, k, m, env).value.0[id] == BusLine(lines[j], env).value.1
    decreases |lines| - k
  {
    var m1 := ScanBusesStep(lines, k, m, env);
    if j == k {
      var id, info := LineId(lines[k], env), BusLine(lines[k], env).value.1;
      assert id in m1 && m1[id] == info;
      ScanBusesUntouched(lines, k + 1, m1, env, id);
    } else {
      ScanBusesLastWins(lines, k + 1, m1, env, j);
    }
  }

  /** One line of the bus loop: it stores its values under its number and
      the loop goes on from the next line, towards the same terminator. */
  lemma ScanBusesStep(lines: seq<string>, k: nat, m: map<int, BusInfo>, env: Env) returns (m1: map<int, BusInfo>)
    requires k <= |lines| && k < FirstTerminator(lines, k) && ScanBuses(lines, k, m, env).Ok?
    ensures BusLine(lines[k], env).Ok?
    ensures m1 == m[LineId(lines[k], env) := BusLine(lines[k], env).value.1]
    ensures FirstTerminator(lines, k + 1) == FirstTerminator(lines, k)
    ensures ScanBuses(lines, k + 1, m1, env) == ScanBuses(lines, k, m, env)
  {
    var b := BusLine(lines[k], env);
    assert b.value.0 == LineId(lines[k], env);
    m1 := m[b.value.0 := b.value.1];
  }

  /** Every number in the map came from the map given or from a line of
      the section. */
  lemma ScanBusesKeys(lines: seq<string>, k: nat, m: map<int, BusInfo>, env: Env, id: int)
    requires k <= |lines| && ScanBuses(lines, k, m, env).Ok?
    requires id in ScanBuses(lines, k, m, env).value.0
    ensures id in m || exists j :: k <= j < FirstTerminator(lines, k) && LineId(lines[j], env) == id
  {
    if forall j :: k <= j < FirstTerminator(lines, k) ==> LineId(lines[j], env) != id {
      ScanBusesUntouched(lines, k, m, env, id);
    }
  }

  /** The branch loop from line k on, appending to bs: one branch per line
      of the section, in file order. */
  function ScanBranches(lines: seq<string>, k: nat, bs: seq<BranchInfo>, env: Env): (r: Result<(seq<BranchInfo>, nat)>)
    requires k <= |lines|
    ensures r.Ok? <==> FirstTerminator(lines, k) < |lines|
                       && forall j :: k <= j < FirstTerminator(lines, k) ==> |lines[j]| >= BranchLineMin
    ensures r.Ok? ==> r.value.1 == FirstTerminator(lines, k)
    ensures r.Ok? ==> |r.value.0| == |bs| + (r.value.1 - k)
    decreases |lines| - k
  {
    if k == |lines| then Err(Unterminated)
    else if Terminator(lines[k]) then Ok((bs, k))
    else
      var b := BranchLine(lines[k], env);
      if b.Err? then Err(b.msg)
      else ScanBranches(lines, k + 1, bs + [b.value], env)
  }

  /** The branches gathered keep those given, then hold one branch per line
      of the section, in file order. */
  lemma {:induction false} ScanBranchesAt(lines: seq<string>, k: nat, bs: seq<BranchInfo>, env: Env)
    requires k <= |lines| && ScanBranches(lines, k, bs, env).Ok?
    ensures var r := ScanBranches(lines, k, bs, env).value;
            r.0[..|bs|] == bs
            && forall j :: k <= j < r.1 ==> r.0[|bs| + (j - k)] == BranchLine(lines[j], env).value
    decreases |lines| - k
  {
    if !Terminator(lines[k]) {
      var b := BranchLine(lines[k], env).value;
      ScanBranchesAt(lines, k + 1, bs + [b], env);
      var r := ScanBranches(lines, k, bs, env).value;
      assert r.0[..|bs|] == (r.0[..|bs| + 1])[..|bs|];
      assert r.0[|bs|] == (r.0[..|bs| + 1])[|bs|];
    }
  }

  // -------------------------------------------------------------- the reading

  /** What the reading gathers: the system base power in VA, the busses
      by number, and the branches in file order. */
  datatype Raw = Raw(sBase: real, busMap: map<int, BusInfo>, branches: seq<BranchInfo>)

  /** Every branch has a nonzero tap, as a branch line gives it. */
  predicate TapsSet(raw: Raw)
  {
    forall i :: 0 <= i < |raw.branches| ==> raw.branches[i].tap != 0.0
  }

  /** The title line's MVA base column. */
  const MvaBaseCol := Column(31, 6)

  /** The reading of a file's lines: the title line, which must exist and
      reach the MVA base column; a second line starting "BUS"; the bus
      section; a line starting "BRANCH" after its terminator; and the
      branch section. Lines after the last terminator are not read. */
  function ReadSpec(lines: seq<string>, env: Env): (r: Result<Raw>)
    ensures r.Ok? ==> |lines| >= 4 && |lines[0]| >= MvaBaseCol.start && Prefix(lines[1], 3) == "BUS"
    ensures r.Ok? ==> r.value.sBase == MW * env.rd.toReal(Read(lines[0], MvaBaseCol))
    ensures r.Ok? ==>
              var e := FirstTerminator(lines, 2);
              e + 2 < |lines| && Prefix(lines[e + 1], 6) == "BRANCH"
              && ScanBuses(lines, 2, map[], env).Ok? && r.value.busMap == ScanBuses(lines, 2, map[], env).value.0
              && ScanBranches(lines, e + 2, [], env).Ok? && r.value.branches == ScanBranches(lines, e + 2, [], env).value.0
  {
    if |lines| == 0 then Err(Invalid)
    else if |lines[0]| < MvaBaseCol.start then Err(OutOfRange)
    else if |lines| < 2 || Prefix(lines[1], 3) != "BUS" then Err(Invalid)
    else
      var buses := ScanBuses(lines, 2, map[], env);
      if buses.Err? then Err(buses.msg)
      else
        var e := buses.value.1;
        if e + 1 >= |lines| || Prefix(lines[e + 1], 6) != "BRANCH" then Err(Invalid)
        else
          var branches := ScanBranches(lines, e + 2, [], env);
          if branches.Err? then Err(branches.msg)
          else Ok(Raw(MW * env.rd.toReal(Read(lines[0], MvaBaseCol)), buses.value.0, branches.value.0))
  }

  /** Every branch read has a nonzero tap: a zero tap on a line is read as 1. */
  lemma ReadTapsSet(lines: seq<string>, env: Env)
    requires ReadSpec(lines, env).Ok?
    ensures TapsSet(ReadSpec(lines, env).value)
  {
    var raw := ReadSpec(lines, env).value;
    var e := FirstTerminator(lines, 2);
    var bs := ScanBranches(lines, e + 2, [], env).value.0;
    ScanBranchesAt(lines, e + 2, [], env);
    forall i | 0 <= i < |raw.branches|
      ensures raw.branches[i].tap != 0.0
    {
      assert bs[0 + (e + 2 + i - (e + 2))] == BranchLine(lines[e + 2 + i], env).value;
    }
  }

  /** The bus section's `getline` loop, from the line after "BUS" on. */
  method ReadBusSection(lines: seq<string>, env: Env) returns (r: Result<(map<int, BusInfo>, nat)>)
    requires 2 <= |lines|
    ensures r == ScanBuses(lines, 2, map[], env)
  {
    var busMap: map<int, BusInfo> := map[];
    var k := 2;
    while k < |lines| && !Terminator(lines[k])
      invariant 2 <= k <= |lines|
      invariant ScanBuses(lines, k, busMap, env) == ScanBuses(lines, 2, map[], env)
      decreases |lines| - k
    {
      var b := BusLine(lines[k], env);
      if b.Err? {
        return Err(b.msg);
      }
      busMap := busMap[b.value.0 := b.value.1];
      k := k + 1;
    }
    if k == |lines| {
      return Err(Unterminated);
    }
    return Ok((busMap, k));
  }

  /** The branch section's `getline` loop, from the line after "BRANCH" on. */
  method ReadBranchSection(lines: seq<string>, start: nat, env: Env) returns (r: Result<(seq<BranchInfo>, nat)>)
    requires start <= |lines|
    ensures r == ScanBranches(lines, start, [], env)
  {
    var branches: seq<BranchInfo> := [];
    var k := start;
    while k < |lines| && !Terminator(lines[k])
      invariant start <= k <= |lines|
      invariant ScanBranches(lines, k, branches, env) == ScanBranches(lines, start, [], env)
      decreases |lines| - k
    {
      var b := BranchLine(lines[k], env);
      if b.Err? {
        return Err(b.msg);
      }
      branches := branches + [b.value];
      k := k + 1;
    }
    if k == |lines| {
      return Err(Unterminated);
    }
    return Ok((branches, k));
  }

  /** Reading a file's lines with a cursor, as the source's `getline`
      loops do. */
  method ReadCdf(lines: seq<string>, env: Env) returns (r: Result<Raw>)
    ensures r == ReadSpec(lines, env)
  {
    if |lines| == 0 {
      return Err(Invalid);
    }
    if |lines[0]| < MvaBaseCol.start {
      return Err(OutOfRange);
    }
    var sBase := MW * env.rd.toReal(Read(lines[0], MvaBaseCol));
    if |lines| < 2 || Prefix(lines[1], 3) != "BUS" {
      return Err(Invalid);
    }
    var buses := ReadBusSection(lines, env);
    if buses.Err? {
      return Err(buses.msg);
    }
    var e := buses.value.1;
    if e + 1 >= |lines| || Prefix(lines[e + 1], 6) != "BRANCH" {
      return Err(Invalid);
    }
    var branches := ReadBranchSection(lines, e + 2, env);
    if branches.Err? {
      return Err(branches.msg);
    }
    return Ok(Raw(sBase, buses.value.0, branches.value.0));
  }

  // -------------------------------------------------------------------- names

  /** `busName`, `zipName` and `branchName`: the network name, the kind of
      component and its numbers, each padded to five digits. */
  function BusName(prefix: string, id: int): string
  {
    prefix + "_bus_" + MP.Padded(id)
  }

  function ZipName(prefix: string, id: int): string
  {
    prefix + "_zip_" + MP.Padded(id)
  }

  function BranchName(prefix: string, n: int, id0: int, id1: int): string
  {
    prefix + "_branch_" + MP.Joined(MP.Padded(n), MP.Joined(MP.Padded(id0), MP.Padded(id1)))
  }

  /** Different bus numbers give different names, so no two busses or ZIPs
      of a network collide, and a bus is found by its number. */
  lemma BusNameInjective(prefix: string, a: int, b: int)
    requires BusName(prefix, a) == BusName(prefix, b)
    ensures a == b
  {
    MP.StripPrefix(prefix + "_bus_", MP.Padded(a), MP.Padded(b));
    MP.PaddedInjective(a, b);
  }

  lemma ZipNameInjective(prefix: string, a: int, b: int)
    requires ZipName(prefix, a) == ZipName(prefix, b)
    ensures a == b
  {
    MP.StripPrefix(prefix + "_zip_", MP.Padded(a), MP.Padded(b));
    MP.PaddedInjective(a, b);
  }

  /** A bus and a ZIP never share a name. */
  lemma BusZipNamesDiffer(prefix: string, a: int, b: int)
    ensures BusName(prefix, a) != ZipName(prefix, b)
  {
    assert BusName(prefix, a)[|prefix| + 1] == 'b';
    assert ZipName(prefix, b)[|prefix| + 1] == 'z';
  }

  lemma BranchNameInjective(prefix: string, n: int, f: int, t: int, n': int, f': int, t': int)
    requires BranchName(prefix, n, f, t) == BranchName(prefix, n', f', t')
    ensures n == n' && f == f' && t == t'
  {
    var pn, pn' := MP.Padded(n), MP.Padded(n');
    var pf, pt, pf', pt' := MP.Padded(f), MP.Padded(t), MP.Padded(f'), MP.Padded(t');
    var rest, rest' := MP.Joined(pf, pt), MP.Joined(pf', pt');
    MP.StripPrefix(prefix + "_branch_", MP.Joined(pn, rest), MP.Joined(pn', rest'));
    MP.PaddedNoUnderscore(n);
    MP.PaddedNoUnderscore(n');
    MP.PaddedNoUnderscore(f);
    MP.PaddedNoUnderscore(f');
    MP.SplitJoined(pn, rest, pn', rest');
    MP.SplitJoined(pf, pt, pf', pt');
    MP.PaddedInjective(n, n');
    MP.PaddedInjective(f, f');
    MP.PaddedInjective(t, t');
  }

  // ------------------------------------------------------------------- busses

  /** A supported CDF bus type as a power-flow bus type. */
  function TypeOf(cdfType: int): PowerFlow.BusType
    requires 0 <= cdfType <= 3
  {
    if cdfType <= 1 then PowerFlow.BusType.PQ else if cdfType == 2 then PowerFlow.BusType.PV else PowerFlow.BusType.SL
  }

  /** The CDF bus type: 0 and 1 are PQ, 2 is PV and 3 is the slack bus;
      4, an isolated bus, and every other value abort. */
  function BusTypeOf(cdfType: int): (r: Result<PowerFlow.BusType>)
    ensures r.Ok? <==> 0 <= cdfType <= 3
    ensures r.Ok? ==> (r.value == PowerFlow.BusType.PQ <==> cdfType <= 1)
                      && (r.value == PowerFlow.BusType.PV <==> cdfType == 2)
                      && (r.value == PowerFlow.BusType.SL <==> cdfType == 3)
  {
    if 0 <= cdfType <= 3 then Ok(TypeOf(cdfType))
    else if cdfType == 4 then Err("CDF isolated bus type not supported.")
    else Err("Bad CDF bus type (type = " + Calculator.Decimal(cdfType) + ") encountered.")
  }

  /** A bus as made, with the same value on every phase: its number, from
      which its name follows, type, nominal voltage (the base voltage),
      voltage, generation and reactive generation limits. */
  datatype BusRecord = BusRecord(
    num: int, busType: PowerFlow.BusType, vNom: real, v: Complex, sg: Complex, qgMin: real, qgMax: real)
  {
    /** The bus's name in a network named prefix. */
    function Id(prefix: string): string
    {
      BusName(prefix, num)
    }
  }

  /** The ZIP load of a bus: constant power and constant admittance. */
  datatype ZipRecord = ZipRecord(id: string, busId: string, s: Complex, y: Complex)

  /** The square of a non-zero real, which is positive. */
  function Square(x: real): (d: real)
    requires x != 0.0
    ensures d > 0.0 && d == x * x
  {
    MP.SquarePositive(x);
    var d :| d == x * x && d > 0.0;
    d
  }

  /** A complex number divided by a real one. */
  function CDivR(a: Complex, d: real): Complex
    requires d != 0.0
  {
    Complex(a.re / d, a.im / d)
  }

  /** Whether a bus of the map can be made: its type is supported, and in
      SI units, where its shunt is divided by its square, its base voltage
      is not zero. */
  predicate BusMakeable(info: BusInfo, perUnit: bool)
  {
    0 <= info.cdfType <= 3 && (perUnit || info.vBase != 0.0)
  }

  /** The bus of a bus number: per-unit values divided by the base power
      in per-unit units, or the voltage times the base voltage in SI. */
  function BusOf(prefix: string, id: int, info: BusInfo, sBase: real, perUnit: bool): BusRecord
    requires 0 <= info.cdfType <= 3 && (perUnit ==> sBase != 0.0)
  {
    BusRecord(id, TypeOf(info.cdfType), info.vBase,
              if perUnit then info.vPu else CScale(info.vBase, info.vPu),
              if perUnit then CDivR(info.sg, sBase) else info.sg,
              if perUnit then info.qMin / sBase else info.qMin,
              if perUnit then info.qMax / sBase else info.qMax)
  }

  /** `YsPu*SBase/(VBase*VBase)`: a per-unit shunt in siemens. */
  function ShuntSiemens(ysPu: Complex, sBase: real, vBase: real): Complex
    requires vBase != 0.0
  {
    MP.SquarePositive(vBase);
    var d :| d == vBase * vBase && d > 0.0;
    CDivR(CScale(sBase, ysPu), d)
  }

  function ZipOf(prefix: string, id: int, info: BusInfo, sBase: real, perUnit: bool): (z: ZipRecord)
    requires if perUnit then sBase != 0.0 else info.vBase != 0.0
    ensures z.id == ZipName(prefix, id) && z.busId == BusName(prefix, id)
  {
    ZipRecord(ZipName(prefix, id), BusName(prefix, id),
              if perUnit then CDivR(info.sLoad, sBase) else info.sLoad,
              if perUnit then info.ysPu else ShuntSiemens(info.ysPu, sBase, info.vBase))
  }

  /** The two unit systems agree on a bus: the SI voltage over the base
      voltage, and the SI generation and limits over the base power, are
      the per-unit values. */
  lemma BusSiIsPerUnit(prefix: string, id: int, info: BusInfo, sBase: real)
    requires 0 <= info.cdfType <= 3 && sBase != 0.0 && info.vBase != 0.0
    ensures var si := BusOf(prefix, id, info, sBase, false);
            var pu := BusOf(prefix, id, info, sBase, true);
            CDivR(si.v, info.vBase) == pu.v && CDivR(si.sg, sBase) == pu.sg
            && si.qgMin / sBase == pu.qgMin && si.qgMax / sBase == pu.qgMax
  {
    var v := info.vBase;
    var x := info.vPu;
    ScaleBack(v, x.re);
    ScaleBack(v, x.im);
  }

  /** The two unit systems agree on a ZIP load: the SI power over the base
      power, and the SI shunt times the base voltage squared over the base
      power, are the per-unit values. */
  lemma ZipSiIsPerUnit(prefix: string, id: int, info: BusInfo, sBase: real)
    requires sBase != 0.0 && info.vBase != 0.0
    ensures var zsi := ZipOf(prefix, id, info, sBase, false);
            var zpu := ZipOf(prefix, id, info, sBase, true);
            CDivR(zsi.s, sBase) == zpu.s
            && CDivR(CScale(info.vBase * info.vBase, zsi.y), sBase) == zpu.y
  {
    var v := info.vBase;
    MP.SquarePositive(v);
    var d :| d == v * v && d > 0.0;
    var y := info.ysPu;
    var ysi := ShuntSiemens(y, sBase, v);
    assert ysi == Complex(sBase * y.re / d, sBase * y.im / d);
    ShuntBack(y.re, sBase, d);
    ShuntBack(y.im, sBase, d);
  }

  lemma ScaleBack(v: real, x: real)
    requires v != 0.0
    ensures (v * x) / v == x
  {
  }

  lemma ShuntBack(y: real, s: real, d: real)
    requires s != 0.0 && d != 0.0
    ensures d * (s * y / d) / s == y
  {
    assert d * (s * y / d) == s * y;
  }

  // ----------------------------------------------------------------- branches

  /** The admittance blocks of a branch: from-from, from-to, to-from and
      to-to. */
  datatype BranchAdm = BranchAdm(y00: Complex, y01: Complex, y10: Complex, y11: Complex)

  /** A branch as made: its place in the file and its two bus numbers,
      from which its name and its busses' names follow, and its admittance
      blocks, None where the source's values are not finite. */
  datatype BranchRecord = BranchRecord(place: int, bus0Id: int, bus1Id: int, adm: Option<BranchAdm>)
  {
    /** The branch's name in a network named `prefix`. */
    function Id(prefix: string): string
    {
      BranchName(prefix, place, bus0Id, bus1Id)
    }

    /** The names of the busses at its two ends. */
    function Bus0(prefix: string): string
    {
      BusName(prefix, bus0Id)
    }

    function Bus1(prefix: string): string
    {
      BusName(prefix, bus1Id)
    }
  }

  /** Complex division, which undoes multiplication. */
  function CDiv(a: Complex, b: Complex): (q: Complex)
    requires b != CZero
    ensures CMul(q, b) == a
  {
    MP.SquaresPositive(b.re, b.im);
    var d :| d == b.re * b.re + b.im * b.im && d > 0.0;
    DivUndoesMul(a, b, d);
    CDivR(CMul(a, CConj(b)), d)
  }

  lemma DivUndoesMul(a: Complex, b: Complex, d: real)
    requires d == NormSq(b) && d > 0.0
    ensures CMul(CDivR(CMul(a, CConj(b)), d), b) == a
  {
    var p := CMul(a, CConj(b));
    assert p.re * b.re - p.im * b.im == a.re * d;
    assert p.re * b.im + p.im * b.re == a.im * d;
    assert (p.re / d) * b.re - (p.im / d) * b.im == (p.re * b.re - p.im * b.im) / d;
    assert (p.re / d) * b.im + (p.im / d) * b.re == (p.re * b.im + p.im * b.re) / d;
  }

  /** The per-unit blocks of a branch of series admittance `ys`, charging
      `bc`, tap `tap` and complex tap `cTap`: the from end sees the to end's
      block over the tap squared, the cross blocks are minus the series
      admittance over the (conjugate) complex tap. */
  function PuBlocks(ys: Complex, bc: real, tap: real, cTap: Complex): BranchAdm
    requires tap != 0.0 && cTap != CZero
  {
    var y11 := CAdd(ys, Complex(0.0, 0.5 * bc));
    BranchAdm(CDivR(y11, Square(tap)), CNeg(CDiv(ys, CConj(cTap))), CNeg(CDiv(ys, cTap)), y11)
  }

  /** Per-unit blocks in siemens: each times the base power over the
      product of its two ends' base voltages. */
  function SiBlocks(a: BranchAdm, sBase: real, v0: real, v1: real): BranchAdm
    requires v0 != 0.0 && v1 != 0.0
  {
    MP.ProductNonzero(v0, v0);
    MP.ProductNonzero(v0, v1);
    MP.ProductNonzero(v1, v1);
    BranchAdm(CScale(sBase / (v0 * v0), a.y00), CScale(sBase / (v0 * v1), a.y01),
              CScale(sBase / (v1 * v0), a.y10), CScale(sBase / (v1 * v1), a.y11))
  }

  /** The blocks of a branch with complex tap cTap between busses of base
      voltages v0 and v1: the series admittance is the reciprocal of
      R + jX, half the line charging sits at each end, the from-from block
      is divided by the tap squared and the cross blocks by the tap,
      conjugated for from-to. In SI units each block is scaled by the base
      power over the product of its ends' base voltages. None where the
      source divides by zero: a zero series impedance or complex tap. */
  function AdmOf(b: BranchInfo, cTap: Complex, sBase: real, v0: real, v1: real, perUnit: bool): (r: Option<BranchAdm>)
    requires b.tap != 0.0 && (!perUnit ==> v0 != 0.0 && v1 != 0.0)
    ensures r.Some? <==> Complex(b.rsPu, b.xsPu) != CZero && cTap != CZero
  {
    var ys := MP.Recip(b.rsPu, b.xsPu);
    if ys.None? || cTap == CZero then None
    else
      var a := PuBlocks(ys.value, b.bcPu, b.tap, cTap);
      if perUnit then Some(a) else Some(SiBlocks(a, sBase, v0, v1))
  }

  /** Without a phase shift the two cross blocks of a branch are equal. */
  lemma NoShiftCrossEqual(b: BranchInfo, cTap: Complex, sBase: real, v0: real, v1: real, perUnit: bool)
    requires b.tap != 0.0 && (!perUnit ==> v0 != 0.0 && v1 != 0.0)
    requires cTap.im == 0.0 && AdmOf(b, cTap, sBase, v0, v1, perUnit).Some?
    ensures var a := AdmOf(b, cTap, sBase, v0, v1, perUnit).value; a.y01 == a.y10
  {
    assert CConj(cTap) == cTap;
    assert v1 * v0 == v0 * v1;
  }

  /** With a unit tap and no shift the per-unit blocks are the plain pi
      model: the cross blocks are minus the series admittance ... */
  lemma UnitTapCrossBlocks(ys: Complex, bc: real, tap: real, cTap: Complex)
    requires tap == 1.0 && cTap == Complex(1.0, 0.0)
    ensures PuBlocks(ys, bc, tap, cTap).y01 == CNeg(ys) && PuBlocks(ys, bc, tap, cTap).y10 == CNeg(ys)
  {
    PuCrossBlocks(ys, bc, tap, cTap);
    DivByOne(ys, cTap);
  }

  lemma PuCrossBlocks(ys: Complex, bc: real, tap: real, cTap: Complex)
    requires tap != 0.0 && cTap != CZero
    ensures PuBlocks(ys, bc, tap, cTap).y01 == CNeg(CDiv(ys, CConj(cTap)))
    ensures PuBlocks(ys, bc, tap, cTap).y10 == CNeg(CDiv(ys, cTap))
  {
  }

  /** ... and both ends' blocks are the series admittance plus half the
      charging. */
  lemma UnitTapEndBlocks(ys: Complex, bc: real, tap: real, cTap: Complex)
    requires tap == 1.0 && cTap != CZero
    ensures var a := PuBlocks(ys, bc, tap, cTap);
            a.y00 == a.y11 && a.y11 == CAdd(ys, Complex(0.0, 0.5 * bc))
  {
    var y11 := CAdd(ys, Complex(0.0, 0.5 * bc));
    var t2 := Square(tap);
    assert CDivR(y11, t2) == y11;
  }

  lemma DivByOne(a: Complex, one: Complex)
    requires one == Complex(1.0, 0.0)
    ensures CDiv(a, one) == a && CDiv(a, CConj(one)) == a
  {
    assert CConj(one) == one;
    var q := CDiv(a, one);
    assert CMul(q, one) == a;
    assert CMul(q, one) == q;
  }

  /** Between two busses of one base voltage, a branch's two end blocks
      in siemens are equal when its per-unit ones are. */
  lemma SameBaseKeepsEnds(a: BranchAdm, sBase: real, v: real)
    requires v != 0.0 && a.y00 == a.y11
    ensures var si := SiBlocks(a, sBase, v, v); si.y00 == si.y11 && si.y01 == CScale(sBase / (v * v), a.y01)
  {
  }

  /** Whether a branch can be made: both its busses exist, its tap is
      set, and in SI units both busses have a base voltage. */
  predicate BranchMakeable(b: BranchInfo, m: map<int, BusInfo>, perUnit: bool)
  {
    b.bus0Id in m && b.bus1Id in m && b.tap != 0.0
    && (!perUnit ==> m[b.bus0Id].vBase != 0.0 && m[b.bus1Id].vBase != 0.0)
  }

  /** A branch as made from its CDF data; its complex tap is the tap
      ratio and phase shift in polar form. */
  function BranchOf(n: int, b: BranchInfo, m: map<int, BusInfo>, sBase: real, perUnit: bool,
                    polar: (real, real) -> Complex): BranchRecord
    requires BranchMakeable(b, m, perUnit)
  {
    BranchRecord(n, b.bus0Id, b.bus1Id,
                 AdmOf(b, polar(b.tap, b.thetaRad), sBase, m[b.bus0Id].vBase, m[b.bus1Id].vBase, perUnit))
  }



  /** The entry of a branch's admittance matrix on n phases at row i and
      column j, the rows and columns of the from end first: each phase of
      an end is coupled to the same phase of either end only. */
  function BlockEntry(n: nat, a: BranchAdm, i: nat, j: nat): Complex
  {
    if j == i then (if i < n then a.y00 else a.y11)
    else if j == i + n then a.y01
    else if i == j + n then a.y10
    else CZero
  }

  /** `branch.setY`: the matrix filled phase by phase. */
  method BranchY(n: nat, a: BranchAdm) returns (y: array2<Complex>)
    ensures fresh(y) && y.Length0 == 2 * n && y.Length1 == 2 * n
    ensures forall i, j :: 0 <= i < 2 * n && 0 <= j < 2 * n ==> y[i, j] == BlockEntry(n, a, i, j)
  {
    y := ZeroMatrix(2 * n, 2 * n);
    for k := 0 to n
      invariant forall i, j :: 0 <= i < 2 * n && 0 <= j < 2 * n ==>
                  y[i, j] == if (if i < n then i else i - n) < k then BlockEntry(n, a, i, j) else CZero
    {
      y[k, k] := a.y00;
      y[k + n, k + n] := a.y11;
      y[k, k + n] := a.y01;
      y[k + n, k] := a.y10;
    }
  }

  // ----------------------------------------------------------------- building

  /** The smallest number of a nonempty set. */
  ghost function MinOf(s: set<int>): (x: int)
    requires s != {}
    ensures x in s && forall y :: y in s ==> x <= y
    decreases |s|
  {
    HasElement(s);
    var y :| y in s;
    if forall w :: w in s ==> y <= w then y
    else
      var w :| w in s && w < y;
      assert w in s - {y};
      var m := MinOf(s - {y});
      assert forall v :: v in s ==> v == y || v in s - {y};
      m
  }

  /** The numbers of a set in increasing order: the order in which a
      `std::map` keyed by them is walked. */
  ghost function SortedIds(s: set<int>): (r: seq<int>)
    ensures |r| == |s| && forall i :: 0 <= i < |r| ==> r[i] in s
    decreases |s|
  {
    if s == {} then []
    else
      var x := MinOf(s);
      [x] + SortedIds(s - {x})
  }

  /** The walk visits the numbers of the set in increasing order. */
  predicate Increasing(r: seq<int>)
  {
    forall i, j :: 0 <= i < j < |r| ==> r[i] < r[j]
  }

  lemma {:induction false} SortedIdsSorted(s: set<int>)
    ensures Increasing(SortedIds(s))
    decreases |s|
  {
    if s != {} {
      var x := MinOf(s);
      var t := SortedIds(s - {x});
      SortedIdsSorted(s - {x});
      var r := [x] + t;
      assert SortedIds(s) == r;
      forall i, j | 0 <= i < j < |r|
        ensures r[i] < r[j]
      {
        if i == 0 {
          var y := t[j - 1];
          assert r[j] == y;
          assert y in s - {x};
          assert y in s && y != x;
          assert x <= y;
          assert r[i] == x;
        } else {
          assert r[i] == t[i - 1] && r[j] == t[j - 1];
          assert Increasing(t);
        }
      }
    }
  }

  /** The walk visits every number of the set. */
  lemma {:induction false} SortedIdsComplete(s: set<int>)
    ensures forall x :: x in s ==> x in SortedIds(s)
    decreases |s|
  {
    if s != {} {
      var x := MinOf(s);
      SortedIdsComplete(s - {x});
      assert SortedIds(s) == [x] + SortedIds(s - {x});
      forall y | y in s
        ensures y in SortedIds(s)
      {
        if y != x {
          assert y in s - {x};
        }
      }
    }
  }

  /** A smallest element is the one MinOf gives, so a walk may take it. */
  lemma SortedIdsFirst(s: set<int>, x: int)
    requires x in s && forall y :: y in s ==> x <= y
    ensures SortedIds(s) == [x] + SortedIds(s - {x})
  {
    assert MinOf(s) == x;
  }

  /** `mod.component<Bus>(name)`: the first made bus of that name. */
  function FindName(prefix: string, buses: seq<BusRecord>, name: string): (r: Option<nat>)
    ensures r.Some? ==> r.value < |buses| && buses[r.value].Id(prefix) == name
    ensures r.None? ==> forall k :: 0 <= k < |buses| ==> buses[k].Id(prefix) != name
  {
    if |buses| == 0 then None
    else if buses[0].Id(prefix) == name then Some(0)
    else
      var r := FindName(prefix, buses[1..], name);
      if r.None? then None else Some(r.value + 1)
  }

  /** Among busses named after distinct numbers, a name is found exactly
      when its number is one of them. */
  lemma FoundIffMade(prefix: string, buses: seq<BusRecord>, ids: seq<int>, id: int)
    requires |buses| == |ids| && forall k :: 0 <= k < |ids| ==> buses[k].num == ids[k]
    ensures FindName(prefix, buses, BusName(prefix, id)).Some? <==> id in ids
  {
    var r := FindName(prefix, buses, BusName(prefix, id));
    if r.Some? {
      BusNameInjective(prefix, ids[r.value], id);
    }
  }

  /** Everything the building step needs: a nonzero base power for
      per-unit values, busses that can all be made, and branches whose
      two busses exist. */
  predicate BuildOk(raw: Raw, perUnit: bool)
  {
    (perUnit ==> raw.sBase != 0.0)
    && (forall id {:trigger raw.busMap[id]} :: id in raw.busMap ==> BusMakeable(raw.busMap[id], perUnit))
    && forall i :: 0 <= i < |raw.branches| ==>
         raw.branches[i].bus0Id in raw.busMap && raw.branches[i].bus1Id in raw.busMap
  }

  /** A bus is found by its name exactly when its number is in the map. */
  ghost predicate FindsExactly(prefix: string, buses: seq<BusRecord>, m: map<int, BusInfo>)
  {
    forall id {:trigger BusName(prefix, id)} :: FindName(prefix, buses, BusName(prefix, id)).Some? <==> id in m
  }

  /** The busses made from the walk over a map are found by name exactly
      when their numbers are in the map. */
  lemma WalkFindsExactly(prefix: string, m: map<int, BusInfo>, sBase: real, perUnit: bool)
    requires BusesMakeable(SortedIds(m.Keys), |m.Keys|, m, perUnit) && (perUnit ==> sBase != 0.0)
    ensures FindsExactly(prefix, BusesOf(prefix, SortedIds(m.Keys), |m.Keys|, m, sBase, perUnit), m)
  {
    var ids := SortedIds(m.Keys);
    var buses := BusesOf(prefix, ids, |ids|, m, sBase, perUnit);
    BusesNamedAfter(prefix, ids, m, sBase, perUnit);
    SortedIdsComplete(m.Keys);
    forall id
      ensures FindName(prefix, buses, BusName(prefix, id)).Some? <==> id in m
    {
      FoundIffMade(prefix, buses, ids, id);
    }
  }

  /** Once the busses can all be made, the branches can exactly when the
      busses at both their ends exist. */
  lemma MakeableIffEndsExist(raw: Raw, perUnit: bool)
    requires TapsSet(raw)
    requires forall id {:trigger raw.busMap[id]} :: id in raw.busMap ==> BusMakeable(raw.busMap[id], perUnit)
    ensures AllMakeable(raw.branches, |raw.branches|, raw.busMap, perUnit) <==>
              forall i :: 0 <= i < |raw.branches| ==>
                raw.branches[i].bus0Id in raw.busMap && raw.branches[i].bus1Id in raw.busMap
  {
  }

  /** The network made: its name and frequency, the number of phases of
      every component, its busses with their ZIP loads, and its branches. */
  datatype CdfCase = CdfCase(
    networkName: string, freq: real, nPhase: nat,
    buses: seq<BusRecord>, zips: seq<ZipRecord>, branches: seq<BranchRecord>)

  const ZeroSBase := "per-unit values need a nonzero MVA base"
  const ZeroVBase := "SI values need a nonzero base voltage"

  function FromBusMessage(b: BranchInfo): string
  {
    "CDF: for branch, from bus " + Calculator.Decimal(b.bus0Id) + " was not found."
  }

  /** The message for a missing to-bus as the source writes it: with the
      from-bus's number. */
  function ToBusMessageAsWritten(b: BranchInfo): string
  {
    "CDF: for branch, to bus " + Calculator.Decimal(b.bus0Id) + " was not found."
  }

  /** The message for a missing to-bus, naming the to-bus. */
  function ToBusMessage(b: BranchInfo): string
  {
    "CDF: for branch, to bus " + Calculator.Decimal(b.bus1Id) + " was not found."
  }

  /** The to-bus message of a reading of the source. */
  function ToBusMessageOf(rd: Reading, b: BranchInfo): string
  {
    if rd == AsWritten then ToBusMessageAsWritten(b) else ToBusMessage(b)
  }

  /** For a branch from bus 1 to a missing bus 7, the message as written
      names bus 1, which exists; the corrected one names bus 7. */
  lemma ToBusMessageNamesWrongBus(b: BranchInfo, one: string, seven: string)
    requires b.bus0Id == 1 && b.bus1Id == 7 && one == "1" && seven == "7"
    ensures ToBusMessageAsWritten(b) == "CDF: for branch, to bus " + one + " was not found."
    ensures ToBusMessage(b) == "CDF: for branch, to bus " + seven + " was not found."
  {
    assert Calculator.Decimal(b.bus0Id) == one;
    assert Calculator.Decimal(b.bus1Id) == seven;
  }

  /** The corrected message identifies the missing to-bus: branches with
      the same message have the same to-bus. */
  lemma ToBusMessageIdentifiesBus(b: BranchInfo, b': BranchInfo)
    requires ToBusMessage(b) == ToBusMessage(b')
    ensures b.bus1Id == b'.bus1Id
  {
    var p := "CDF: for branch, to bus ";
    var q := " was not found.";
    var d, d' := Calculator.Decimal(b.bus1Id), Calculator.Decimal(b'.bus1Id);
    assert ToBusMessage(b) == p + d + q;
    assert (p + d + q)[..|p + d|] == p + d;
    assert |d| == |d'|;
    assert p + d == p + d';
    MP.StripPrefix(p, d, d');
    MatpowerPlugin.DecimalInjective(b.bus1Id, b'.bus1Id);
  }

  /** Whether the busses of the first k numbers can all be made. */
  predicate BusesMakeable(ids: seq<int>, k: nat, m: map<int, BusInfo>, perUnit: bool)
  {
    k <= |ids| && forall j :: 0 <= j < k ==> ids[j] in m && BusMakeable(m[ids[j]], perUnit)
  }

  /** The busses made for the first k bus numbers, in order. */
  function BusesOf(prefix: string, ids: seq<int>, k: nat, m: map<int, BusInfo>, sBase: real, perUnit: bool)
    : (r: seq<BusRecord>)
    requires BusesMakeable(ids, k, m, perUnit) && (perUnit ==> sBase != 0.0)
    ensures |r| == k
  {
    if k == 0 then []
    else BusesOf(prefix, ids, k - 1, m, sBase, perUnit) + [BusOf(prefix, ids[k - 1], m[ids[k - 1]], sBase, perUnit)]
  }

  /** The ZIP loads made for the first k bus numbers, in order. */
  function ZipsOf(prefix: string, ids: seq<int>, k: nat, m: map<int, BusInfo>, sBase: real, perUnit: bool)
    : (r: seq<ZipRecord>)
    requires BusesMakeable(ids, k, m, perUnit) && (perUnit ==> sBase != 0.0)
    ensures |r| == k
  {
    if k == 0 then []
    else ZipsOf(prefix, ids, k - 1, m, sBase, perUnit) + [ZipOf(prefix, ids[k - 1], m[ids[k - 1]], sBase, perUnit)]
  }

  /** The j-th bus made is that of the j-th number. */
  lemma {:induction false} BusesOfAt(prefix: string, ids: seq<int>, k: nat, m: map<int, BusInfo>, sBase: real,
                                     perUnit: bool, j: nat)
    requires BusesMakeable(ids, k, m, perUnit) && (perUnit ==> sBase != 0.0) && j < k
    ensures BusesOf(prefix, ids, k, m, sBase, perUnit)[j] == BusOf(prefix, ids[j], m[ids[j]], sBase, perUnit)
  {
    if j < k - 1 {
      assert BusesMakeable(ids, k - 1, m, perUnit);
      BusesOfAt(prefix, ids, k - 1, m, sBase, perUnit, j);
    }
  }

  /** The busses made are named after their numbers, in order. */
  lemma BusesNamedAfter(prefix: string, ids: seq<int>, m: map<int, BusInfo>, sBase: real, perUnit: bool)
    requires BusesMakeable(ids, |ids|, m, perUnit) && (perUnit ==> sBase != 0.0)
    ensures var buses := BusesOf(prefix, ids, |ids|, m, sBase, perUnit);
            forall j :: 0 <= j < |ids| ==> buses[j].num == ids[j]
  {
    var buses := BusesOf(prefix, ids, |ids|, m, sBase, perUnit);
    forall j | 0 <= j < |ids|
      ensures buses[j].num == ids[j]
    {
      BusesOfAt(prefix, ids, |ids|, m, sBase, perUnit, j);
    }
  }

  /** The smallest number of a nonempty set: the next key of the walk. */
  method Least(rest: set<int>) returns (id: int)
    requires rest != {}
    ensures id in rest && (forall y :: y in rest ==> id <= y)
    ensures SortedIds(rest) == [id] + SortedIds(rest - {id})
  {
    HasElement(rest);
    var least :| least in rest;
    MinExists(rest, least);
    id :| id in rest && forall y :: y in rest ==> id <= y;
    SortedIdsFirst(rest, id);
  }

  /** One bus and its ZIP load; an unsupported type, or a zero base
      voltage in SI units, is an error. */
  method MakeBus(prefix: string, id: int, info: BusInfo, sBase: real, perUnit: bool)
    returns (r: Result<(BusRecord, ZipRecord)>)
    requires perUnit ==> sBase != 0.0
    ensures r.Ok? <==> BusMakeable(info, perUnit)
    ensures r.Ok? ==> r.value.0 == BusOf(prefix, id, info, sBase, perUnit)
                      && r.value.1 == ZipOf(prefix, id, info, sBase, perUnit)
  {
    var t := BusTypeOf(info.cdfType);
    if t.Err? {
      return Err(t.msg);
    }
    if !perUnit && info.vBase == 0.0 {
      return Err(ZeroVBase);
    }
    return Ok((BusOf(prefix, id, info, sBase, perUnit), ZipOf(prefix, id, info, sBase, perUnit)));
  }

  /** One step of the walk over the bus map: the least remaining number,
      the k-th of the walk, gets its bus and ZIP load made. */
  method BusStep(prefix: string, m: map<int, BusInfo>, sBase: real, perUnit: bool, ghost ids: seq<int>,
                 ghost k: nat, rest: set<int>, buses: seq<BusRecord>, zips: seq<ZipRecord>)
    returns (r: Result<(set<int>, seq<BusRecord>, seq<ZipRecord>)>)
    requires rest != {} && rest <= m.Keys && k <= |ids| && ids[k..] == SortedIds(rest)
    requires BusesMakeable(ids, k, m, perUnit) && (perUnit ==> sBase != 0.0)
    requires buses == BusesOf(prefix, ids, k, m, sBase, perUnit) && zips == ZipsOf(prefix, ids, k, m, sBase, perUnit)
    ensures k < |ids| && ids[k] in m
    ensures r.Ok? <==> BusMakeable(m[ids[k]], perUnit)
    ensures r.Ok? ==>
              var (rest', buses', zips') := (r.value.0, r.value.1, r.value.2);
              rest' <= m.Keys && |rest'| < |rest| && ids[k + 1..] == SortedIds(rest')
              && BusesMakeable(ids, k + 1, m, perUnit)
              && buses' == BusesOf(prefix, ids, k + 1, m, sBase, perUnit)
              && zips' == ZipsOf(prefix, ids, k + 1, m, sBase, perUnit)
  {
    var id := Least(rest);
    assert ids[k..] == [id] + SortedIds(rest - {id});
    assert ids[k] == id;
    assert ids[k + 1..] == ids[k..][1..];
    var made := MakeBus(prefix, id, m[id], sBase, perUnit);
    if made.Err? {
      return Err(made.msg);
    }
    return Ok((rest - {id}, buses + [made.value.0], zips + [made.value.1]));
  }

  /** The busses and their ZIP loads, in increasing order of bus number:
      a nonzero base power is checked first when values are per-unit. */
  method BuildBuses(raw: Raw, st: Settings) returns (r: Result<(seq<BusRecord>, seq<ZipRecord>)>)
    ensures r.Ok? <==> (st.usePerUnit ==> raw.sBase != 0.0)
                       && forall id {:trigger raw.busMap[id]} :: id in raw.busMap ==> BusMakeable(raw.busMap[id], st.usePerUnit)
    ensures r.Ok? ==>
              var ids := SortedIds(raw.busMap.Keys);
              BusesMakeable(ids, |ids|, raw.busMap, st.usePerUnit)
              && r.value.0 == BusesOf(st.networkName, ids, |ids|, raw.busMap, raw.sBase, st.usePerUnit)
              && r.value.1 == ZipsOf(st.networkName, ids, |ids|, raw.busMap, raw.sBase, st.usePerUnit)
  {
    if st.usePerUnit && raw.sBase == 0.0 {
      return Err(ZeroSBase);
    }
    r := WalkBuses(st.networkName, raw.busMap, raw.sBase, st.usePerUnit);
    WalkCoversMap(raw.busMap, st.usePerUnit);
  }

  /** The walk over the bus map, in increasing order of bus number. */
  method WalkBuses(prefix: string, m: map<int, BusInfo>, sBase: real, perUnit: bool)
    returns (r: Result<(seq<BusRecord>, seq<ZipRecord>)>)
    requires perUnit ==> sBase != 0.0
    ensures var ids := SortedIds(m.Keys); r.Ok? <==> BusesMakeable(ids, |ids|, m, perUnit)
    ensures r.Ok? ==>
              var ids := SortedIds(m.Keys);
              r.value.0 == BusesOf(prefix, ids, |ids|, m, sBase, perUnit)
              && r.value.1 == ZipsOf(prefix, ids, |ids|, m, sBase, perUnit)
  {
    ghost var ids := SortedIds(m.Keys);
    var buses: seq<BusRecord> := [];
    var zips: seq<ZipRecord> := [];
    ghost var k: nat := 0;
    var rest := m.Keys;
    while rest != {}
      invariant rest <= m.Keys && k <= |ids| && ids[k..] == SortedIds(rest)
      invariant BusesMakeable(ids, k, m, perUnit)
      invariant buses == BusesOf(prefix, ids, k, m, sBase, perUnit)
      invariant zips == ZipsOf(prefix, ids, k, m, sBase, perUnit)
      decreases |rest|
    {
      var next := BusStep(prefix, m, sBase, perUnit, ids, k, rest, buses, zips);
      if next.Err? {
        return Err(next.msg);
      }
      rest, buses, zips := next.value.0, next.value.1, next.value.2;
      k := k + 1;
    }
    return Ok((buses, zips));
  }

  /** Every bus of the walk can be made exactly when every bus of the map can. */
  lemma WalkCoversMap(m: map<int, BusInfo>, perUnit: bool)
    ensures var ids := SortedIds(m.Keys);
            BusesMakeable(ids, |ids|, m, perUnit) <==> forall id {:trigger m[id]} :: id in m ==> BusMakeable(m[id], perUnit)
  {
    var ids := SortedIds(m.Keys);
    if BusesMakeable(ids, |ids|, m, perUnit) {
      SortedIdsComplete(m.Keys);
      forall id | id in m
        ensures BusMakeable(m[id], perUnit)
      {
        assert id in ids;
        var j :| 0 <= j < |ids| && ids[j] == id;
      }
    }
  }

  /** Whether the first k branches can all be made. */
  predicate AllMakeable(bs: seq<BranchInfo>, k: nat, m: map<int, BusInfo>, perUnit: bool)
  {
    k <= |bs| && forall i :: 0 <= i < k ==> BranchMakeable(bs[i], m, perUnit)
  }

  /** The branches made from the first k CDF branches, in order, each
      numbered by its place. */
  function BranchesOf(bs: seq<BranchInfo>, k: nat, m: map<int, BusInfo>, sBase: real, perUnit: bool,
                      polar: (real, real) -> Complex): (r: seq<BranchRecord>)
    requires AllMakeable(bs, k, m, perUnit)
    ensures |r| == k
  {
    if k == 0 then []
    else BranchesOf(bs, k - 1, m, sBase, perUnit, polar) + [BranchOf(k - 1, bs[k - 1], m, sBase, perUnit, polar)]
  }

  /** The i-th branch made is the i-th CDF branch, numbered by its place. */
  lemma {:induction false} BranchesOfAt(bs: seq<BranchInfo>, k: nat, m: map<int, BusInfo>, sBase: real,
                                        perUnit: bool, polar: (real, real) -> Complex, i: nat)
    requires AllMakeable(bs, k, m, perUnit) && i < k
    ensures BranchesOf(bs, k, m, sBase, perUnit, polar)[i] == BranchOf(i, bs[i], m, sBase, perUnit, polar)
  {
    if i < k - 1 {
      assert AllMakeable(bs, k - 1, m, perUnit);
      BranchesOfAt(bs, k - 1, m, sBase, perUnit, polar, i);
    }
  }

  /** The branches in file order, each after finding its two busses by
      name among the busses made. */
  method BuildBranches(raw: Raw, st: Settings, buses: seq<BusRecord>, polar: (real, real) -> Complex,
                       rd: Reading)
    returns (r: Result<seq<BranchRecord>>)
    requires TapsSet(raw) && FindsExactly(st.networkName, buses, raw.busMap)
    requires forall id {:trigger raw.busMap[id]} :: id in raw.busMap ==> BusMakeable(raw.busMap[id], st.usePerUnit)
    ensures r.Ok? <==> AllMakeable(raw.branches, |raw.branches|, raw.busMap, st.usePerUnit)
    ensures r.Ok? ==> r.value == BranchesOf(raw.branches, |raw.branches|, raw.busMap, raw.sBase, st.usePerUnit, polar)
  {
    var branches: seq<BranchRecord> := [];
    for i := 0 to |raw.branches|
      invariant AllMakeable(raw.branches, i, raw.busMap, st.usePerUnit)
      invariant branches == BranchesOf(raw.branches, i, raw.busMap, raw.sBase, st.usePerUnit, polar)
    {
      var made := MakeBranch(raw, st, buses, i, polar, rd);
      if made.Err? {
        return Err(made.msg);
      }
      branches := branches + [made.value];
    }
    return Ok(branches);
  }

  /** One branch: its two busses are looked up by name, the from-bus
      first, and a missing one aborts with its message. */
  method MakeBranch(raw: Raw, st: Settings, buses: seq<BusRecord>, i: nat, polar: (real, real) -> Complex,
                    rd: Reading)
    returns (r: Result<BranchRecord>)
    requires i < |raw.branches| && TapsSet(raw) && FindsExactly(st.networkName, buses, raw.busMap)
    requires forall id {:trigger raw.busMap[id]} :: id in raw.busMap ==> BusMakeable(raw.busMap[id], st.usePerUnit)
    ensures r.Ok? <==> BranchMakeable(raw.branches[i], raw.busMap, st.usePerUnit)
    ensures raw.branches[i].bus0Id !in raw.busMap ==> r == Err(FromBusMessage(raw.branches[i]))
    ensures raw.branches[i].bus0Id in raw.busMap && raw.branches[i].bus1Id !in raw.busMap ==>
              r == Err(ToBusMessageOf(rd, raw.branches[i]))
    ensures r.Ok? ==> r.value == BranchOf(i, raw.branches[i], raw.busMap, raw.sBase, st.usePerUnit, polar)
  {
    var m := raw.busMap;
    var prefix := st.networkName;
    var b := raw.branches[i];
    var bus0 := FindName(prefix, buses, BusName(prefix, b.bus0Id));
    if bus0.None? {
      return Err(FromBusMessage(b));
    }
    var bus1 := FindName(prefix, buses, BusName(prefix, b.bus1Id));
    if bus1.None? {
      return Err(ToBusMessageOf(rd, b));
    }
    return Ok(BranchOf(i, b, m, raw.sBase, st.usePerUnit, polar));
  }

  /** The components made from the gathered data: the busses with their
      ZIP loads, then the branches. */
  method BuildCase(raw: Raw, st: Settings, polar: (real, real) -> Complex, rd: Reading)
    returns (r: Result<CdfCase>)
    requires TapsSet(raw)
    ensures r.Ok? <==> BuildOk(raw, st.usePerUnit)
    ensures r.Ok? ==>
              var ids := SortedIds(raw.busMap.Keys);
              var c := r.value;
              c.networkName == st.networkName && c.freq == st.freq && c.nPhase == st.nPhase
              && BusesMakeable(ids, |ids|, raw.busMap, st.usePerUnit)
              && c.buses == BusesOf(st.networkName, ids, |ids|, raw.busMap, raw.sBase, st.usePerUnit)
              && c.zips == ZipsOf(st.networkName, ids, |ids|, raw.busMap, raw.sBase, st.usePerUnit)
              && AllMakeable(raw.branches, |raw.branches|, raw.busMap, st.usePerUnit)
              && c.branches == BranchesOf(raw.branches, |raw.branches|, raw.busMap, raw.sBase, st.usePerUnit, polar)
  {
    var made := BuildBuses(raw, st);
    if made.Err? {
      return Err(made.msg);
    }
    var buses, zips := made.value.0, made.value.1;
    WalkFindsExactly(st.networkName, raw.busMap, raw.sBase, st.usePerUnit);
    var branches := BuildBranches(raw, st, buses, polar, rd);
    MakeableIffEndsExist(raw, st.usePerUnit);
    if branches.Err? {
      return Err(branches.msg);
    }
    return Ok(CdfCase(st.networkName, st.freq, st.nPhase, buses, zips, branches.value));
  }

  /** A nonempty finite set of numbers has a smallest one. */
  lemma MinExists(s: set<int>, x: int)
    requires x in s
    ensures exists m :: m in s && forall y :: y in s ==> m <= y
  {
    var m := MinOf(s);
  }

  // ------------------------------------------------------------- the parser

  /** The settings with the input file's and the network's names expanded
      for the active loops. */
  function Expanded(st: Settings, loops: seq<NameExpansion.Loop>): Settings
  {
    st.(inputFile := NameExpansion.ExpandByReplace(st.inputFile, loops),
        networkName := NameExpansion.ExpandByReplace(st.networkName, loops))
  }

  function OpenMessage(name: string): string
  {
    "Could not open the CDF input file " + name + "."
  }

  /** Whether parsing succeeds: the settings are complete, the expanded
      input file exists, its lines read as a CDF file and the network can
      be built from them. */
  predicate ParseOk(nd: CdfNode, loops: seq<NameExpansion.Loop>, files: map<string, seq<string>>, rd: Readers,
                    polar: (real, real) -> Complex, pi: real)
  {
    SettingsOf(nd).Ok?
    && var st := Expanded(SettingsOf(nd).value, loops);
    st.inputFile in files
    && var raw := ReadSpec(files[st.inputFile], Env(st.defaultVBase, rd, polar, pi));
    raw.Ok? && BuildOk(raw.value, st.usePerUnit)
  }

  /** `CdfParser::parse`: the settings, the expanded names, the file's
      lines and then the network, aborting where the source aborts. */
  method Parse(nd: CdfNode, loops: seq<NameExpansion.Loop>, files: map<string, seq<string>>, rd: Readers,
               polar: (real, real) -> Complex, pi: real, reading: Reading)
    returns (r: Result<CdfCase>)
    ensures r.Ok? <==> ParseOk(nd, loops, files, rd, polar, pi)
    ensures SettingsOf(nd).Err? ==> r == Err(SettingsOf(nd).msg)
    ensures SettingsOf(nd).Ok? && Expanded(SettingsOf(nd).value, loops).inputFile !in files ==>
              r == Err(OpenMessage(Expanded(SettingsOf(nd).value, loops).inputFile))
    ensures r.Ok? ==>
              var st := Expanded(SettingsOf(nd).value, loops);
              var raw := ReadSpec(files[st.inputFile], Env(st.defaultVBase, rd, polar, pi)).value;
              var ids := SortedIds(raw.busMap.Keys);
              r.value.networkName == st.networkName && r.value.freq == st.freq && r.value.nPhase == st.nPhase
              && BusesMakeable(ids, |ids|, raw.busMap, st.usePerUnit)
              && r.value.buses == BusesOf(st.networkName, ids, |ids|, raw.busMap, raw.sBase, st.usePerUnit)
              && r.value.zips == ZipsOf(st.networkName, ids, |ids|, raw.busMap, raw.sBase, st.usePerUnit)
              && AllMakeable(raw.branches, |raw.branches|, raw.busMap, st.usePerUnit)
              && r.value.branches == BranchesOf(raw.branches, |raw.branches|, raw.busMap, raw.sBase, st.usePerUnit, polar)
  {
    var settings := SettingsOf(nd);
    if settings.Err? {
      return Err(settings.msg);
    }
    var st := Expanded(settings.value, loops);
    if st.inputFile !in files {
      return Err(OpenMessage(st.inputFile));
    }
    var env := Env(st.defaultVBase, rd, polar, pi);
    var raw := ReadCdf(files[st.inputFile], env);
    if raw.Err? {
      return Err(raw.msg);
    }
    ReadTapsSet(files[st.inputFile], env);
    r := BuildCase(raw.value, st, polar, reading);
  }
}
