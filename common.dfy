// SgtCore/Common.h and the log levels of SgtCore/Common.cc: the indenting
// stream buffer behind the log, the log's prefixes and indent level, and
// the small vector algebra on fixed-size arrays. What the buffer passes on
// to the stream it wraps is recorded in `out`.

module Common {

  /** Text written to an indenting buffer with the given state: a character
      other than '\n' that starts a line is preceded by ind1 if nothing has
      been written since the last reset, otherwise by ind2. */
  function Indented(s: string, isNewline: bool, isFirst: bool, ind1: string, ind2: string): string
  {
    if |s| == 0 then []
    else
      var pre := if isNewline && s[0] != '\n' then (if isFirst then ind1 else ind2) else [];
      pre + [s[0]] + Indented(s[1..], s[0] == '\n', false, ind1, ind2)
  }

  lemma {:induction false} IndentedAppend(s: string, t: string, isNewline: bool, isFirst: bool, ind1: string, ind2: string)
    requires |s| > 0
    ensures Indented(s + t, isNewline, isFirst, ind1, ind2)
            == Indented(s, isNewline, isFirst, ind1, ind2) + Indented(t, s[|s| - 1] == '\n', false, ind1, ind2)
    decreases |s|
  {
    assert (s + t)[1..] == s[1..] + t;
    if |s| > 1 {
      IndentedAppend(s[1..], t, s[0] == '\n', false, ind1, ind2);
    }
  }

  /** A line without '\n' is passed on whole, behind a single prefix when it
      starts a line and is not empty. */
  lemma {:induction false} IndentedLine(line: string, isFirst: bool, ind1: string, ind2: string)
    requires forall i :: 0 <= i < |line| ==> line[i] != '\n'
    ensures Indented(line, true, isFirst, ind1, ind2)
            == if |line| == 0 then [] else (if isFirst then ind1 else ind2) + line
  {
    if |line| > 0 {
      MidLine(line[1..], ind1, ind2);
    }
  }

  /** Inside a line nothing is added. */
  lemma {:induction false} MidLine(s: string, ind1: string, ind2: string)
    requires forall i :: 0 <= i < |s| ==> s[i] != '\n'
    ensures Indented(s, false, false, ind1, ind2) == s
  {
    if |s| > 0 {
      MidLine(s[1..], ind1, ind2);
    }
  }

  /** Text made of lines: each line is indented on its own, and every line
      after the first gets ind2. */
  lemma IndentedLines(line: string, rest: string, isFirst: bool, ind1: string, ind2: string)
    requires forall i :: 0 <= i < |line| ==> line[i] != '\n'
    ensures Indented(line + "\n" + rest, true, isFirst, ind1, ind2)
            == Indented(line, true, isFirst, ind1, ind2) + "\n" + Indented(rest, true, false, ind1, ind2)
  {
    if |line| == 0 {
      assert line + "\n" + rest == "\n" + rest;
      assert ("\n" + rest)[1..] == rest;
    } else {
      IndentedAppend(line, "\n" + rest, true, isFirst, ind1, ind2);
      IndentedAppend("\n", rest, (line + "\n" + rest)[|line| - 1] == '\n', false, ind1, ind2);
      assert line + "\n" + rest == line + ("\n" + rest);
      IndentedLine(line, isFirst, ind1, ind2);
      assert Indented("\n", line[|line| - 1] == '\n', false, ind1, ind2) == "\n";
    }
  }

  /** `StreamIndent`: a stream buffer that puts a prefix in front of every
      line it passes on. */
  class StreamIndent {
    var out: string
    var isFirst: bool
    var isNewline: bool
    var ind1: string
    var ind2: string

    /** Both prefixes start as four spaces, and the first character written
        starts a line. */
    constructor()
      ensures out == [] && isFirst && isNewline && ind1 == "    " && ind2 == "    "
    {
      out := [];
      isFirst := true;
      isNewline := true;
      ind1 := "    ";
      ind2 := "    ";
    }

    /** `reset`: new prefixes, and the next output counts as the first. */
    method Reset(newInd1: string, newInd2: string)
      modifies this
      ensures ind1 == newInd1 && ind2 == newInd2 && isFirst
      ensures out == old(out) && isNewline == old(isNewline)
    {
      ind1 := newInd1;
      ind2 := newInd2;
      isFirst := true;
    }

    /** `overflow(ch)`: the character is passed on, after the prefix if it
        starts a line. */
    method Overflow(ch: char)
      modifies this
      ensures out == old(out) + Indented([ch], old(isNewline), old(isFirst), ind1, ind2)
      ensures isNewline == (ch == '\n') && !isFirst
      ensures ind1 == old(ind1) && ind2 == old(ind2)
    {
      if isNewline && ch != '\n' {
        if isFirst {
          out := out + ind1;
        } else {
          out := out + ind2;
        }
      }
      isNewline := ch == '\n';
      isFirst := false;
      out := out + [ch];
    }

    /** Writing a string: one `overflow` per character. */
    method Write(s: string)
      modifies this
      ensures out == old(out) + Indented(s, old(isNewline), old(isFirst), ind1, ind2)
      ensures |s| > 0 ==> isNewline == (s[|s| - 1] == '\n') && !isFirst
      ensures |s| == 0 ==> isNewline == old(isNewline) && isFirst == old(isFirst)
      ensures ind1 == old(ind1) && ind2 == old(ind2)
    {
      var i := 0;
      while i < |s|
        invariant 0 <= i <= |s|
        invariant ind1 == old(ind1) && ind2 == old(ind2)
        invariant out == old(out) + Indented(s[..i], old(isNewline), old(isFirst), ind1, ind2)
        invariant i > 0 ==> isNewline == (s[i - 1] == '\n') && !isFirst
        invariant i == 0 ==> isNewline == old(isNewline) && isFirst == old(isFirst)
      {
        if i > 0 {
          IndentedAppend(s[..i], [s[i]], old(isNewline), old(isFirst), ind1, ind2);
        }
        assert s[..i + 1] == s[..i] + [s[i]];
        Overflow(s[i]);
        i := i + 1;
      }
      assert s[..i] == s;
    }
  }

  /** Writing "ab\ncd\n" after construction puts the four-space prefix in
      front of both lines. */
  method StreamIndentExample() returns (text: string)
    ensures text == "    ab\n    cd\n"
  {
    var buf := new StreamIndent();
    buf.Write("ab\ncd\n");
    text := buf.out;
    IndentedLines("ab", "cd\n", true, "    ", "    ");
    IndentedLines("cd", "", false, "    ", "    ");
    IndentedLine("ab", true, "    ", "    ");
    IndentedLine("cd", false, "    ", "    ");
    assert "ab" + "\n" + ("cd" + "\n" + "") == "ab\ncd\n";
  }

  /** The log's channels. */
  datatype Channel = Message | Warning | Debug | Error | Fatal

  function Spaces(n: nat): (r: string)
    ensures |r| == n && forall i :: 0 <= i < n ==> r[i] == ' '
  {
    if n == 0 then [] else Spaces(n - 1) + " "
  }

  /** The tag that starts the first line of a log entry. */
  function Tag(c: Channel): string
  {
    match c
    case Message => "MESSAGE: "
    case Warning => "WARNING: "
    case Debug => "DEBUG  : "
    case Error => "ERROR  : "
    case Fatal => "FATAL  : "
  }

  /** The two prefixes `Log` installs for an entry: the tag, or as many
      spaces, followed by the indent. Both have the same length, so the
      continuation lines of an entry line up with its first line. */
  function Prefixes(c: Channel, indentLevel: nat): (r: (string, string))
    ensures |r.0| == |r.1| == 9 + indentLevel
    ensures r.0[..9] == Tag(c) && forall i :: 0 <= i < |r.1| ==> r.1[i] == ' '
    ensures r.0[9..] == r.1[9..]
  {
    (Tag(c) + Spaces(indentLevel), Spaces(9) + Spaces(indentLevel))
  }

  /** `Log`'s shared indent level. */
  class Log {
    var indentLevel: int

    constructor()
      ensures indentLevel == 0
    {
      indentLevel := 0;
    }

    /** Constructing a `LogIndent`. */
    method OpenIndent()
      modifies this
      ensures indentLevel == old(indentLevel) + 4
    {
      indentLevel := indentLevel + 4;
    }

    /** Destroying a `LogIndent`. */
    method CloseIndent()
      modifies this
      ensures indentLevel == old(indentLevel) - 4
    {
      indentLevel := indentLevel - 4;
    }

    /** Starting an entry on a channel: the buffer is reset with the
        channel's prefixes at the current indent. */
    method Start(c: Channel, buf: StreamIndent)
      requires indentLevel >= 0
      modifies buf
      ensures (buf.ind1, buf.ind2) == Prefixes(c, indentLevel)
      ensures buf.isFirst && buf.out == old(buf.out) && buf.isNewline == old(buf.isNewline)
    {
      var p := Prefixes(c, indentLevel);
      buf.Reset(p.0, p.1);
    }
  }

  /** A `LogIndent` scope indents an entry written inside it by four more
      spaces, and leaves the level as it was. */
  method IndentedEntry(log: Log, buf: StreamIndent, c: Channel, msg: string)
    requires log.indentLevel >= 0
    requires forall i :: 0 <= i < |msg| ==> msg[i] != '\n'
    modifies log, buf
    ensures log.indentLevel == old(log.indentLevel)
    ensures buf.out == old(buf.out) + Indented(msg, old(buf.isNewline), true,
                                               Prefixes(c, old(log.indentLevel) + 4).0,
                                               Prefixes(c, old(log.indentLevel) + 4).1)
  {
    log.OpenIndent();
    log.Start(c, buf);
    buf.Write(msg);
    log.CloseIndent();
  }

  datatype LogLevel = NONE | NORMAL | VERBOSE

  /** The four log-level settings. */
  class LogLevels {
    var message: LogLevel
    var warning: LogLevel
    var error: LogLevel
    var debug: LogLevel

    /** Messages, warnings and errors are shown at the normal level; debug
        output is off. */
    constructor()
      ensures message == NORMAL && warning == NORMAL && error == NORMAL && debug == NONE
    {
      message := NORMAL;
      warning := NORMAL;
      error := NORMAL;
      debug := NONE;
    }
  }

  // Vectors of a fixed dimension, `Array<double, d>`.

  /** The sum of products of the first n components. */
  function DotPrefix(v1: seq<real>, v2: seq<real>, n: nat): real
    requires n <= |v1| == |v2|
  {
    if n == 0 then 0.0 else DotPrefix(v1, v2, n - 1) + v1[n - 1] * v2[n - 1]
  }

  /** The dot product is symmetric. */
  lemma {:induction false} DotSymmetric(v1: seq<real>, v2: seq<real>, n: nat)
    requires n <= |v1| == |v2|
    ensures DotPrefix(v1, v2, n) == DotPrefix(v2, v1, n)
  {
    if n > 0 {
      DotSymmetric(v1, v2, n - 1);
      assert v1[n - 1] * v2[n - 1] == v2[n - 1] * v1[n - 1];
    }
  }

  /** Scaling one side scales the dot product. */
  lemma {:induction false} DotScale(v1: seq<real>, v2: seq<real>, s: real, n: nat)
    requires n <= |v1| == |v2|
    ensures DotPrefix(Scaled(v1, s), v2, n) == s * DotPrefix(v1, v2, n)
  {
    if n > 0 {
      DotScale(v1, v2, s, n - 1);
      assert Scaled(v1, s)[n - 1] * v2[n - 1] == s * (v1[n - 1] * v2[n - 1]);
    }
  }

  /** `dot`. */
  method Dot(v1: seq<real>, v2: seq<real>) returns (result: real)
    requires |v1| == |v2|
    ensures result == DotPrefix(v1, v2, |v1|)
  {
    result := 0.0;
    var i := 0;
    while i < |v1|
      invariant 0 <= i <= |v1|
      invariant result == DotPrefix(v1, v2, i)
    {
      result := result + v1[i] * v2[i];
      i := i + 1;
    }
  }

  function Scaled(v: seq<real>, s: real): (r: seq<real>)
    ensures |r| == |v| && forall i :: 0 <= i < |v| ==> r[i] == v[i] * s
  {
    seq(|v|, i requires 0 <= i < |v| => v[i] * s)
  }

  /** `v * s` and `s * v`: the copy is scaled component by component. */
  method Scale(v: seq<real>, s: real) returns (result: seq<real>)
    ensures result == Scaled(v, s)
  {
    result := v;
    var i := 0;
    while i < |v|
      invariant 0 <= i <= |v| && |result| == |v|
      invariant forall k :: 0 <= k < i ==> result[k] == v[k] * s
      invariant forall k :: i <= k < |v| ==> result[k] == v[k]
    {
      result := result[i := result[i] * s];
      i := i + 1;
    }
  }

  /** `lhs + rhs`, componentwise. */
  method Add(lhs: seq<real>, rhs: seq<real>) returns (result: seq<real>)
    requires |lhs| == |rhs|
    ensures |result| == |lhs| && forall i :: 0 <= i < |lhs| ==> result[i] == lhs[i] + rhs[i]
  {
    result := lhs;
    var i := 0;
    while i < |lhs|
      invariant 0 <= i <= |lhs| && |result| == |lhs|
      invariant forall k :: 0 <= k < i ==> result[k] == lhs[k] + rhs[k]
      invariant forall k :: i <= k < |lhs| ==> result[k] == lhs[k]
    {
      result := result[i := result[i] + rhs[i]];
      i := i + 1;
    }
  }

  /** `lhs - rhs`, componentwise; subtracting what was added gives back
      the original. */
  method Sub(lhs: seq<real>, rhs: seq<real>) returns (result: seq<real>)
    requires |lhs| == |rhs|
    ensures |result| == |lhs| && forall i :: 0 <= i < |lhs| ==> result[i] == lhs[i] - rhs[i]
  {
    result := lhs;
    var i := 0;
    while i < |lhs|
      invariant 0 <= i <= |lhs| && |result| == |lhs|
      invariant forall k :: 0 <= k < i ==> result[k] == lhs[k] - rhs[k]
      invariant forall k :: i <= k < |lhs| ==> result[k] == lhs[k]
    {
      result := result[i := result[i] - rhs[i]];
      i := i + 1;
    }
  }

  /** Adding then subtracting the same vector gives back the original, and
      a vector dotted with itself is not negative. */
  method AddSubRoundTrip(v: seq<real>, w: seq<real>) returns (back: seq<real>, selfDot: real)
    requires |v| == |w|
    ensures back == v && selfDot >= 0.0
  {
    var sum := Add(v, w);
    back := Sub(sum, w);
    selfDot := Dot(v, v);
    SelfDotNonneg(v, |v|);
  }

  lemma {:induction false} SelfDotNonneg(v: seq<real>, n: nat)
    requires n <= |v|
    ensures DotPrefix(v, v, n) >= 0.0
  {
    if n > 0 {
      SelfDotNonneg(v, n - 1);
      assert v[n - 1] * v[n - 1] >= 0.0;
    }
  }
}
