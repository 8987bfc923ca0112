// Complex numbers as text, SgtCore/Common.cc: the grammar `from_string`
// parses with and the form `to_string` writes. The text is taken as a
// sequence of tokens, with white space already skipped; a number token
// carries the value of its digits, and a leading sign is a token of its own
// that the number rule `double_` accepts in front of it.

module ComplexText {
  import opened Shared

  datatype Token =
    | Num(x: real)
    | Plus | Minus
    | LParen | RParen | Comma
    /** `char_("ij")` */
    | ImagI | ImagJ
    /** 'R' and 'D' before a phase angle */
    | PolarRad | PolarDeg

  /** The unit phasor `polar(1.0, ang)` and the value of pi. */
  datatype Trig = Trig(unitPhasor: real -> Complex, pi: real)

  predicate At(toks: seq<Token>, i: nat, t: Token)
  {
    i < |toks| && toks[i] == t
  }

  predicate IsImag(toks: seq<Token>, i: nat)
  {
    i < |toks| && (toks[i] == ImagI || toks[i] == ImagJ)
  }

  /** `double_`: an optional sign and a number; the value and the position
      after it. */
  function Double(toks: seq<Token>, i: nat): (r: Option<(real, nat)>)
    ensures r.Some? ==> i < r.value.1 <= |toks|
  {
    if i < |toks| && toks[i].Num? then Some((toks[i].x, i + 1))
    else if i + 1 < |toks| && toks[i] == Plus && toks[i + 1].Num? then Some((toks[i + 1].x, i + 2))
    else if i + 1 < |toks| && toks[i] == Minus && toks[i + 1].Num? then Some((-toks[i + 1].x, i + 2))
    else None
  }

  /** `bracketedBoth_`: "(re, im)". */
  function BracketedBoth(toks: seq<Token>): Option<(Complex, nat)>
  {
    if !At(toks, 0, LParen) then None
    else match Double(toks, 1)
      case None => None
      case Some((a, j)) =>
        if !At(toks, j, Comma) then None
        else match Double(toks, j + 1)
          case None => None
          case Some((b, k)) => if At(toks, k, RParen) then Some((Complex(a, b), k + 1)) else None
  }

  /** `bracketedIm_`: "(, im)". */
  function BracketedIm(toks: seq<Token>): Option<(Complex, nat)>
  {
    if !(At(toks, 0, LParen) && At(toks, 1, Comma)) then None
    else match Double(toks, 2)
      case None => None
      case Some((b, k)) => if At(toks, k, RParen) then Some((Complex(0.0, b), k + 1)) else None
  }

  /** `bracketedRe_`: "(re)" or "(re,)". */
  function BracketedRe(toks: seq<Token>): Option<(Complex, nat)>
  {
    if !At(toks, 0, LParen) then None
    else match Double(toks, 1)
      case None => None
      case Some((a, j)) =>
        var k := if At(toks, j, Comma) then j + 1 else j;
        if At(toks, k, RParen) then Some((Complex(a, 0.0), k + 1)) else None
  }

  /** `rePlusIm_` and `reMinusIm_`: "re + im j" and "re - im j". */
  function ReSignIm(toks: seq<Token>, sign: Token): Option<(Complex, nat)>
    requires sign == Plus || sign == Minus
  {
    match Double(toks, 0)
    case None => None
    case Some((a, j)) =>
      if !At(toks, j, sign) then None
      else match Double(toks, j + 1)
        case None => None
        case Some((b, k)) =>
          if IsImag(toks, k) then Some((Complex(a, if sign == Plus then b else -b), k + 1)) else None
  }

  /** `im_`: "im j". */
  function Im(toks: seq<Token>): Option<(Complex, nat)>
  {
    match Double(toks, 0)
    case None => None
    case Some((b, j)) => if IsImag(toks, j) then Some((Complex(0.0, b), j + 1)) else None
  }

  /** `re_`: a plain number. */
  function Re(toks: seq<Token>): Option<(Complex, nat)>
  {
    match Double(toks, 0)
    case None => None
    case Some((a, j)) => Some((Complex(a, 0.0), j))
  }

  /** The alternatives of `start_`, tried in order; the first that matches
      gives the Cartesian value and where it ends. */
  function Cartesian(toks: seq<Token>): Option<(Complex, nat)>
  {
    if BracketedBoth(toks).Some? then BracketedBoth(toks)
    else if BracketedIm(toks).Some? then BracketedIm(toks)
    else if BracketedRe(toks).Some? then BracketedRe(toks)
    else if ReSignIm(toks, Plus).Some? then ReSignIm(toks, Plus)
    else if ReSignIm(toks, Minus).Some? then ReSignIm(toks, Minus)
    else if Im(toks).Some? then Im(toks)
    else Re(toks)
  }

  /** `ang * pi / 180.0` */
  function DegToRad(ang: real, trig: Trig): real
  {
    ang * trig.pi / 180.0
  }

  /** `-(phaseRad_ | phaseDeg_)`: a following phase in radians or degrees
      turns the value by that angle; without one the value is kept. */
  function Phase(toks: seq<Token>, e: nat, v: Complex, trig: Trig): Complex
  {
    if At(toks, e, PolarRad) && Double(toks, e + 1).Some? then
      CMul(v, trig.unitPhasor(Double(toks, e + 1).value.0))
    else if At(toks, e, PolarDeg) && Double(toks, e + 1).Some? then
      CMul(v, trig.unitPhasor(DegToRad(Double(toks, e + 1).value.0, trig)))
    else v
  }

  /** `from_string<Complex>`: the value of the grammar's match at the start
      of the text; no match is an error. Text after the match is not
      looked at. */
  function FromString(toks: seq<Token>, trig: Trig): (r: Result<Complex>)
    ensures |toks| > 0 && toks[0].Num? ==> r.Ok?
    ensures r.Ok? ==> |toks| >= 1 && (toks[0].Num? || toks[0] in {LParen, Plus, Minus})
  {
    match Cartesian(toks)
    case None => Err("Bad complex number string")
    case Some((v, e)) => Ok(Phase(toks, e, v, trig))
  }

  /** "(a, b)", "(, b)", "(a)" and "(a,)" read as the numbers they write. */
  lemma BracketedForms(a: real, b: real, trig: Trig)
    ensures FromString([LParen, Num(a), Comma, Num(b), RParen], trig) == Ok(Complex(a, b))
    ensures FromString([LParen, Comma, Num(b), RParen], trig) == Ok(Complex(0.0, b))
    ensures FromString([LParen, Num(a), RParen], trig) == Ok(Complex(a, 0.0))
    ensures FromString([LParen, Num(a), Comma, RParen], trig) == Ok(Complex(a, 0.0))
  {
    assert BracketedIm([LParen, Comma, Num(b), RParen]) == Some((Complex(0.0, b), 4));
    assert BracketedRe([LParen, Num(a), Comma, RParen]) == Some((Complex(a, 0.0), 4));
  }

  /** "a + bj", "a - bi", "-a - bj", "bj" and "a" read as the numbers they
      write. */
  lemma UnbracketedForms(a: real, b: real, trig: Trig)
    ensures FromString([Num(a), Plus, Num(b), ImagJ], trig) == Ok(Complex(a, b))
    ensures FromString([Num(a), Minus, Num(b), ImagI], trig) == Ok(Complex(a, -b))
    ensures FromString([Minus, Num(a), Minus, Num(b), ImagJ], trig) == Ok(Complex(-a, -b))
    ensures FromString([Num(b), ImagJ], trig) == Ok(Complex(0.0, b))
    ensures FromString([Num(a)], trig) == Ok(Complex(a, 0.0))
  {
  }

  /** A phase in radians multiplies by the unit phasor of the angle; one
      in degrees by the unit phasor of the angle converted to radians. */
  lemma PolarForms(m: real, ang: real, trig: Trig)
    ensures FromString([Num(m), PolarRad, Num(ang)], trig) == Ok(CMul(Complex(m, 0.0), trig.unitPhasor(ang)))
    ensures FromString([Num(m), PolarDeg, Num(ang)], trig)
            == Ok(CMul(Complex(m, 0.0), trig.unitPhasor(DegToRad(ang, trig))))
  {
  }

  /** Unmatched text after a number is ignored: "a + b" without the
      imaginary unit reads as a, and "(a, b" without the bracket is an
      error. */
  lemma TrailingIgnored(a: real, b: real, trig: Trig)
    ensures FromString([Num(a), Plus, Num(b)], trig) == Ok(Complex(a, 0.0))
    ensures FromString([LParen, Num(a), Comma, Num(b)], trig).Err?
  {
  }

  /** `to_string`: the parts are cast to float (`toFloat`) and their
      magnitudes written (`show`, the default six significant digits); the
      real part carries a minus sign only when negative, and the imaginary
      part, if not zero, follows with its sign and 'j'. */
  function ToString(c: Complex, toFloat: real -> real, show: real -> real): seq<Token>
  {
    var re := toFloat(c.re);
    var im := toFloat(c.im);
    var reText := if re >= 0.0 then [Num(show(re))] else [Minus, Num(show(-re))];
    if im == 0.0 then reText
    else reText + (if im >= 0.0 then [Plus, Num(show(im))] else [Minus, Num(show(-im))]) + [ImagJ]
  }

  /** The value a written part reads back as. */
  function Written(x: real, show: real -> real): real
  {
    if x >= 0.0 then show(x) else -show(-x)
  }

  /** Reading back what `to_string` wrote gives each part as cast and
      written, with its sign. */
  lemma RoundTrip(c: Complex, toFloat: real -> real, show: real -> real, trig: Trig)
    ensures FromString(ToString(c, toFloat, show), trig)
            == Ok(Complex(Written(toFloat(c.re), show),
                          if toFloat(c.im) == 0.0 then 0.0 else Written(toFloat(c.im), show)))
  {
  }

  /** Where the cast and the printing are exact, the round trip is the
      identity. */
  lemma ExactRoundTrip(c: Complex, trig: Trig)
    ensures FromString(ToString(c, x => x, x => x), trig) == Ok(c)
  {
    RoundTrip(c, x => x, x => x, trig);
  }
}
