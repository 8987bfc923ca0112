// The integer `Calculator` grammar of SgtCore/Parser.cc, run by
// `phrase_parse` with a white-space skipper over the characters of a
// string. A parse reads a prefix of the text: whatever follows the longest
// expression is left unread and does not make the parse fail.

module Calculator {
  import opened Shared

  /** What a rule yields at a position: a value and the position after it,
      no match, or a division by zero, which in the source is undefined
      behaviour (an arithmetic trap) rather than a parse failure. */
  datatype Parse = Parsed(val: int, pos: nat) | NoMatch | DivByZero

  /** `ascii::space`. */
  predicate IsSpace(c: char)
  {
    c == ' ' || c == '\t' || c == '\n' || c == '\r' || c as int == 11 || c as int == 12
  }

  predicate IsDigit(c: char)
  {
    '0' <= c <= '9'
  }

  function DigitVal(c: char): int
    requires IsDigit(c)
  {
    c as int - '0' as int
  }

  /** The skipper, run before every token. */
  function Skip(s: string, p: nat): (q: nat)
    requires p <= |s|
    ensures p <= q <= |s|
    ensures forall i :: p <= i < q ==> IsSpace(s[i])
    ensures q < |s| ==> !IsSpace(s[q])
    decreases |s| - p
  {
    if p < |s| && IsSpace(s[p]) then Skip(s, p + 1) else p
  }

  /** The end of the run of digits starting at p. */
  function DigitsEnd(s: string, p: nat): (q: nat)
    requires p <= |s|
    ensures p <= q <= |s|
    ensures forall i :: p <= i < q ==> IsDigit(s[i])
    ensures q < |s| ==> !IsDigit(s[q])
    decreases |s| - p
  {
    if p < |s| && IsDigit(s[p]) then DigitsEnd(s, p + 1) else p
  }

  /** The value of a run of decimal digits. */
  function DigitsVal(d: string): nat
    requires forall i :: 0 <= i < |d| ==> IsDigit(d[i])
  {
    if |d| == 0 then 0 else 10 * DigitsVal(d[..|d| - 1]) + DigitVal(d[|d| - 1]) as nat
  }

  const UIntMax: int := 0x1_0000_0000 - 1

  /** `unsigned` to `int`: values above the largest `int` wrap. */
  function ToInt32(u: nat): (r: int)
    requires u <= UIntMax
    ensures -0x8000_0000 <= r < 0x8000_0000
    ensures u < 0x8000_0000 ==> r == u
  {
    if u < 0x8000_0000 then u else u - 0x1_0000_0000
  }

  /** C++ `/` on `int`: the quotient truncated toward zero. */
  function CDiv(a: int, b: int): (r: int)
    requires b != 0
    ensures a >= 0 && b > 0 ==> r == a / b
  {
    if (a >= 0) == (b > 0) then
      (if a >= 0 then a / b else (-a) / (-b))
    else
      -(if a >= 0 then a / (-b) else (-a) / b)
  }

  /** `uint_`: a run of digits whose value fits an `unsigned`, converted
      to `int` by the action `_val = _1`. */
  function UInt(s: string, p: nat): (r: Parse)
    requires p <= |s|
    ensures r.Parsed? ==> p < r.pos <= |s|
    ensures r != DivByZero
  {
    var q := Skip(s, p);
    var e := DigitsEnd(s, q);
    if e == q || DigitsVal(s[q..e]) > UIntMax then NoMatch
    else Parsed(ToInt32(DigitsVal(s[q..e])), e)
  }

  /** The position after the literal character c, if it comes next. */
  function Lit(s: string, p: nat, c: char): (r: Option<nat>)
    requires p <= |s|
    ensures r.Some? ==> p < r.value <= |s|
  {
    var q := Skip(s, p);
    if q < |s| && s[q] == c then Some(q + 1) else None
  }

  /** `expression = term >> *('+' >> term | '-' >> term)`. */
  function Expression(s: string, p: nat): (r: Parse)
    requires p <= |s|
    ensures r.Parsed? ==> p < r.pos <= |s|
    decreases |s| - p, 3
  {
    match Term(s, p)
    case Parsed(v, q) => ExpressionTail(s, q, v)
    case other => other
  }

  /** The repetition of `expression`: the value so far is acc. An operator
      not followed by a term ends the repetition before the operator. */
  function ExpressionTail(s: string, p: nat, acc: int): (r: Parse)
    requires p <= |s|
    ensures r.Parsed? ==> p <= r.pos <= |s|
    decreases |s| - p, 4
  {
    match Lit(s, p, '+')
    case Some(q) =>
      (match Term(s, q)
       case Parsed(v, e) => ExpressionTail(s, e, acc + v)
       case NoMatch => Parsed(acc, p)
       case DivByZero => DivByZero)
    case None =>
      match Lit(s, p, '-')
      case Some(q) =>
        (match Term(s, q)
         case Parsed(v, e) => ExpressionTail(s, e, acc - v)
         case NoMatch => Parsed(acc, p)
         case DivByZero => DivByZero)
      case None => Parsed(acc, p)
  }

  /** `term = factor >> *('*' >> factor | '/' >> factor)`. */
  function Term(s: string, p: nat): (r: Parse)
    requires p <= |s|
    ensures r.Parsed? ==> p < r.pos <= |s|
    decreases |s| - p, 2
  {
    match Factor(s, p)
    case Parsed(v, q) => TermTail(s, q, v)
    case other => other
  }

  /** The repetition of `term`. */
  function TermTail(s: string, p: nat, acc: int): (r: Parse)
    requires p <= |s|
    ensures r.Parsed? ==> p <= r.pos <= |s|
    decreases |s| - p, 4
  {
    match Lit(s, p, '*')
    case Some(q) =>
      (match Factor(s, q)
       case Parsed(v, e) => TermTail(s, e, acc * v)
       case NoMatch => Parsed(acc, p)
       case DivByZero => DivByZero)
    case None =>
      match Lit(s, p, '/')
      case Some(q) =>
        (match Factor(s, q)
         case Parsed(v, e) => if v == 0 then DivByZero else TermTail(s, e, CDiv(acc, v))
         case NoMatch => Parsed(acc, p)
         case DivByZero => DivByZero)
      case None => Parsed(acc, p)
  }

  /** `factor = uint_ | '(' >> expression >> ')' | '-' >> factor | '+' >> factor`. */
  function Factor(s: string, p: nat): (r: Parse)
    requires p <= |s|
    ensures r.Parsed? ==> p < r.pos <= |s|
    decreases |s| - p, 1
  {
    if UInt(s, p).Parsed? then UInt(s, p)
    else
      match Lit(s, p, '(')
      case Some(q) =>
        (match Expression(s, q)
         case Parsed(v, e) =>
           (match Lit(s, e, ')')
            case Some(f) => Parsed(v, f)
            case None => SignedFactor(s, p))
         case NoMatch => SignedFactor(s, p)
         case DivByZero => DivByZero)
      case None => SignedFactor(s, p)
  }

  /** The last two alternatives of `factor`: a sign before a factor. */
  function SignedFactor(s: string, p: nat): (r: Parse)
    requires p <= |s|
    ensures r.Parsed? ==> p < r.pos <= |s|
    decreases |s| - p, 0
  {
    match Lit(s, p, '-')
    case Some(q) =>
      (match Factor(s, q)
       case Parsed(v, e) => Parsed(-v, e)
       case other => other)
    case None =>
      match Lit(s, p, '+')
      case Some(q) => Factor(s, q)
      case None => NoMatch
  }

  /** `phrase_parse(..., calc, space, result)`. */
  function Calc(s: string): Parse
  {
    Expression(s, 0)
  }

  // ---------------------------------------------------------------- decimals

  /** `std::to_string` of a non-negative integer. */
  function NatDigits(n: nat): string
  {
    if n < 10 then [('0' as int + n) as char]
    else NatDigits(n / 10) + [('0' as int + n % 10) as char]
  }

  /** The text is digits, at least one, whose value is the number. */
  lemma {:induction false} NatDigitsShape(n: nat)
    ensures var d := NatDigits(n);
            |d| > 0 && (forall i :: 0 <= i < |d| ==> IsDigit(d[i])) && DigitsVal(d) == n
  {
    if n >= 10 {
      NatDigitsShape(n / 10);
      var d := NatDigits(n);
      assert d[..|d| - 1] == NatDigits(n / 10);
    }
  }

  /** `std::to_string` of an integer. */
  function Decimal(n: int): string
  {
    if n >= 0 then NatDigits(n) else "-" + NatDigits(-n)
  }

  lemma {:induction false} DigitsEndAll(s: string, p: nat)
    requires p <= |s| && forall i :: p <= i < |s| ==> IsDigit(s[i])
    ensures DigitsEnd(s, p) == |s|
    decreases |s| - p
  {
    if p < |s| {
      DigitsEndAll(s, p + 1);
    }
  }

  /** A number followed by nothing reads as its value, and parses as an
      expression to its end. */
  lemma NatDigitsParse(n: nat)
    requires n < 0x8000_0000
    ensures UInt(NatDigits(n), 0) == Parsed(n, |NatDigits(n)|)
    ensures Calc(NatDigits(n)) == Parsed(n, |NatDigits(n)|)
  {
    var d := NatDigits(n);
    NatDigitsShape(n);
    DigitsEndAll(d, 0);
    assert d[0..|d|] == d;
    assert Skip(d, 0) == 0;
    assert Factor(d, 0) == Parsed(n, |d|);
    assert TermTail(d, |d|, n) == Parsed(n, |d|);
    assert Term(d, 0) == Parsed(n, |d|);
    ExpressionEnds(d, |d|, n);
  }

  /** The decimal text of any `int` that is not the most negative one
      evaluates to that integer: loop counters substituted into a
      placeholder read back as themselves. */
  lemma DecimalParse(n: int)
    requires -0x8000_0000 < n < 0x8000_0000
    ensures Calc(Decimal(n)) == Parsed(n, |Decimal(n)|)
  {
    if n >= 0 {
      NatDigitsParse(n);
    } else {
      NegativeDecimalParse(n);
    }
  }

  lemma NegativeDecimalParse(n: int)
    requires -0x8000_0000 < n < 0
    ensures Calc(Decimal(n)) == Parsed(n, |Decimal(n)|)
  {
    var d := NatDigits(-n);
    var s := "-" + d;
    NegatedDigitsFactor(n, d, s);
    assert TermTail(s, |s|, n) == Parsed(n, |s|);
    assert Term(s, 0) == Parsed(n, |s|);
    ExpressionEnds(s, |s|, n);
  }

  /** '-' and the digits of -n read as the factor n. */
  lemma NegatedDigitsFactor(n: int, d: string, s: string)
    requires -0x8000_0000 < n < 0 && d == NatDigits(-n) && s == "-" + d
    ensures Factor(s, 0) == Parsed(n, |s|)
  {
    NatDigitsParse(-n);
    NatDigitsShape(-n);
    DigitsEndAll(s, 1);
    assert s[1..|s|] == d;
    assert UInt(s, 0) == NoMatch;
    assert Lit(s, 0, '(') == None;
    assert UInt(s, 1) == Parsed(-n, |s|);
    assert Factor(s, 1) == Parsed(-n, |s|);
  }

  // ---------------------------------------------------------------- folds

  /** The operators of the two repetitions. */
  datatype AddOp = Plus | Minus
  datatype MulOp = Times | Over

  function AddSym(o: AddOp): char
  {
    if o == Plus then '+' else '-'
  }

  function MulSym(o: MulOp): char
  {
    if o == Times then '*' else '/'
  }

  /** The reference meaning of a chain acc o1 v1 o2 v2 …: grouped to the
      left, ((acc o1 v1) o2 v2) …. */
  function AddFold(acc: int, ops: seq<AddOp>, vals: seq<int>): int
    requires |ops| == |vals|
    decreases |ops|
  {
    if |ops| == 0 then acc
    else AddFold(if ops[0] == Plus then acc + vals[0] else acc - vals[0], ops[1..], vals[1..])
  }

  /** The same for '*' and '/', with C's truncating division; None at the
      first zero divisor. */
  function MulFold(acc: int, ops: seq<MulOp>, vals: seq<int>): Option<int>
    requires |ops| == |vals|
    decreases |ops|
  {
    if |ops| == 0 then Some(acc)
    else match ops[0]
      case Times => MulFold(acc * vals[0], ops[1..], vals[1..])
      case Over => if vals[0] == 0 then None else MulFold(CDiv(acc, vals[0]), ops[1..], vals[1..])
  }

  /** The position after the last operand, or p when there is none. */
  function LastEnd(p: nat, ends: seq<nat>): nat
  {
    if |ends| == 0 then p else ends[|ends| - 1]
  }

  /** From p on, the text holds the operators ops, each followed by a term
      that reads as vals[k] and ends at ends[k]. */
  predicate AddChain(s: string, p: nat, ops: seq<AddOp>, vals: seq<int>, ends: seq<nat>)
    decreases |ops|
  {
    p <= |s| && |ops| == |vals| && |ops| == |ends|
    && (|ops| > 0 ==>
          var l := Lit(s, p, AddSym(ops[0]));
          l.Some? && Term(s, l.value) == Parsed(vals[0], ends[0])
          && AddChain(s, ends[0], ops[1..], vals[1..], ends[1..]))
  }

  /** The same with factors after '*' and '/'. */
  predicate MulChain(s: string, p: nat, ops: seq<MulOp>, vals: seq<int>, ends: seq<nat>)
    decreases |ops|
  {
    p <= |s| && |ops| == |vals| && |ops| == |ends|
    && (|ops| > 0 ==>
          var l := Lit(s, p, MulSym(ops[0]));
          l.Some? && Factor(s, l.value) == Parsed(vals[0], ends[0])
          && MulChain(s, ends[0], ops[1..], vals[1..], ends[1..]))
  }

  /** Nothing that continues the repetition comes after position e. */
  predicate EndsBefore(s: string, e: nat, a: char, b: char)
  {
    e <= |s| && (Skip(s, e) < |s| ==> s[Skip(s, e)] != a && s[Skip(s, e)] != b)
  }

  /** The repetition of `expression` over a chain of terms is the left fold
      of their values: '+' and '-' group to the left, however many terms. */
  lemma {:induction false} ExpressionTailFolds(s: string, p: nat, acc: int, ops: seq<AddOp>, vals: seq<int>,
                                               ends: seq<nat>)
    requires AddChain(s, p, ops, vals, ends) && EndsBefore(s, LastEnd(p, ends), '+', '-')
    ensures ExpressionTail(s, p, acc) == Parsed(AddFold(acc, ops, vals), LastEnd(p, ends))
    decreases |ops|
  {
    if |ops| == 0 {
      ExpressionEnds(s, p, acc);
    } else {
      var next := if ops[0] == Plus then acc + vals[0] else acc - vals[0];
      assert LastEnd(ends[0], ends[1..]) == LastEnd(p, ends);
      ExpressionTailFolds(s, ends[0], next, ops[1..], vals[1..], ends[1..]);
    }
  }

  /** The repetition of `term` over a chain of factors is the left fold of
      their values, or a division by zero at the first zero divisor. */
  lemma {:induction false} TermTailFolds(s: string, p: nat, acc: int, ops: seq<MulOp>, vals: seq<int>,
                                         ends: seq<nat>)
    requires MulChain(s, p, ops, vals, ends) && EndsBefore(s, LastEnd(p, ends), '*', '/')
    ensures MulFold(acc, ops, vals).Some? ==>
              TermTail(s, p, acc) == Parsed(MulFold(acc, ops, vals).value, LastEnd(p, ends))
    ensures MulFold(acc, ops, vals).None? ==> TermTail(s, p, acc) == DivByZero
    decreases |ops|
  {
    if |ops| == 0 {
      assert TermTail(s, p, acc) == Parsed(acc, p);
    } else if ops[0] == Times {
      assert LastEnd(ends[0], ends[1..]) == LastEnd(p, ends);
      TermTailFolds(s, ends[0], acc * vals[0], ops[1..], vals[1..], ends[1..]);
    } else if vals[0] != 0 {
      assert LastEnd(ends[0], ends[1..]) == LastEnd(p, ends);
      TermTailFolds(s, ends[0], CDiv(acc, vals[0]), ops[1..], vals[1..], ends[1..]);
    }
  }

  /** A term is its first factor folded with the factors after it. */
  lemma TermFolds(s: string, p: nat, f0: int, e0: nat, ops: seq<MulOp>, vals: seq<int>, ends: seq<nat>)
    requires p <= |s| && Factor(s, p) == Parsed(f0, e0)
    requires MulChain(s, e0, ops, vals, ends) && EndsBefore(s, LastEnd(e0, ends), '*', '/')
    ensures MulFold(f0, ops, vals).Some? ==> Term(s, p) == Parsed(MulFold(f0, ops, vals).value, LastEnd(e0, ends))
    ensures MulFold(f0, ops, vals).None? ==> Term(s, p) == DivByZero
  {
    TermTailFolds(s, e0, f0, ops, vals, ends);
  }

  /** An expression is its first term folded with the terms after it; as
      each term already took every '*' and '/' after it, those bind
      tighter than '+' and '-'. */
  lemma ExpressionFolds(s: string, p: nat, t0: int, e0: nat, ops: seq<AddOp>, vals: seq<int>, ends: seq<nat>)
    requires p <= |s| && Term(s, p) == Parsed(t0, e0)
    requires AddChain(s, e0, ops, vals, ends) && EndsBefore(s, LastEnd(e0, ends), '+', '-')
    ensures Expression(s, p) == Parsed(AddFold(t0, ops, vals), LastEnd(e0, ends))
  {
    ExpressionTailFolds(s, e0, t0, ops, vals, ends);
  }

  // ---------------------------------------------------------------- shape

  /** A factor that is a lone digit, with nothing after it that continues
      a term, is a term of its own. */
  lemma DigitTerm(s: string, p: nat)
    requires p < |s| && IsDigit(s[p]) && (p + 1 < |s| ==> !IsDigit(s[p + 1]))
    requires Skip(s, p + 1) < |s| ==> s[Skip(s, p + 1)] != '*' && s[Skip(s, p + 1)] != '/'
    ensures Factor(s, p) == Parsed(DigitVal(s[p]), p + 1)
    ensures Term(s, p) == Parsed(DigitVal(s[p]), p + 1)
  {
    OneDigit(s, p);
  }

  /** Where no '+' or '-' comes next, the repetition of `expression` ends. */
  lemma ExpressionEnds(s: string, p: nat, acc: int)
    requires p <= |s|
    requires Skip(s, p) < |s| ==> s[Skip(s, p)] != '+' && s[Skip(s, p)] != '-'
    ensures ExpressionTail(s, p, acc) == Parsed(acc, p)
  {
  }

  /** '*' binds tighter than '+': a + b·c. */
  lemma TimesBindsTighter(a: char, b: char, c: char)
    requires IsDigit(a) && IsDigit(b) && IsDigit(c)
    ensures Calc([a, '+', b, '*', c]) == Parsed(DigitVal(a) + DigitVal(b) * DigitVal(c), 5)
    ensures Calc([a, '*', b, '+', c]) == Parsed(DigitVal(a) * DigitVal(b) + DigitVal(c), 5)
  {
    var s := [a, '+', b, '*', c];
    DigitTerm(s, 0);
    OneDigit(s, 2);
    DigitTerm(s, 4);
    assert TermTail(s, 5, DigitVal(b) * DigitVal(c)) == Parsed(DigitVal(b) * DigitVal(c), 5);
    assert TermTail(s, 3, DigitVal(b)) == Parsed(DigitVal(b) * DigitVal(c), 5);
    assert Term(s, 2) == Parsed(DigitVal(b) * DigitVal(c), 5);
    ExpressionEnds(s, 5, DigitVal(a) + DigitVal(b) * DigitVal(c));
    assert ExpressionTail(s, 1, DigitVal(a)) == Parsed(DigitVal(a) + DigitVal(b) * DigitVal(c), 5);

    var t := [a, '*', b, '+', c];
    OneDigit(t, 0);
    DigitTerm(t, 2);
    DigitTerm(t, 4);
    assert TermTail(t, 3, DigitVal(a) * DigitVal(b)) == Parsed(DigitVal(a) * DigitVal(b), 3);
    assert TermTail(t, 1, DigitVal(a)) == Parsed(DigitVal(a) * DigitVal(b), 3);
    assert Term(t, 0) == Parsed(DigitVal(a) * DigitVal(b), 3);
    ExpressionEnds(t, 5, DigitVal(a) * DigitVal(b) + DigitVal(c));
    assert ExpressionTail(t, 3, DigitVal(a) * DigitVal(b)) == Parsed(DigitVal(a) * DigitVal(b) + DigitVal(c), 5);
  }

  /** '-' groups to the left: (a − b) − c. */
  lemma MinusLeftAssociative(a: char, b: char, c: char)
    requires IsDigit(a) && IsDigit(b) && IsDigit(c)
    ensures Calc([a, '-', b, '-', c]) == Parsed(DigitVal(a) - DigitVal(b) - DigitVal(c), 5)
  {
    var s := [a, '-', b, '-', c];
    DigitTerm(s, 0);
    DigitTerm(s, 2);
    DigitTerm(s, 4);
    assert AddChain(s, 5, [], [], []);
    assert AddChain(s, 3, [Minus], [DigitVal(c)], [5]);
    assert AddChain(s, 1, [Minus, Minus], [DigitVal(b), DigitVal(c)], [3, 5]);
    ExpressionFolds(s, 0, DigitVal(a), 1, [Minus, Minus], [DigitVal(b), DigitVal(c)], [3, 5]);
  }

  /** '/' groups to the left, with C's truncating division: (a / b) / c;
      a zero divisor is a division by zero. */
  lemma DivLeftAssociative(a: char, b: char, c: char)
    requires IsDigit(a) && IsDigit(b) && IsDigit(c)
    ensures DigitVal(b) != 0 && DigitVal(c) != 0 ==>
              Calc([a, '/', b, '/', c]) == Parsed(CDiv(CDiv(DigitVal(a), DigitVal(b)), DigitVal(c)), 5)
    ensures DigitVal(b) == 0 ==> Calc([a, '/', b, '/', c]) == DivByZero
  {
    var s := [a, '/', b, '/', c];
    OneDigit(s, 0);
    OneDigit(s, 2);
    DigitTerm(s, 4);
    if DigitVal(b) != 0 && DigitVal(c) != 0 {
      var v := CDiv(CDiv(DigitVal(a), DigitVal(b)), DigitVal(c));
      assert TermTail(s, 5, v) == Parsed(v, 5);
      assert TermTail(s, 3, CDiv(DigitVal(a), DigitVal(b))) == Parsed(v, 5);
      assert TermTail(s, 1, DigitVal(a)) == Parsed(v, 5);
      assert Term(s, 0) == Parsed(v, 5);
      ExpressionEnds(s, 5, v);
    } else if DigitVal(b) == 0 {
      assert TermTail(s, 1, DigitVal(a)) == DivByZero;
      assert Term(s, 0) == DivByZero;
    }
  }

  /** Brackets group: (a + b). */
  lemma Brackets(a: char, b: char)
    requires IsDigit(a) && IsDigit(b)
    ensures Calc(['(', a, '+', b, ')']) == Parsed(DigitVal(a) + DigitVal(b), 5)
  {
    var s := ['(', a, '+', b, ')'];
    BracketedSum(s, a, b);
    assert UInt(s, 0) == NoMatch;
    assert Factor(s, 0) == Parsed(DigitVal(a) + DigitVal(b), 5);
    assert TermTail(s, 5, DigitVal(a) + DigitVal(b)) == Parsed(DigitVal(a) + DigitVal(b), 5);
    assert Term(s, 0) == Parsed(DigitVal(a) + DigitVal(b), 5);
    ExpressionEnds(s, 5, DigitVal(a) + DigitVal(b));
  }

  lemma BracketedSum(s: string, a: char, b: char)
    requires IsDigit(a) && IsDigit(b) && s == ['(', a, '+', b, ')']
    ensures Expression(s, 1) == Parsed(DigitVal(a) + DigitVal(b), 4)
  {
    DigitTerm(s, 1);
    DigitTerm(s, 3);
    ExpressionEnds(s, 4, DigitVal(a) + DigitVal(b));
    assert ExpressionTail(s, 2, DigitVal(a)) == Parsed(DigitVal(a) + DigitVal(b), 4);
  }

  /** A sign applies to the factor after it: − − a is a. */
  lemma DoubleNegation(a: char)
    requires IsDigit(a)
    ensures Calc(['-', '-', a]) == Parsed(DigitVal(a), 3)
  {
    var t := ['-', '-', a];
    DigitTerm(t, 2);
    assert UInt(t, 1) == NoMatch;
    assert Factor(t, 1) == Parsed(-DigitVal(a), 3);
    assert UInt(t, 0) == NoMatch;
    assert Factor(t, 0) == Parsed(DigitVal(a), 3);
    assert TermTail(t, 3, DigitVal(a)) == Parsed(DigitVal(a), 3);
    assert Term(t, 0) == Parsed(DigitVal(a), 3);
    ExpressionEnds(t, 3, DigitVal(a));
  }

  /** Spaces between tokens are skipped: " a * -b" is a·(−b). */
  lemma SpacesSkipped(a: char, b: char)
    requires IsDigit(a) && IsDigit(b)
    ensures Calc([' ', a, ' ', '*', ' ', '-', b]) == Parsed(DigitVal(a) * -DigitVal(b), 7)
  {
    var u := [' ', a, ' ', '*', ' ', '-', b];
    assert Skip(u, 0) == 1;
    OneDigit(u, 1);
    DigitTerm(u, 6);
    assert Skip(u, 4) == 5;
    assert UInt(u, 4) == NoMatch;
    assert Factor(u, 4) == Parsed(-DigitVal(b), 7);
    assert TermTail(u, 7, DigitVal(a) * -DigitVal(b)) == Parsed(DigitVal(a) * -DigitVal(b), 7);
    assert Skip(u, 2) == 3;
    assert TermTail(u, 2, DigitVal(a)) == Parsed(DigitVal(a) * -DigitVal(b), 7);
    assert Factor(u, 0) == Parsed(DigitVal(a), 2);
    assert Term(u, 0) == Parsed(DigitVal(a) * -DigitVal(b), 7);
    ExpressionEnds(u, 7, DigitVal(a) * -DigitVal(b));
  }

  /** Text after the expression is not read: "a+" reads as a, leaving the
      '+' unread, and "a)" as a. */
  lemma TrailingTextUnread(a: char)
    requires IsDigit(a)
    ensures Calc([a, '+']) == Parsed(DigitVal(a), 1)
    ensures Calc([a, ')']) == Parsed(DigitVal(a), 1)
  {
    var s := [a, '+'];
    DigitTerm(s, 0);
    assert UInt(s, 2) == NoMatch;
    assert Factor(s, 2) == NoMatch;
    assert Term(s, 2) == NoMatch;
    assert ExpressionTail(s, 1, DigitVal(a)) == Parsed(DigitVal(a), 1);
    var t := [a, ')'];
    DigitTerm(t, 0);
    ExpressionEnds(t, 1, DigitVal(a));
  }

  /** A single digit followed by a non-digit reads as its value. */
  lemma OneDigit(s: string, p: nat)
    requires p < |s| && IsDigit(s[p]) && (p + 1 < |s| ==> !IsDigit(s[p + 1]))
    ensures UInt(s, p) == Parsed(DigitVal(s[p]), p + 1)
  {
    assert Skip(s, p) == p;
    assert DigitsEnd(s, p + 1) == p + 1;
    assert s[p..p + 1] == [s[p]];
    assert DigitsVal([s[p]]) == DigitVal(s[p]) by {
      assert [s[p]][..0] == [];
    }
  }
}
