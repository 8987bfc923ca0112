// Value types and arithmetic facts shared by the modules of the model.

module Shared {

  datatype Option<T> = None | Some(value: T)

  /** A computation that either yields a value or fails the way the source
      fails (a thrown exception, an abort or an assertion). */
  datatype Result<T> = Ok(value: T) | Err(msg: string)
  {
    predicate IsFailure() { Err? }
  }

  /** Where the source's code and its evident intent differ, the member
      that models it takes the reading: the code as written, or as
      intended. */
  datatype Reading = AsWritten | Intended

  /** `std::complex<double>` with exact real parts. */
  datatype Complex = Complex(re: real, im: real)

  const CZero := Complex(0.0, 0.0)

  function CAdd(a: Complex, b: Complex): Complex { Complex(a.re + b.re, a.im + b.im) }
  function CSub(a: Complex, b: Complex): Complex { Complex(a.re - b.re, a.im - b.im) }
  function CNeg(a: Complex): Complex { Complex(-a.re, -a.im) }
  function CConj(a: Complex): Complex { Complex(a.re, -a.im) }
  function CMul(a: Complex, b: Complex): Complex
  {
    Complex(a.re * b.re - a.im * b.im, a.re * b.im + a.im * b.re)
  }
  function CScale(k: real, a: Complex): Complex { Complex(k * a.re, k * a.im) }
  function NormSq(a: Complex): real { a.re * a.re + a.im * a.im }

  /** Sum of a sequence of complex numbers, accumulated left to right. */
  function CSum(s: seq<Complex>): Complex
  {
    if |s| == 0 then CZero else CAdd(CSum(s[..|s| - 1]), s[|s| - 1])
  }

  /** Sums split over concatenation. */
  lemma {:induction false} CSumAppend(s: seq<Complex>, t: seq<Complex>)
    ensures CSum(s + t) == CAdd(CSum(s), CSum(t))
  {
    if |t| == 0 {
      assert s + t == s;
    } else {
      assert (s + t)[..|s + t| - 1] == s + t[..|t| - 1];
      CSumAppend(s, t[..|t| - 1]);
    }
  }

  /** The sum of the negated entries is the negated sum. */
  lemma {:induction false} CSumNeg(s: seq<Complex>, t: seq<Complex>)
    requires |s| == |t| && forall i :: 0 <= i < |s| ==> t[i] == CNeg(s[i])
    ensures CSum(t) == CNeg(CSum(s))
  {
    if |s| > 0 {
      CSumNeg(s[..|s| - 1], t[..|t| - 1]);
    }
  }

  /** A rows-by-cols matrix of zeros, as a zero-filled matrix constructor
      makes. */
  method ZeroMatrix(rows: nat, cols: nat) returns (m: array2<Complex>)
    ensures fresh(m) && m.Length0 == rows && m.Length1 == cols
    ensures forall i, j :: 0 <= i < rows && 0 <= j < cols ==> m[i, j] == CZero
  {
    m := new Complex[rows, cols]((_, _) => CZero);
  }

  function Min(a: int, b: int): int { if a < b then a else b }
  function Max(a: int, b: int): int { if a < b then b else a }
  function RMin(a: real, b: real): real { if a < b then a else b }
  function RMax(a: real, b: real): real { if a < b then b else a }

  /** Lexicographic order on strings, as `std::string::operator<`. */
  predicate StrLess(a: string, b: string)
  {
    if |a| == 0 then |b| > 0
    else if |b| == 0 then false
    else if a[0] != b[0] then a[0] < b[0]
    else StrLess(a[1..], b[1..])
  }

  /** StrLess is a strict total order. */
  lemma {:induction false} StrLessIrreflexive(a: string)
    ensures !StrLess(a, a)
  {
    if |a| > 0 {
      StrLessIrreflexive(a[1..]);
    }
  }

  lemma {:induction false} StrLessTransitive(a: string, b: string, c: string)
    requires StrLess(a, b) && StrLess(b, c)
    ensures StrLess(a, c)
  {
    if |a| > 0 && |b| > 0 && |c| > 0 && a[0] == b[0] && b[0] == c[0] {
      StrLessTransitive(a[1..], b[1..], c[1..]);
    }
  }

  lemma {:induction false} StrLessTotal(a: string, b: string)
    ensures a == b || StrLess(a, b) || StrLess(b, a)
  {
    if |a| > 0 && |b| > 0 && a[0] == b[0] {
      StrLessTotal(a[1..], b[1..]);
      if a[1..] == b[1..] {
        assert a == [a[0]] + a[1..] && b == [b[0]] + b[1..];
      }
    }
  }

  lemma RealMulNonneg(a: real, b: real)
    requires a >= 0.0 && b >= 0.0
    ensures a * b >= 0.0
  {
  }

  lemma MulAtLeast(a: int, n: int)
    requires a >= 1 && n > 0
    ensures a * n >= n
  {
    var k := a - 1;
    assert a * n == k * n + n;
    assert k * n >= 0;
  }

  /** Row-major decomposition: the flat index i*n+j gives back i and j. */
  lemma DivModOf(i: int, j: int, n: int)
    requires n > 0 && 0 <= j < n && i >= 0
    ensures (i * n + j) / n == i && (i * n + j) % n == j
  {
    var q := (i * n + j) / n;
    var r := (i * n + j) % n;
    assert q * n + r == i * n + j;
    assert (q - i) * n == j - r;
    if q - i >= 1 {
      MulAtLeast(q - i, n);
    } else if i - q >= 1 {
      MulAtLeast(i - q, n);
    }
  }

  /** A flat index below n*m lies in some row i < m. */
  lemma RowBound(v: int, n: int, m: int)
    requires n > 0 && m >= 0 && 0 <= v < n * m
    ensures 0 <= v / n < m
  {
    var q := v / n;
    assert q * n + v % n == v;
    assert (q - m + 1) * n + m * n == q * n + n;
    if q >= m {
      MulAtLeast(q - m + 1, n);
    }
  }

  /** A row-major flat index of a cell inside an h-by-w grid is below h*w. */
  lemma FlatIndexBound(i: int, j: int, w: int, h: int)
    requires 0 <= i < h && 0 <= j < w
    ensures 0 <= i * w + j < h * w
  {
    MulAtLeast(h - i, w);
    assert (h - i) * w + i * w == h * w;
    assert i * w >= 0;
  }

  /** A nonempty set of integers has an element (for `:|` over it). */
  lemma HasElement(s: set<int>)
    requires s != {}
    ensures exists y :: y in s
  {
    if forall y :: y !in s {
      assert false;
    }
  }
}
