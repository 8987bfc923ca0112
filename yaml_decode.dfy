// The YAML side of the network parser, SgtCore/Parser.cc: the decoders
// `convert<T>::decode` for phase sets, vectors and matrices, with the
// matching encoders, and the helpers `assertFieldPresent` and `getTopNode`.
// A scalar's conversion to a value (`as<double>`, `as<Complex>`) is a
// parameter that answers None where yaml-cpp throws.

module YamlDecode {
  import opened Shared
  import opened PowerFlow

  /** A node as yaml-cpp presents it: `Undefined` is what a lookup that
      found nothing returns (false under `operator bool`). */
  datatype YNode =
    | Undefined
    | Null
    | Scalar(text: string)
    | YSeq(items: seq<YNode>)
    | YMap(entries: seq<(string, YNode)>)

  /** A node as loaded from a file: no undefined node anywhere in it. */
  predicate Loaded(n: YNode)
  {
    match n
    case Undefined => false
    case YSeq(items) => forall i :: 0 <= i < |items| ==> Loaded(items[i])
    case YMap(entries) => forall e :: 0 <= e < |entries| ==> Loaded(entries[e].1)
    case _ => true
  }

  /** `size()`: the items of a sequence or the entries of a map; 0 for
      anything else. */
  function Size(n: YNode): nat
  {
    match n
    case YSeq(items) => |items|
    case YMap(entries) => |entries|
    case _ => 0
  }

  /** `nd[i]` on a const node: the item of a sequence, or undefined. */
  function Item(n: YNode, i: nat): YNode
  {
    if n.YSeq? && i < |n.items| then n.items[i] else Undefined
  }

  function Lookup(entries: seq<(string, YNode)>, key: string): YNode
  {
    if |entries| == 0 then Undefined
    else if entries[0].0 == key then entries[0].1
    else Lookup(entries[1..], key)
  }

  /** `nd[key]` on a const node: the value of the first entry with that
      key, or undefined. */
  function Field(n: YNode, key: string): YNode
  {
    if n.YMap? then Lookup(n.entries, key) else Undefined
  }

  /** In a loaded map, a key is found exactly when some entry has it. */
  lemma {:induction false} LookupSpec(entries: seq<(string, YNode)>, key: string)
    requires forall e :: 0 <= e < |entries| ==> Loaded(entries[e].1)
    ensures Lookup(entries, key) != Undefined <==> exists e :: 0 <= e < |entries| && entries[e].0 == key
  {
    if |entries| > 0 && entries[0].0 != key {
      LookupSpec(entries[1..], key);
      if Lookup(entries, key) != Undefined {
        var e :| 0 <= e < |entries[1..]| && entries[1..][e].0 == key;
        assert entries[e + 1].0 == key;
      } else {
        forall e | 0 <= e < |entries|
          ensures entries[e].0 != key
        {
          if e > 0 {
            assert entries[e] == entries[1..][e - 1];
          }
        }
      }
    }
  }

  /** `assertFieldPresent`: fatal when the field is not there; here the
      field's node, for the caller to read. */
  function AssertFieldPresent(nd: YNode, field: string): Result<YNode>
  {
    if Field(nd, field) == Undefined then Err("Parsing: " + field + " field not present.")
    else Ok(Field(nd, field))
  }

  /** A loaded node passes the check exactly when it is a map with an entry
      for the field, and then the value read is that entry's value. */
  lemma FieldPresence(nd: YNode, field: string)
    requires Loaded(nd)
    ensures AssertFieldPresent(nd, field).Ok?
            <==> nd.YMap? && exists e :: 0 <= e < |nd.entries| && nd.entries[e].0 == field
    ensures AssertFieldPresent(nd, field).Ok? ==> AssertFieldPresent(nd, field).value == Field(nd, field)
  {
    if nd.YMap? {
      LookupSpec(nd.entries, field);
    }
  }

  /** `getTopNode`: the document as loaded from the file (the loading is
      not modelled); fatal when it has no entries or items, which is how
      an empty or missing file shows. */
  function GetTopNode(top: YNode): (r: Result<YNode>)
    ensures r.Ok? <==> (top.YSeq? && |top.items| > 0) || (top.YMap? && |top.entries| > 0)
    ensures r.Ok? ==> r.value == top
    ensures r.Err? ==> Size(top) == 0
  {
    if Size(top) == 0 then Err("File is empty or doesn't exist.") else Ok(top)
  }

  // ------------------------------------------------------- value decoding

  /** `as<T>()` on a node, given the conversion of a scalar's text: only a
      scalar converts; anything else throws, which is None here. */
  function As<T>(conv: string -> Option<T>, n: YNode): Option<T>
  {
    if n.Scalar? then conv(n.text) else None
  }

  /** `convert<ublas::vector<T>>::decode`: a sequence, each item converted
      in turn; not a sequence, or an item that does not convert, is an
      error. */
  method DecodeVector<T>(nd: YNode, conv: string -> Option<T>) returns (r: Result<seq<T>>)
    ensures r.Ok? <==> nd.YSeq? && forall i :: 0 <= i < |nd.items| ==> As(conv, nd.items[i]).Some?
    ensures r.Ok? ==> |r.value| == |nd.items|
    ensures r.Ok? ==> forall i :: 0 <= i < |r.value| ==> As(conv, nd.items[i]) == Some(r.value[i])
    ensures !nd.YSeq? ==> r == Err("Not a sequence")
  {
    if !nd.YSeq? {
      return Err("Not a sequence");
    }
    var to: seq<T> := [];
    var i := 0;
    while i < |nd.items|
      invariant 0 <= i <= |nd.items| && |to| == i
      invariant forall m :: 0 <= m < i ==> As(conv, nd.items[m]) == Some(to[m])
    {
      var x := As(conv, nd.items[i]);
      if x.None? {
        return Err("Bad conversion");
      }
      to := to + [x.value];
      i := i + 1;
    }
    r := Ok(to);
  }

  /** `convert<ublas::vector<T>>::encode`: one scalar item per entry. */
  function EncodeVector<T>(v: seq<T>, show: T -> string): (r: YNode)
    ensures r.YSeq? && |r.items| == |v|
    ensures forall i :: 0 <= i < |v| ==> r.items[i] == Scalar(show(v[i]))
  {
    YSeq(seq(|v|, i requires 0 <= i < |v| => Scalar(show(v[i]))))
  }

  /** Decoding an encoded vector gives it back when the conversion reads
      what was shown. */
  method VectorRoundTrip<T>(v: seq<T>, show: T -> string, conv: string -> Option<T>) returns (back: Result<seq<T>>)
    requires forall x :: conv(show(x)) == Some(x)
    ensures back == Ok(v)
  {
    var nd := EncodeVector(v, show);
    back := DecodeVector(nd, conv);
    assert forall i :: 0 <= i < |nd.items| ==> As(conv, nd.items[i]) == Some(v[i]);
    assert back.value == v;
  }

  /** `convert<Phases>::decode`: the union of the phases named by the
      items; a scalar that names no phase counts as BAD. */
  function PhaseMaskOf(items: seq<YNode>): Mask
  {
    if |items| == 0 then {}
    else if items[|items| - 1].Scalar? then
      PhaseMaskOf(items[..|items| - 1]) + {PhaseBit(PhaseFromString(items[|items| - 1].text))}
    else PhaseMaskOf(items[..|items| - 1])
  }

  /** A bit is in the decoded mask exactly when some item names that
      phase. */
  lemma {:induction false} PhaseMaskSpec(items: seq<YNode>, b: nat)
    requires forall i :: 0 <= i < |items| ==> items[i].Scalar?
    ensures b in PhaseMaskOf(items)
            <==> exists i :: 0 <= i < |items| && PhaseBit(PhaseFromString(items[i].text)) == b
  {
    if |items| > 0 {
      var init := items[..|items| - 1];
      PhaseMaskSpec(init, b);
      if b in PhaseMaskOf(init) {
        var i :| 0 <= i < |init| && PhaseBit(PhaseFromString(init[i].text)) == b;
        assert items[i] == init[i];
      }
      if exists i :: 0 <= i < |items| && PhaseBit(PhaseFromString(items[i].text)) == b {
        var i :| 0 <= i < |items| && PhaseBit(PhaseFromString(items[i].text)) == b;
        if i < |init| {
          assert items[i] == init[i];
        }
      }
    }
  }

  /** The phases are read from the scalar items, each one's set ORed into
      a set that starts empty. */
  method DecodePhases(nd: YNode) returns (r: Result<Phases>)
    ensures r.Ok? <==> nd.YSeq? && forall i :: 0 <= i < |nd.items| ==> nd.items[i].Scalar?
    ensures r.Ok? ==> fresh(r.value) && r.value.Valid() && r.value.mask == PhaseMaskOf(nd.items)
  {
    if !nd.YSeq? {
      return Err("Not a sequence");
    }
    var to := new Phases.Empty();
    var i := 0;
    while i < |nd.items|
      invariant 0 <= i <= |nd.items|
      invariant fresh(to) && to.Valid()
      invariant forall m :: 0 <= m < i ==> nd.items[m].Scalar?
      invariant to.mask == PhaseMaskOf(nd.items[..i])
    {
      if !nd.items[i].Scalar? {
        return Err("Bad conversion");
      }
      var one := new Phases.FromPhase(PhaseFromString(nd.items[i].text));
      to.OrAssign(one);
      assert nd.items[..i + 1][..i] == nd.items[..i];
      i := i + 1;
    }
    assert nd.items[..i] == nd.items;
    r := Ok(to);
  }

  // ------------------------------------------------------- matrices

  /** The shape checks of `convert<ublas::matrix<T>>::decode`, in order:
      a sequence, at least one row, a non-empty first row, and every row
      as long as the first. The result is (rows, columns). */
  function MatrixShape(nd: YNode): (r: Result<(nat, nat)>)
    ensures r.Ok? ==> nd.YSeq? && r.value.0 == |nd.items| > 0 && r.value.1 == Size(nd.items[0]) > 0
    ensures r.Ok? ==> forall i :: 0 <= i < |nd.items| ==> Size(nd.items[i]) == r.value.1
  {
    if !nd.YSeq? then Err("Not a sequence")
    else if |nd.items| == 0 then Err("Matrix has zero rows in yaml.")
    else if Size(nd.items[0]) == 0 then Err("Matrix has zero columns in yaml.")
    else if exists i :: 1 <= i < |nd.items| && Size(nd.items[i]) != Size(nd.items[0]) then
      Err("Ill-formed matrix in yaml.")
    else Ok((|nd.items|, Size(nd.items[0])))
  }

  /** `nd[i][k].as<T>()` */
  function Cell<T>(nd: YNode, conv: string -> Option<T>, i: nat, k: nat): Option<T>
  {
    As(conv, Item(Item(nd, i), k))
  }

  /** Every cell of the first `rows` rows and `cols` columns converts. */
  predicate Converts<T>(nd: YNode, conv: string -> Option<T>, rows: nat, cols: nat)
  {
    forall i, k :: 0 <= i < rows && 0 <= k < cols ==> Cell(nd, conv, i, k).Some?
  }

  /** The loop over the rows after the first: the first row whose length
      differs, if any. */
  method CheckRows(nd: YNode) returns (r: Result<(nat, nat)>)
    requires nd.YSeq? && |nd.items| > 0
    ensures r == MatrixShape(nd)
  {
    var nrows := |nd.items|;
    var ncols := Size(nd.items[0]);
    if ncols == 0 {
      return Err("Matrix has zero columns in yaml.");
    }
    var i := 1;
    while i < nrows
      invariant 1 <= i <= nrows
      invariant forall m :: 1 <= m < i ==> Size(nd.items[m]) == ncols
    {
      if Size(nd.items[i]) != ncols {
        return Err("Ill-formed matrix in yaml.");
      }
      i := i + 1;
    }
    r := Ok((nrows, ncols));
  }

  /** `convert<ublas::matrix<T>>::decode` as written: after the shape
      checks, the fill loop runs its column index up to the number of ROWS.
      Cells (i, k) with k < rows are read; a read past a row's end throws;
      columns at or beyond the number of rows are never written (None). */
  method DecodeMatrixAsWritten<T>(nd: YNode, conv: string -> Option<T>) returns (r: Result<array2<Option<T>>>)
    ensures MatrixShape(nd).Err? ==> r == Err(MatrixShape(nd).msg)
    ensures MatrixShape(nd).Ok? ==>
              (r.Ok? <==> Converts(nd, conv, |nd.items|, |nd.items|))
    ensures r.Ok? ==> fresh(r.value) && MatrixShape(nd).Ok?
    ensures r.Ok? ==> r.value.Length0 == |nd.items| && r.value.Length1 == Size(nd.items[0])
    ensures r.Ok? ==> forall i, k :: 0 <= i < r.value.Length0 && 0 <= k < r.value.Length1 ==>
                        r.value[i, k] == if k < |nd.items| then Cell(nd, conv, i, k) else None
  {
    if !nd.YSeq? {
      return Err("Not a sequence");
    }
    if |nd.items| == 0 {
      return Err("Matrix has zero rows in yaml.");
    }
    var shape := CheckRows(nd);
    if shape.Err? {
      return Err(shape.msg);
    }
    var nrows, ncols := shape.value.0, shape.value.1;
    var to := new Option<T>[nrows, ncols]((_, _) => None);
    var i := 0;
    while i < nrows
      invariant 0 <= i <= nrows
      invariant Converts(nd, conv, i, nrows)
      invariant forall m, k :: 0 <= m < nrows && 0 <= k < ncols ==>
                  to[m, k] == if m < i && k < nrows then Cell(nd, conv, m, k) else None
    {
      var k := 0;
      while k < nrows
        invariant 0 <= k <= nrows
        invariant forall c :: 0 <= c < k ==> Cell(nd, conv, i, c).Some?
        invariant forall m, c :: 0 <= m < nrows && 0 <= c < ncols ==>
                    to[m, c] == if (m < i && c < nrows) || (m == i && c < k) then Cell(nd, conv, m, c) else None
      {
        var x := Cell(nd, conv, i, k);
        if x.None? {
          return Err("Bad conversion");
        }
        // A cell with k >= ncols is past the end of its row: the read above
        // has already thrown.
        assert k < ncols;
        to[i, k] := x;
        k := k + 1;
      }
      i := i + 1;
    }
    r := Ok(to);
  }

  /** `convert<ublas::matrix<T>>::decode` with the column loop bounded by
      the number of columns: every cell is read. */
  method DecodeMatrix<T>(nd: YNode, conv: string -> Option<T>) returns (r: Result<array2<Option<T>>>)
    ensures MatrixShape(nd).Err? ==> r == Err(MatrixShape(nd).msg)
    ensures MatrixShape(nd).Ok? ==>
              (r.Ok? <==> Converts(nd, conv, |nd.items|, Size(nd.items[0])))
    ensures r.Ok? ==> fresh(r.value) && MatrixShape(nd).Ok?
    ensures r.Ok? ==> r.value.Length0 == |nd.items| && r.value.Length1 == Size(nd.items[0])
    ensures r.Ok? ==> forall i, k :: 0 <= i < r.value.Length0 && 0 <= k < r.value.Length1 ==>
                        r.value[i, k] == Cell(nd, conv, i, k) && r.value[i, k].Some?
  {
    if !nd.YSeq? {
      return Err("Not a sequence");
    }
    if |nd.items| == 0 {
      return Err("Matrix has zero rows in yaml.");
    }
    var shape := CheckRows(nd);
    if shape.Err? {
      return Err(shape.msg);
    }
    var nrows, ncols := shape.value.0, shape.value.1;
    var to := new Option<T>[nrows, ncols]((_, _) => None);
    var i := 0;
    while i < nrows
      invariant 0 <= i <= nrows
      invariant Converts(nd, conv, i, ncols)
      invariant forall m, k :: 0 <= m < nrows && 0 <= k < ncols ==>
                  to[m, k] == if m < i then Cell(nd, conv, m, k) else None
    {
      var k := 0;
      while k < ncols
        invariant 0 <= k <= ncols
        invariant forall c :: 0 <= c < k ==> Cell(nd, conv, i, c).Some?
        invariant forall m, c :: 0 <= m < nrows && 0 <= c < ncols ==>
                    to[m, c] == if m < i || (m == i && c < k) then Cell(nd, conv, m, c) else None
      {
        var x := Cell(nd, conv, i, k);
        if x.None? {
          return Err("Bad conversion");
        }
        to[i, k] := x;
        k := k + 1;
      }
      i := i + 1;
    }
    r := Ok(to);
  }

  /** `convert<ublas::matrix<T>>::encode`: one sequence of scalars per
      row. */
  function EncodeMatrix<T>(m: seq<seq<T>>, show: T -> string): (r: YNode)
    ensures r.YSeq? && |r.items| == |m|
    ensures forall i :: 0 <= i < |m| ==> r.items[i] == EncodeVector(m[i], show)
  {
    YSeq(seq(|m|, i requires 0 <= i < |m| => EncodeVector(m[i], show)))
  }

  predicate Rectangular<T>(m: seq<seq<T>>)
  {
    |m| > 0 && |m[0]| > 0 && forall i :: 0 <= i < |m| ==> |m[i]| == |m[0]|
  }

  /** Encoding a matrix and decoding it gives back every entry. */
  method MatrixRoundTrip<T>(m: seq<seq<T>>, show: T -> string, conv: string -> Option<T>)
    returns (back: Result<array2<Option<T>>>)
    requires Rectangular(m)
    requires forall x :: conv(show(x)) == Some(x)
    ensures back.Ok? && back.value.Length0 == |m| && back.value.Length1 == |m[0]|
    ensures forall i, k :: 0 <= i < |m| && 0 <= k < |m[0]| ==> back.value[i, k] == Some(m[i][k])
  {
    var nd := EncodeMatrix(m, show);
    assert forall i, k :: 0 <= i < |m| && 0 <= k < |m[0]| ==> Cell(nd, conv, i, k) == Some(m[i][k]);
    assert MatrixShape(nd).Ok? by {
      assert forall i :: 0 <= i < |m| ==> Size(nd.items[i]) == |m[0]|;
    }
    back := DecodeMatrix(nd, conv);
  }

  /** The loop bound shows on a one-row, two-column matrix, whose second
      column is never written, and on a two-row, one-column matrix, whose
      read of a second column throws; decoded as intended, both come back
      whole. */
  method MatrixBoundExamples<T>(conv: string -> Option<T>, a: string, b: string)
    returns (wide: Result<array2<Option<T>>>, tall: Result<array2<Option<T>>>,
             wideFixed: Result<array2<Option<T>>>, tallFixed: Result<array2<Option<T>>>)
    requires conv(a).Some? && conv(b).Some?
    ensures wide.Ok? && wide.value.Length0 == 1 && wide.value.Length1 == 2 && wide.value[0, 1] == None
    ensures tall.Err?
    ensures wideFixed.Ok? && wideFixed.value.Length0 == 1 && wideFixed.value.Length1 == 2 && wideFixed.value[0, 1] == conv(b)
    ensures tallFixed.Ok? && tallFixed.value.Length0 == 2 && tallFixed.value.Length1 == 1 && tallFixed.value[1, 0] == conv(b)
  {
    var wideNode := YSeq([YSeq([Scalar(a), Scalar(b)])]);
    var tallNode := YSeq([YSeq([Scalar(a)]), YSeq([Scalar(b)])]);
    assert MatrixShape(wideNode) == Ok((1, 2));
    assert MatrixShape(tallNode) == Ok((2, 1));
    assert Cell(wideNode, conv, 0, 0) == conv(a) && Cell(wideNode, conv, 0, 1) == conv(b);
    assert Cell(tallNode, conv, 0, 0) == conv(a) && Cell(tallNode, conv, 1, 0) == conv(b);
    assert Cell(tallNode, conv, 0, 1) == None;
    wide := DecodeMatrixAsWritten(wideNode, conv);
    tall := DecodeMatrixAsWritten(tallNode, conv);
    wideFixed := DecodeMatrix(wideNode, conv);
    tallFixed := DecodeMatrix(tallNode, conv);
  }
}
