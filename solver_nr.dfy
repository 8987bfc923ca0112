// Index and assembly plumbing of the three-phase Newton-Raphson solver:
// the triplet merge sort, the phase-mask slot switches, the dynamic diagonal
// entries, the assembled A matrix and its compressed-column pointers.

module SolverNr {
  import opened Shared

  /** A (row, column, value) triplet of the sparse A matrix. */
  datatype Entry = Entry(row: int, col: int, value: real)

  /** Column-major key order: by column, then by row. */
  predicate Before(x: Entry, y: Entry)
  {
    x.col < y.col || (x.col == y.col && x.row < y.row)
  }

  predicate SameKey(x: Entry, y: Entry)
  {
    x.col == y.col && x.row == y.row
  }

  predicate StrictlySorted(s: seq<Entry>)
  {
    forall i, j :: 0 <= i < j < |s| ==> Before(s[i], s[j])
  }

  /** Two entries of s address the same matrix position. */
  predicate HasDuplicate(s: seq<Entry>)
  {
    exists i, j :: 0 <= i < j < |s| && SameKey(s[i], s[j])
  }

  // ------------------------------------------------------------ merge sort

  /** x comes before every entry of s. */
  predicate Below(x: Entry, s: seq<Entry>)
  {
    forall k :: 0 <= k < |s| ==> Before(x, s[k])
  }

  /** No entry of l shares its key with an entry of r. */
  predicate NoSharedKey(l: seq<Entry>, r: seq<Entry>)
  {
    forall i, j :: 0 <= i < |l| && 0 <= j < |r| ==> !SameKey(l[i], r[j])
  }

  function Cons(x: Entry, o: Option<seq<Entry>>): Option<seq<Entry>>
  {
    if o.None? then None else Some([x] + o.value)
  }

  /** The merge loop of `merge_sort` on two sorted runs: the smaller head
      first, and failure on two heads with the same key. */
  function MergeRuns(l: seq<Entry>, r: seq<Entry>): Option<seq<Entry>>
    decreases |l| + |r|
  {
    if |l| == 0 then Some(r)
    else if |r| == 0 then Some(l)
    else if Before(l[0], r[0]) then Cons(l[0], MergeRuns(l[1..], r))
    else if SameKey(l[0], r[0]) then None
    else Cons(r[0], MergeRuns(l, r[1..]))
  }

  /** The recursion of `merge_sort`: runs of length 0 or 1 are left alone,
      longer ones are split at len/2, both halves sorted, then merged. */
  function SortRun(s: seq<Entry>): Option<seq<Entry>>
    decreases |s|
  {
    if |s| <= 1 then Some(s)
    else
      var left := SortRun(s[..|s| / 2]);
      var right := SortRun(s[|s| / 2..]);
      if left.None? || right.None? then None else MergeRuns(left.value, right.value)
  }

  lemma BelowPermutation(x: Entry, s: seq<Entry>, t: seq<Entry>)
    requires Below(x, s) && multiset(t) == multiset(s)
    ensures Below(x, t)
  {
    forall k | 0 <= k < |t|
      ensures Before(x, t[k])
    {
      assert t[k] in multiset(s);
      var p :| 0 <= p < |s| && s[p] == t[k];
    }
  }

  lemma ConsSorted(x: Entry, s: seq<Entry>)
    requires Below(x, s) && StrictlySorted(s)
    ensures StrictlySorted([x] + s)
  {
    var t := [x] + s;
    forall i, j | 0 <= i < j < |t|
      ensures Before(t[i], t[j])
    {
      if i > 0 {
        assert t[i] == s[i - 1] && t[j] == s[j - 1];
      } else {
        assert t[j] == s[j - 1];
      }
    }
  }

  lemma NoSharedKeyDropLeft(l: seq<Entry>, r: seq<Entry>)
    requires |l| > 0 && Below(l[0], r)
    ensures NoSharedKey(l, r) <==> NoSharedKey(l[1..], r)
  {
    if NoSharedKey(l[1..], r) {
      forall i, j | 0 <= i < |l| && 0 <= j < |r|
        ensures !SameKey(l[i], r[j])
      {
        if i > 0 {
          assert l[i] == l[1..][i - 1];
        }
      }
    }
  }

  lemma NoSharedKeyDropRight(l: seq<Entry>, r: seq<Entry>)
    requires |r| > 0 && Below(r[0], l)
    ensures NoSharedKey(l, r) <==> NoSharedKey(l, r[1..])
  {
    if NoSharedKey(l, r[1..]) {
      forall i, j | 0 <= i < |l| && 0 <= j < |r|
        ensures !SameKey(l[i], r[j])
      {
        if j > 0 {
          assert r[j] == r[1..][j - 1];
        }
      }
    }
  }

  /** A successful merge is a permutation of both runs. */
  lemma {:induction false} MergeRunsPermutation(l: seq<Entry>, r: seq<Entry>)
    ensures MergeRuns(l, r).Some? ==> multiset(MergeRuns(l, r).value) == multiset(l) + multiset(r)
    decreases |l| + |r|
  {
    if |l| == 0 || |r| == 0 {
    } else if Before(l[0], r[0]) {
      MergeRunsPermutation(l[1..], r);
      assert l == [l[0]] + l[1..];
    } else if !SameKey(l[0], r[0]) {
      MergeRunsPermutation(l, r[1..]);
      assert r == [r[0]] + r[1..];
    }
  }

  /** A successful merge of two sorted runs is sorted. */
  lemma {:induction false} MergeRunsSorted(l: seq<Entry>, r: seq<Entry>)
    requires StrictlySorted(l) && StrictlySorted(r)
    ensures MergeRuns(l, r).Some? ==> StrictlySorted(MergeRuns(l, r).value)
    decreases |l| + |r|
  {
    if |l| == 0 || |r| == 0 {
    } else if Before(l[0], r[0]) {
      var l' := l[1..];
      MergeRunsSorted(l', r);
      MergeRunsPermutation(l', r);
      if MergeRuns(l', r).Some? {
        assert Below(l[0], l' + r);
        BelowPermutation(l[0], l' + r, MergeRuns(l', r).value);
        ConsSorted(l[0], MergeRuns(l', r).value);
      }
    } else if !SameKey(l[0], r[0]) {
      var r' := r[1..];
      MergeRunsSorted(l, r');
      MergeRunsPermutation(l, r');
      if MergeRuns(l, r').Some? {
        assert Below(r[0], l + r');
        BelowPermutation(r[0], l + r', MergeRuns(l, r').value);
        ConsSorted(r[0], MergeRuns(l, r').value);
      }
    }
  }

  /** The merge of two sorted runs fails exactly when they share a key. */
  lemma {:induction false} MergeRunsFails(l: seq<Entry>, r: seq<Entry>)
    requires StrictlySorted(l) && StrictlySorted(r)
    ensures MergeRuns(l, r).Some? <==> NoSharedKey(l, r)
    decreases |l| + |r|
  {
    if |l| == 0 || |r| == 0 {
    } else if Before(l[0], r[0]) {
      MergeRunsFails(l[1..], r);
      NoSharedKeyDropLeft(l, r);
    } else if !SameKey(l[0], r[0]) {
      MergeRunsFails(l, r[1..]);
      NoSharedKeyDropRight(l, r);
    }
  }

  /** Merging two sorted runs without a shared key gives a sorted
      permutation of both; a merge fails exactly when they share a key. */
  lemma MergeRunsSpec(l: seq<Entry>, r: seq<Entry>)
    requires StrictlySorted(l) && StrictlySorted(r)
    ensures MergeRuns(l, r).Some? <==> NoSharedKey(l, r)
    ensures MergeRuns(l, r).Some? ==>
      StrictlySorted(MergeRuns(l, r).value) && multiset(MergeRuns(l, r).value) == multiset(l) + multiset(r)
  {
    MergeRunsFails(l, r);
    MergeRunsSorted(l, r);
    MergeRunsPermutation(l, r);
  }

  /** Keys shared across two halves, carried over to permutations of them. */
  lemma SharedKeyPermutation(s: seq<Entry>, m: nat, l: seq<Entry>, r: seq<Entry>)
    requires m <= |s|
    requires multiset(l) == multiset(s[..m]) && multiset(r) == multiset(s[m..])
    ensures NoSharedKey(l, r) ==> forall i, j :: 0 <= i < m <= j < |s| ==> !SameKey(s[i], s[j])
  {
    if NoSharedKey(l, r) {
      forall i, j | 0 <= i < m <= j < |s|
        ensures !SameKey(s[i], s[j])
      {
        assert s[..m][i] == s[i];
        assert s[i] in multiset(l);
        assert s[m..][j - m] == s[j];
        assert s[j] in multiset(r);
        var p :| 0 <= p < |l| && l[p] == s[i];
        var q :| 0 <= q < |r| && r[q] == s[j];
      }
    }
  }

  lemma SharedKeyFromHalves(s: seq<Entry>, m: nat, l: seq<Entry>, r: seq<Entry>, i: nat, j: nat)
    requires m <= |s|
    requires multiset(l) == multiset(s[..m]) && multiset(r) == multiset(s[m..])
    requires i < |l| && j < |r| && SameKey(l[i], r[j])
    ensures HasDuplicate(s)
  {
    assert l[i] in multiset(s[..m]);
    assert r[j] in multiset(s[m..]);
    var p :| 0 <= p < m && s[..m][p] == l[i];
    var q :| 0 <= q < |s| - m && s[m..][q] == r[j];
    assert s[p] == l[i] && s[m + q] == r[j];
  }

  lemma DuplicateInSlice(s: seq<Entry>, lo: nat, hi: nat)
    requires lo <= hi <= |s| && HasDuplicate(s[lo..hi])
    ensures HasDuplicate(s)
  {
    var i, j :| 0 <= i < j < hi - lo && SameKey(s[lo..hi][i], s[lo..hi][j]);
    assert s[lo + i] == s[lo..hi][i] && s[lo + j] == s[lo..hi][j];
  }

  lemma NoDuplicateFromHalves(s: seq<Entry>, m: nat)
    requires m <= |s| && !HasDuplicate(s[..m]) && !HasDuplicate(s[m..])
    requires forall i, j :: 0 <= i < m <= j < |s| ==> !SameKey(s[i], s[j])
    ensures !HasDuplicate(s)
  {
    forall i, j | 0 <= i < j < |s|
      ensures !SameKey(s[i], s[j])
    {
      if j < m {
        assert s[..m][i] == s[i] && s[..m][j] == s[j];
      } else if m <= i {
        assert s[m..][i - m] == s[i] && s[m..][j - m] == s[j];
      }
    }
  }

  /** A successful run of the recursion is a strictly sorted permutation. */
  lemma {:induction false} SortRunSorted(s: seq<Entry>)
    ensures SortRun(s).Some? ==>
      StrictlySorted(SortRun(s).value) && multiset(SortRun(s).value) == multiset(s)
    decreases |s|
  {
    if |s| > 1 {
      var m := |s| / 2;
      assert s == s[..m] + s[m..];
      SortRunSorted(s[..m]);
      SortRunSorted(s[m..]);
      var left, right := SortRun(s[..m]), SortRun(s[m..]);
      if left.Some? && right.Some? {
        MergeRunsSorted(left.value, right.value);
        MergeRunsPermutation(left.value, right.value);
      }
    }
  }

  /** The recursion fails exactly on segments with a repeated key. */
  lemma {:induction false} SortRunFails(s: seq<Entry>)
    ensures SortRun(s).Some? <==> !HasDuplicate(s)
    decreases |s|
  {
    if |s| > 1 {
      var m := |s| / 2;
      SortRunFails(s[..m]);
      SortRunFails(s[m..]);
      SortRunSorted(s[..m]);
      SortRunSorted(s[m..]);
      var left, right := SortRun(s[..m]), SortRun(s[m..]);
      if left.Some? && right.Some? {
        MergeRunsFails(left.value, right.value);
        SharedKeyPermutation(s, m, left.value, right.value);
        if MergeRuns(left.value, right.value).None? {
          var i, j :| 0 <= i < |left.value| && 0 <= j < |right.value|
                      && SameKey(left.value[i], right.value[j]);
          SharedKeyFromHalves(s, m, left.value, right.value, i, j);
        } else {
          NoDuplicateFromHalves(s, m);
        }
      } else if left.None? {
        assert s[0..m] == s[..m];
        DuplicateInSlice(s, 0, m);
      } else {
        assert s[m..|s|] == s[m..];
        DuplicateInSlice(s, m, |s|);
      }
    }
  }

  /** The recursion succeeds exactly on segments without a repeated key,
      and then yields a strictly sorted permutation of the segment. */
  lemma SortRunSpec(s: seq<Entry>)
    ensures SortRun(s).Some? <==> !HasDuplicate(s)
    ensures SortRun(s).Some? ==>
      StrictlySorted(SortRun(s).value) && multiset(SortRun(s).value) == multiset(s)
  {
    SortRunFails(s);
    SortRunSorted(s);
  }

  /** The merged prefix p in front of the rest of a merge. */
  function Glue(p: seq<Entry>, o: Option<seq<Entry>>): Option<seq<Entry>>
  {
    if o.None? then None else Some(p + o.value)
  }

  lemma GlueEmpty(o: Option<seq<Entry>>)
    ensures Glue([], o) == o
  {
    if o.Some? {
      assert [] + o.value == o.value;
    }
  }

  lemma GlueCons(p: seq<Entry>, x: Entry, o: Option<seq<Entry>>)
    ensures Glue(p + [x], o) == Glue(p, Cons(x, o))
  {
    if o.Some? {
      assert p + [x] + o.value == p + ([x] + o.value);
    }
  }

  lemma MergeTakeLeft(l: seq<Entry>, r: seq<Entry>, i: nat, j: nat)
    requires i < |l| && j < |r| && Before(l[i], r[j])
    ensures MergeRuns(l[i..], r[j..]) == Cons(l[i], MergeRuns(l[i + 1..], r[j..]))
  {
    assert l[i..][0] == l[i] && l[i..][1..] == l[i + 1..];
    assert r[j..][0] == r[j];
  }

  lemma MergeTakeRight(l: seq<Entry>, r: seq<Entry>, i: nat, j: nat)
    requires i < |l| && j < |r| && !Before(l[i], r[j]) && !SameKey(l[i], r[j])
    ensures MergeRuns(l[i..], r[j..]) == Cons(r[j], MergeRuns(l[i..], r[j + 1..]))
  {
    assert r[j..][0] == r[j] && r[j..][1..] == r[j + 1..];
    assert l[i..][0] == l[i];
  }

  lemma MergeHeadsClash(l: seq<Entry>, r: seq<Entry>, i: nat, j: nat)
    requires i < |l| && j < |r| && SameKey(l[i], r[j])
    ensures MergeRuns(l[i..], r[j..]) == None
  {
    assert r[j..][0] == r[j] && l[i..][0] == l[i];
  }

  lemma StepLeft(left: seq<Entry>, right: seq<Entry>, done: seq<Entry>, i: nat, j: nat)
    requires i < |left| && j < |right| && Before(left[i], right[j])
    requires MergeRuns(left, right) == Glue(done, MergeRuns(left[i..], right[j..]))
    ensures MergeRuns(left, right) == Glue(done + [left[i]], MergeRuns(left[i + 1..], right[j..]))
  {
    MergeTakeLeft(left, right, i, j);
    GlueCons(done, left[i], MergeRuns(left[i + 1..], right[j..]));
  }

  lemma StepRight(left: seq<Entry>, right: seq<Entry>, done: seq<Entry>, i: nat, j: nat)
    requires i < |left| && j < |right| && !Before(left[i], right[j]) && !SameKey(left[i], right[j])
    requires MergeRuns(left, right) == Glue(done, MergeRuns(left[i..], right[j..]))
    ensures MergeRuns(left, right) == Glue(done + [right[j]], MergeRuns(left[i..], right[j + 1..]))
  {
    MergeTakeRight(left, right, i, j);
    GlueCons(done, right[j], MergeRuns(left[i..], right[j + 1..]));
  }

  lemma StepClash(left: seq<Entry>, right: seq<Entry>, done: seq<Entry>, i: nat, j: nat)
    requires i < |left| && j < |right| && SameKey(left[i], right[j])
    requires MergeRuns(left, right) == Glue(done, MergeRuns(left[i..], right[j..]))
    ensures MergeRuns(left, right).None?
  {
    MergeHeadsClash(left, right, i, j);
  }

  lemma StepDone(left: seq<Entry>, right: seq<Entry>, done: seq<Entry>, i: nat, j: nat)
    requires i <= |left| && j <= |right| && (i == |left| || j == |right|)
    requires MergeRuns(left, right) == Glue(done, MergeRuns(left[i..], right[j..]))
    ensures MergeRuns(left, right) == Some(done + left[i..] + right[j..])
  {
    if i == |left| {
      assert left[i..] == [];
      assert done + left[i..] + right[j..] == done + right[j..];
    } else {
      assert right[j..] == [];
      assert done + left[i..] + right[j..] == done + left[i..];
    }
  }

  /** The do-while loop of the merge step of `merge_sort` over the segment
      seg, split at m: it compares the two heads before it checks that
      either run is exhausted and writes the smaller one into the work array;
      equal keys abort. */
  method MergeHeads(seg: seq<Entry>, m: nat, w: array<Entry>)
    returns (ok: bool, i: nat, j: nat, k: nat)
    requires m < |seg| <= w.Length
    modifies w
    ensures m == 0 ==> !ok
    ensures !ok ==> m == 0 || MergeRuns(seg[..m], seg[m..]).None?
    ensures ok ==> i <= m && j <= |seg| - m && k == i + j && (i == m || j == |seg| - m)
    ensures ok ==> MergeRuns(seg[..m], seg[m..]) == Some(w[..k] + seg[..m][i..] + seg[m..][j..])
  {
    ghost var left, right := seg[..m], seg[m..];
    i, j, k := 0, 0, 0;
    var first := true;
    assert left[0..] == left && right[0..] == right && w[..0] == [];
    GlueEmpty(MergeRuns(left, right));
    while first || (i < m && m + j < |seg|)
      invariant i <= m && j <= |seg| - m && k == i + j
      invariant first ==> i == 0 && j == 0
      invariant m == 0 ==> first
      invariant MergeRuns(left, right) == Glue(w[..k], MergeRuns(left[i..], right[j..]))
      decreases |seg| - k, first
    {
      first := false;
      var x, y := seg[i], seg[m + j];
      if x.col < y.col || (x.col == y.col && x.row < y.row) {
        assert i < m && x == left[i] && y == right[j];
        StepLeft(left, right, w[..k], i, j);
        w[k] := x;
        assert w[..k + 1] == w[..k] + [x];
        i, k := i + 1, k + 1;
      } else if x.col == y.col && x.row == y.row {
        if i < m {
          assert x == left[i] && y == right[j];
          StepClash(left, right, w[..k], i, j);
        }
        return false, i, j, k;
      } else {
        assert x == left[i] && y == right[j];
        StepRight(left, right, w[..k], i, j);
        w[k] := y;
        assert w[..k + 1] == w[..k] + [y];
        j, k := j + 1, k + 1;
      }
    }
    StepDone(left, right, w[..k], i, j);
    ok := true;
  }

  /** The two loops of the merge step of `merge_sort` that move what is
      left of either run into the work array. */
  method MergeTails(seg: seq<Entry>, m: nat, w: array<Entry>, i0: nat, j0: nat, k0: nat)
    requires m < |seg| <= w.Length
    requires i0 <= m && j0 <= |seg| - m && k0 == i0 + j0 && (i0 == m || j0 == |seg| - m)
    requires MergeRuns(seg[..m], seg[m..]) == Some(w[..k0] + seg[..m][i0..] + seg[m..][j0..])
    modifies w
    ensures MergeRuns(seg[..m], seg[m..]) == Some(w[..|seg|])
  {
    ghost var left, right := seg[..m], seg[m..];
    var i, j, k := i0, j0, k0;
    while i < m
      invariant i <= m && j <= |seg| - m && k == i + j
      invariant i < m ==> j == |seg| - m
      invariant MergeRuns(left, right) == Some(w[..k] + left[i..] + right[j..])
    {
      w[k] := seg[i];
      assert seg[i] == left[i];
      assert right[j..] == [];
      assert w[..k + 1] + left[i + 1..] + right[j..] == w[..k] + left[i..] + right[j..];
      i, k := i + 1, k + 1;
    }
    while m + j < |seg|
      invariant i == m && j <= |seg| - m && k == i + j
      invariant MergeRuns(left, right) == Some(w[..k] + left[i..] + right[j..])
    {
      w[k] := seg[m + j];
      assert seg[m + j] == right[j];
      assert left[i..] == [];
      assert w[..k + 1] + left[i..] + right[j + 1..] == w[..k] + left[i..] + right[j..];
      j, k := j + 1, k + 1;
    }
    assert left[i..] == [] && right[j..] == [];
    assert w[..k] + left[i..] + right[j..] == w[..k];
  }

  /** The merge step of `merge_sort`: the do-while loop, the loops that
      move what is left of either run, and the copy of the work array back
      over the segment. The runs are read from a snapshot of the segment,
      which nothing writes before the final copy. */
  method Merge(a: array<Entry>, lo: nat, mid: nat, hi: nat, w: array<Entry>) returns (ok: bool)
    requires a != w
    requires lo <= mid < hi <= a.Length && hi - lo <= w.Length
    modifies a, w
    ensures mid == lo ==> !ok
    ensures mid > lo ==> (ok <==> MergeRuns(old(a[lo..mid]), old(a[mid..hi])).Some?)
    ensures ok ==> a[lo..hi] == MergeRuns(old(a[lo..mid]), old(a[mid..hi])).value
    ensures a[..lo] == old(a[..lo]) && a[hi..] == old(a[hi..])
    ensures !ok ==> a[..] == old(a[..])
  {
    var seg := a[lo..hi];
    var m := mid - lo;
    assert seg[..m] == a[lo..mid] && seg[m..] == a[mid..hi];
    var i, j, k;
    ok, i, j, k := MergeHeads(seg, m, w);
    if !ok {
      return;
    }
    MergeTails(seg, m, w, i, j, k);
    ghost var merged := w[..hi - lo];
    forall p | lo <= p < hi {
      a[p] := w[p - lo];
    }
    assert a[lo..hi] == merged;
    assert a[..lo] == old(a[..lo]);
    assert forall p :: hi <= p < a.Length ==> a[p] == old(a[p]);
    assert |a[hi..]| == |old(a[hi..])|;
    assert forall p :: 0 <= p < a.Length - hi ==> a[hi..][p] == a[hi + p];
  }

  lemma SliceFrame(x: seq<Entry>, y: seq<Entry>, lo: nat, mid: nat, hi: nat)
    requires lo <= mid <= hi <= |x| == |y|
    requires x[..lo] == y[..lo] && x[mid..] == y[mid..]
    ensures x[mid..hi] == y[mid..hi] && x[hi..] == y[hi..]
  {
    assert x[mid..hi] == x[mid..][..hi - mid];
    assert y[mid..hi] == y[mid..][..hi - mid];
    assert x[hi..] == x[mid..][hi - mid..];
    assert y[hi..] == y[mid..][hi - mid..];
  }

  lemma SliceFrameLeft(x: seq<Entry>, y: seq<Entry>, lo: nat, mid: nat)
    requires lo <= mid <= |x| == |y|
    requires x[..mid] == y[..mid]
    ensures x[lo..mid] == y[lo..mid] && x[..lo] == y[..lo]
  {
    assert x[lo..mid] == x[..mid][lo..];
    assert y[lo..mid] == y[..mid][lo..];
    assert x[..lo] == x[..mid][..lo];
    assert y[..lo] == y[..mid][..lo];
  }

  lemma SortRunUnfold(s: seq<Entry>, split: nat, l: seq<Entry>, r: seq<Entry>)
    requires |s| > 1 && split == |s| / 2 && l == s[..split] && r == s[split..]
    ensures SortRun(s) == if SortRun(l).None? || SortRun(r).None? then None
                          else MergeRuns(SortRun(l).value, SortRun(r).value)
  {
  }

  lemma MergeSortFailed(s: seq<Entry>, split: nat, l: seq<Entry>, r: seq<Entry>)
    requires |s| > 1 && split == |s| / 2 && l == s[..split] && r == s[split..]
    requires SortRun(l).None? || SortRun(r).None?
    ensures SortRun(s).None?
  {
    SortRunUnfold(s, split, l, r);
  }

  /** `merge_sort(Input_Array + lo, len, Work_Array)`: sorts the segment
      a[lo .. lo+len) by column, then row, through the shared work array.
      It fails on a repeated (row, col) key and, as written, on a segment of
      length 1, whose do-while compares the single entry with itself. */
  method MergeSort(a: array<Entry>, lo: nat, len: nat, w: array<Entry>) returns (ok: bool)
    requires a != w
    requires lo + len <= a.Length && len <= w.Length
    modifies a, w
    ensures a[..lo] == old(a[..lo]) && a[lo + len..] == old(a[lo + len..])
    ensures len == 1 ==> !ok
    ensures len != 1 ==> (ok <==> SortRun(old(a[lo..lo + len])).Some?)
    ensures ok ==> a[lo..lo + len] == SortRun(old(a[lo..lo + len])).value
    decreases len, 1
  {
    if len > 1 {
      var split := len / 2;
      var mid, hi := lo + split, lo + len;
      ghost var s0 := a[lo..hi];
      ghost var l0, r0 := a[lo..mid], a[mid..hi];
      assert s0[..split] == l0 && s0[split..] == r0;
      ok := SortHalves(a, lo, split, len, w);
      if !ok {
        MergeSortFailed(s0, split, l0, r0);
        return;
      }
      ok := Merge(a, lo, mid, hi, w);
      SortRunUnfold(s0, split, l0, r0);
    } else if len == 1 {
      ok := Merge(a, lo, lo, lo + 1, w);
    } else {
      ok := true;
    }
  }

  /** Both halves of a merge sort, left then right; the right half is not
      touched once the left one has failed. */
  method SortHalves(a: array<Entry>, lo: nat, split: nat, len: nat, w: array<Entry>) returns (ok: bool)
    requires a != w
    requires 0 < split < len && lo + len <= a.Length && len <= w.Length
    modifies a, w
    ensures a[..lo] == old(a[..lo]) && a[lo + len..] == old(a[lo + len..])
    ensures ok <==> SortRun(old(a[lo..lo + split])).Some? && SortRun(old(a[lo + split..lo + len])).Some?
    ensures ok ==> a[lo..lo + split] == SortRun(old(a[lo..lo + split])).value
    ensures ok ==> a[lo + split..lo + len] == SortRun(old(a[lo + split..lo + len])).value
    decreases len, 0
  {
    var mid, hi := lo + split, lo + len;
    ok := SortPart(a, lo, split, w);
    if !ok {
      return;
    }
    ghost var a1 := a[..];
    SliceFrame(a[..], old(a[..]), lo, mid, hi);
    ok := SortPart(a, mid, len - split, w);
    if !ok {
      return;
    }
    SliceFrameLeft(a[..], a1, lo, mid);
  }

  /** One half of a merge sort: a segment of more than one entry is sorted
      by the recursive call, a shorter one is left as it is. */
  method SortPart(a: array<Entry>, lo: nat, len: nat, w: array<Entry>) returns (ok: bool)
    requires a != w
    requires lo + len <= a.Length && len <= w.Length
    modifies a, w
    ensures a[..lo] == old(a[..lo]) && a[lo + len..] == old(a[lo + len..])
    ensures ok <==> SortRun(old(a[lo..lo + len])).Some?
    ensures ok ==> a[lo..lo + len] == SortRun(old(a[lo..lo + len])).value
    decreases len, 2
  {
    if len > 1 {
      ok := MergeSort(a, lo, len, w);
    } else {
      ok := true;
    }
  }

  // ------------------------------------------------------ phase-mask slots

  /** Positions 0, 1, 2 of the phases A (bit 0x04), B (0x02) and C (0x01)
      present in the low three bits of a bus's phase byte, in A, B, C order. */
  function PresentPhases(phases: nat): (r: seq<nat>)
    ensures |r| <= 3
    ensures forall k :: 0 <= k < |r| ==> r[k] < 3
  {
    var m := phases % 8;
    (if m / 4 == 1 then [0] else []) + (if (m / 2) % 2 == 1 then [1] else [])
      + (if m % 2 == 1 then [2] else [])
  }

  /** The switch on `phases & 0x07` of the power-update loop: the pair
      (temp_index, temp_index_b) for the jindex-th phase of the bus; a mask
      without A, B or C raises "A scheduled power update element failed". */
  function PowerUpdateSlots(phases: nat, jindex: nat): Result<(int, int)>
  {
    var m := phases % 8;
    if m == 1 then Ok((0, 2))
    else if m == 2 then Ok((0, 1))
    else if m == 3 then (if jindex == 0 then Ok((0, 1)) else Ok((1, 2)))
    else if m == 4 then Ok((0, 0))
    else if m == 5 then (if jindex == 0 then Ok((0, 0)) else Ok((1, 2)))
    else if m == 6 || m == 7 then Ok((jindex, jindex))
    else Err("NR: A scheduled power update element failed.")
  }

  /** The column switch of the current-injection loop: temp_index for the
      kindex-th phase of the bus; a mask without A, B or C raises "A voltage
      index failed to be found". */
  function VoltageSlot(phases: nat, kindex: nat): Result<int>
  {
    var m := phases % 8;
    if m == 1 then Ok(2)
    else if m == 2 then Ok(1)
    else if m == 3 then (if kindex == 0 then Ok(1) else Ok(2))
    else if m == 4 then Ok(0)
    else if m == 5 then (if kindex == 0 then Ok(0) else Ok(2))
    else if m == 6 then (if kindex == 0 then Ok(0) else Ok(1))
    else if m == 7 then Ok(kindex)
    else Err("NR: A voltage index failed to be found.")
  }

  /** For each of the bus's phases, the row switch yields its rank among
      the present phases and its A/B/C position; it fails exactly on a mask
      without A, B and C. */
  lemma PowerUpdateSlotsSpec(phases: nat, jindex: nat)
    ensures PowerUpdateSlots(phases, jindex).Ok? <==> |PresentPhases(phases)| > 0
    ensures jindex < |PresentPhases(phases)| ==>
      PowerUpdateSlots(phases, jindex) == Ok((jindex as int, PresentPhases(phases)[jindex] as int))
  {
  }

  /** The column switch maps the kindex-th phase to its A/B/C position and
      fails exactly on a mask without A, B and C. */
  lemma VoltageSlotSpec(phases: nat, kindex: nat)
    ensures VoltageSlot(phases, kindex).Ok? <==> |PresentPhases(phases)| > 0
    ensures kindex < |PresentPhases(phases)| ==>
      VoltageSlot(phases, kindex) == Ok(PresentPhases(phases)[kindex] as int)
  {
  }

  /** Both switches agree on the A/B/C position of every present phase. */
  lemma SlotsAgree(phases: nat, j: nat)
    requires j < |PresentPhases(phases)|
    ensures PowerUpdateSlots(phases, j).Ok? && VoltageSlot(phases, j).Ok?
    ensures PowerUpdateSlots(phases, j).value.1 == VoltageSlot(phases, j).value
  {
    PowerUpdateSlotsSpec(phases, j);
    VoltageSlotSpec(phases, j);
  }

  // ------------------------------------------------ dynamic diagonal terms

  const PqBus: int := 0
  const PvBus: int := 1
  const SwingBus: int := 2

  /** The large admittance that pins a swing bus's voltage. */
  const SwingY: real := 10000000000.0

  /** What the diagonal update reads of a bus: its type, its position in
      the matrices, its number of phases, the diagonal of its self
      admittance and the load terms a, b, c, d of each phase. */
  datatype NrBus = NrBus(busType: int, matrixLoc: nat, size: nat, yDiag: seq<Complex>,
                         jacobA: seq<real>, jacobB: seq<real>, jacobC: seq<real>, jacobD: seq<real>)

  predicate BusShaped(b: NrBus)
  {
    |b.yDiag| >= b.size && |b.jacobA| >= b.size && |b.jacobB| >= b.size
    && |b.jacobC| >= b.size && |b.jacobD| >= b.size
  }

  /** The four entries of phase j of a bus: rows and columns 2*Matrix_Loc+j
      and 2*Matrix_Loc+j+size, in the order (r,r), (r,r+s), (r+s,r), (r+s,r+s). */
  function PhaseUpdate(b: NrBus, j: nat): (r: seq<Entry>)
    requires BusShaped(b) && j < b.size
    ensures |r| == 4
  {
    var r := 2 * b.matrixLoc + j;
    var s := b.size;
    if b.busType == SwingBus then
      [Entry(r, r, SwingY), Entry(r, r + s, SwingY), Entry(r + s, r, SwingY), Entry(r + s, r + s, -SwingY)]
    else
      [Entry(r, r, b.yDiag[j].im + b.jacobA[j]), Entry(r, r + s, b.yDiag[j].re + b.jacobB[j]),
       Entry(r + s, r, b.yDiag[j].re + b.jacobC[j]), Entry(r + s, r + s, -b.yDiag[j].im + b.jacobD[j])]
  }

  /** The entries of the first n phases of a bus; a PV bus has none. */
  function BusUpdate(b: NrBus, n: nat): seq<Entry>
    requires BusShaped(b) && n <= b.size
  {
    if b.busType == PvBus || n == 0 then [] else BusUpdate(b, n - 1) + PhaseUpdate(b, n - 1)
  }

  predicate AllShaped(buses: seq<NrBus>)
  {
    forall i :: 0 <= i < |buses| ==> BusShaped(buses[i])
  }

  /** The entries of the first n buses. */
  function DiagUpdate(buses: seq<NrBus>, n: nat): seq<Entry>
    requires AllShaped(buses) && n <= |buses|
  {
    if n == 0 then [] else DiagUpdate(buses, n - 1) + BusUpdate(buses[n - 1], buses[n - 1].size)
  }

  /** size_diag_update over the first n buses: the phases of every bus that
      is not PV. */
  function SizeDiagUpdate(buses: seq<NrBus>, n: nat): nat
    requires n <= |buses|
  {
    if n == 0 then 0
    else SizeDiagUpdate(buses, n - 1) + (if buses[n - 1].busType != PvBus then buses[n - 1].size else 0)
  }

  lemma {:induction false} BusUpdateLength(b: NrBus, n: nat)
    requires BusShaped(b) && n <= b.size
    ensures |BusUpdate(b, n)| == if b.busType == PvBus then 0 else 4 * n
  {
    if b.busType != PvBus && n > 0 {
      BusUpdateLength(b, n - 1);
    }
  }

  /** The update array holds exactly four entries per phase of every bus
      that is not PV. */
  lemma {:induction false} DiagUpdateLength(buses: seq<NrBus>, n: nat)
    requires AllShaped(buses) && n <= |buses|
    ensures |DiagUpdate(buses, n)| == 4 * SizeDiagUpdate(buses, n)
  {
    if n > 0 {
      DiagUpdateLength(buses, n - 1);
      BusUpdateLength(buses[n - 1], buses[n - 1].size);
    }
  }

  /** Phase j of a bus occupies entries 4j .. 4j+3 of its block. */
  lemma {:induction false} BusUpdateAt(b: NrBus, n: nat, j: nat)
    requires BusShaped(b) && j < n <= b.size && b.busType != PvBus
    ensures |BusUpdate(b, n)| == 4 * n
    ensures BusUpdate(b, n)[4 * j .. 4 * j + 4] == PhaseUpdate(b, j)
  {
    BusUpdateLength(b, n);
    BusUpdateLength(b, n - 1);
    var prev := BusUpdate(b, n - 1);
    if j < n - 1 {
      BusUpdateAt(b, n - 1, j);
      assert (prev + PhaseUpdate(b, n - 1))[4 * j .. 4 * j + 4] == prev[4 * j .. 4 * j + 4];
    } else {
      assert (prev + PhaseUpdate(b, n - 1))[4 * j .. 4 * j + 4] == PhaseUpdate(b, n - 1);
    }
  }

  /** The entries of the first m buses are a prefix of those of the first n. */
  lemma {:induction false} DiagUpdatePrefix(buses: seq<NrBus>, m: nat, n: nat)
    requires AllShaped(buses) && m <= n <= |buses|
    ensures DiagUpdate(buses, m) <= DiagUpdate(buses, n)
    ensures SizeDiagUpdate(buses, m) <= SizeDiagUpdate(buses, n)
  {
    if m < n {
      DiagUpdatePrefix(buses, m, n - 1);
    }
  }

  /** The block of bus i starts after the blocks of the buses before it. */
  lemma {:induction false} DiagUpdateBlock(buses: seq<NrBus>, n: nat, i: nat)
    requires AllShaped(buses) && i < n <= |buses|
    ensures |DiagUpdate(buses, n)| == 4 * SizeDiagUpdate(buses, n)
    ensures 4 * SizeDiagUpdate(buses, i) + |BusUpdate(buses[i], buses[i].size)| <= |DiagUpdate(buses, n)|
    ensures DiagUpdate(buses, n)[4 * SizeDiagUpdate(buses, i) .. 4 * SizeDiagUpdate(buses, i) + |BusUpdate(buses[i], buses[i].size)|]
            == BusUpdate(buses[i], buses[i].size)
  {
    DiagUpdateLength(buses, n);
    DiagUpdateLength(buses, i);
    DiagUpdatePrefix(buses, i + 1, n);
    SliceOfPrefix(DiagUpdate(buses, i), BusUpdate(buses[i], buses[i].size), DiagUpdate(buses, i + 1), DiagUpdate(buses, n));
  }

  /** The tail b of a prefix a + b of d sits in d right after a. */
  lemma SliceOfPrefix(a: seq<Entry>, b: seq<Entry>, p: seq<Entry>, d: seq<Entry>)
    requires p == a + b && p <= d
    ensures |a| + |b| <= |d| && d[|a| .. |a| + |b|] == b
  {
    forall k | 0 <= k < |b|
      ensures d[|a| .. |a| + |b|][k] == b[k]
    {
      assert (a + b)[|a| + k] == b[k];
    }
  }

  /** A run found inside a block found inside d is found inside d. */
  lemma RunInBlock(d: seq<Entry>, lo: nat, blk: seq<Entry>, x: nat, run: seq<Entry>)
    requires lo + |blk| <= |d| && d[lo .. lo + |blk|] == blk
    requires x + |run| <= |blk| && blk[x .. x + |run|] == run
    ensures d[lo + x .. lo + x + |run|] == run
  {
    forall k | 0 <= k < |run|
      ensures d[lo + x .. lo + x + |run|][k] == run[k]
    {
      assert run[k] == blk[x + k] == d[lo .. lo + |blk|][x + k];
    }
  }

  /** Phase j of bus i sits at entries 4*(size_diag_update of the buses
      before i, plus j) .. +4 of Y_diag_update. */
  lemma {:induction false} DiagUpdatePhase(buses: seq<NrBus>, i: nat, j: nat)
    requires AllShaped(buses) && i < |buses| && buses[i].busType != PvBus && j < buses[i].size
    ensures 4 * (SizeDiagUpdate(buses, i) + j) + 4 <= |DiagUpdate(buses, |buses|)|
    ensures DiagUpdate(buses, |buses|)[4 * (SizeDiagUpdate(buses, i) + j) .. 4 * (SizeDiagUpdate(buses, i) + j) + 4]
            == PhaseUpdate(buses[i], j)
  {
    var b := buses[i];
    var lo := 4 * SizeDiagUpdate(buses, i);
    DiagUpdateBlock(buses, |buses|, i);
    BusUpdateAt(b, b.size, j);
    var run := PhaseUpdate(b, j);
    RunInBlock(DiagUpdate(buses, |buses|), lo, BusUpdate(b, b.size), 4 * j, run);
    assert lo + 4 * j == 4 * (SizeDiagUpdate(buses, i) + j) && |run| == 4;
  }

  /** A swing bus contributes, for each of its phases j, the pattern
      +1e10, +1e10, +1e10, -1e10 at rows/columns (r,r), (r,r+s), (r+s,r),
      (r+s,r+s), r = 2*Matrix_Loc+j and s its number of phases. */
  lemma {:induction false} SwingBusPattern(buses: seq<NrBus>, i: nat, j: nat)
    requires AllShaped(buses) && i < |buses| && buses[i].busType == SwingBus && j < buses[i].size
    ensures 4 * (SizeDiagUpdate(buses, i) + j) + 4 <= |DiagUpdate(buses, |buses|)|
    ensures var d := DiagUpdate(buses, |buses|);
            var o := 4 * (SizeDiagUpdate(buses, i) + j);
            var r := 2 * buses[i].matrixLoc + j;
            var s := buses[i].size;
            d[o .. o + 4] == [Entry(r, r, SwingY), Entry(r, r + s, SwingY), Entry(r + s, r, SwingY), Entry(r + s, r + s, -SwingY)]
  {
    DiagUpdatePhase(buses, i, j);
  }

  /** Every entry of a bus's block lies in the bus's 2s-by-2s diagonal
      block starting at row and column 2*Matrix_Loc. */
  lemma {:induction false} BusUpdateInBlock(b: NrBus, n: nat)
    requires BusShaped(b) && n <= b.size
    ensures forall k :: 0 <= k < |BusUpdate(b, n)| ==>
      2 * b.matrixLoc <= BusUpdate(b, n)[k].row < 2 * b.matrixLoc + 2 * b.size
      && 2 * b.matrixLoc <= BusUpdate(b, n)[k].col < 2 * b.matrixLoc + 2 * b.size
  {
    if b.busType != PvBus && n > 0 {
      BusUpdateInBlock(b, n - 1);
    }
  }

  /** The four assignments of one phase, at positions at .. at+3. */
  method WritePhase(y: array<Entry>, at: nat, phase: seq<Entry>)
    requires |phase| == 4 && at + 4 <= y.Length
    modifies y
    ensures y[..at + 4] == old(y[..at]) + phase
  {
    y[at], y[at + 1], y[at + 2], y[at + 3] := phase[0], phase[1], phase[2], phase[3];
  }

  /** The inner loop of the filling pass: the four entries of each phase of
      one bus that is not PV, written from position indexer on. */
  method FillBus(y: array<Entry>, indexer: nat, b: NrBus)
    requires BusShaped(b) && b.busType != PvBus && indexer + 4 * b.size <= y.Length
    modifies y
    ensures y[..indexer + 4 * b.size] == old(y[..indexer]) + BusUpdate(b, b.size)
  {
    ghost var pre := y[..indexer];
    var jindex := 0;
    while jindex < b.size
      invariant 0 <= jindex <= b.size
      invariant y[..indexer + 4 * jindex] == pre + BusUpdate(b, jindex)
    {
      FillPhase(y, indexer, b, jindex, pre);
      jindex := jindex + 1;
    }
  }

  /** One pass of the inner loop: the four entries of phase jindex. */
  method FillPhase(y: array<Entry>, indexer: nat, b: NrBus, jindex: nat, ghost pre: seq<Entry>)
    requires BusShaped(b) && b.busType != PvBus && jindex < b.size && indexer + 4 * b.size <= y.Length
    requires y[..indexer + 4 * jindex] == pre + BusUpdate(b, jindex)
    modifies y
    ensures y[..indexer + 4 * (jindex + 1)] == pre + BusUpdate(b, jindex + 1)
  {
    ghost var done := y[..indexer + 4 * jindex];
    var phase := PhaseUpdate(b, jindex);
    WritePhase(y, indexer + 4 * jindex, phase);
    AppendAfter(pre, BusUpdate(b, jindex), phase, done, BusUpdate(b, jindex + 1));
  }

  /** (pre + xs) + ys == pre + zs when zs is xs followed by ys. */
  lemma AppendAfter(pre: seq<Entry>, xs: seq<Entry>, ys: seq<Entry>, done: seq<Entry>, zs: seq<Entry>)
    requires done == pre + xs && zs == xs + ys
    ensures done + ys == pre + zs
  {
  }

  /** The counting loop: size_diag_update, the number of phases of the
      buses that are not PV. */
  method CountDiagUpdate(buses: seq<NrBus>) returns (sizeDiagUpdate: nat)
    ensures sizeDiagUpdate == SizeDiagUpdate(buses, |buses|)
  {
    sizeDiagUpdate := 0;
    var jindexer := 0;
    while jindexer < |buses|
      invariant 0 <= jindexer <= |buses|
      invariant sizeDiagUpdate == SizeDiagUpdate(buses, jindexer)
    {
      if buses[jindexer].busType != PvBus {
        sizeDiagUpdate := sizeDiagUpdate + buses[jindexer].size;
      }
      jindexer := jindexer + 1;
    }
  }

  /** One pass of the filling loop: the block of bus jindexer is written
      right after the blocks of the buses before it. */
  method FillDiagStep(buses: seq<NrBus>, y: array<Entry>, jindexer: nat, indexer: nat) returns (next: nat)
    requires AllShaped(buses) && jindexer < |buses|
    requires y.Length == 4 * SizeDiagUpdate(buses, |buses|)
    requires indexer == 4 * SizeDiagUpdate(buses, jindexer) <= y.Length
    requires y[..indexer] == DiagUpdate(buses, jindexer)
    modifies y
    ensures next == 4 * SizeDiagUpdate(buses, jindexer + 1) <= y.Length
    ensures y[..next] == DiagUpdate(buses, jindexer + 1)
  {
    var b := buses[jindexer];
    assert BusShaped(b);
    DiagUpdatePrefix(buses, jindexer + 1, |buses|);
    BusUpdateLength(b, b.size);
    next := indexer;
    if b.busType != PvBus {
      FillBus(y, indexer, b);
      next := indexer + 4 * b.size;
    }
  }

  /** The counting loop and the filling loop over the buses: size_diag_update
      and the array Y_diag_update of 4*size_diag_update entries. */
  method BuildDiagUpdate(buses: seq<NrBus>) returns (sizeDiagUpdate: nat, yDiagUpdate: array<Entry>)
    requires AllShaped(buses)
    ensures sizeDiagUpdate == SizeDiagUpdate(buses, |buses|)
    ensures yDiagUpdate.Length == 4 * sizeDiagUpdate
    ensures yDiagUpdate[..] == DiagUpdate(buses, |buses|)
    ensures fresh(yDiagUpdate)
  {
    sizeDiagUpdate := CountDiagUpdate(buses);
    DiagUpdateLength(buses, |buses|);
    yDiagUpdate := new Entry[4 * sizeDiagUpdate](_ => Entry(0, 0, 0.0));
    var indexer := 0;
    var jindexer := 0;
    while jindexer < |buses|
      invariant 0 <= jindexer <= |buses|
      invariant indexer == 4 * SizeDiagUpdate(buses, jindexer) <= yDiagUpdate.Length
      invariant yDiagUpdate[..indexer] == DiagUpdate(buses, jindexer)
    {
      indexer := FillDiagStep(buses, yDiagUpdate, jindexer, indexer);
      jindexer := jindexer + 1;
    }
    assert yDiagUpdate[..] == yDiagUpdate[..indexer];
  }

  // ------------------------------------------------ Amatrix assembly

  /** What building the sparse Jacobian can end in: an empty system (a
      warning; the solve counts as not bad and returns 0), a duplicate
      (row, column) pair (merge_sort throws), or the column-sorted entries. */
  datatype AssemblyStatus = EmptySystem | DuplicateEntry | Assembled

  /** Copies src into a[at .. at + |src|], leaving the rest of a alone. */
  method CopyInto(a: array<Entry>, at: nat, src: seq<Entry>)
    requires at + |src| <= a.Length
    modifies a
    ensures a[..at] == old(a[..at]) && a[at .. at + |src|] == src
  {
    var indexer := 0;
    while indexer < |src|
      invariant 0 <= indexer <= |src|
      invariant a[..at] == old(a[..at]) && a[at .. at + indexer] == src[..indexer]
    {
      a[at + indexer] := src[indexer];
      assert a[at .. at + indexer + 1] == a[at .. at + indexer] + [src[indexer]];
      indexer := indexer + 1;
    }
  }

  /** The three copy loops into a fresh Y_Amatrix. */
  method CopyAll(offdiag: seq<Entry>, fixed: seq<Entry>, update: seq<Entry>) returns (amatrix: array<Entry>)
    ensures fresh(amatrix) && amatrix[..] == offdiag + fixed + update
  {
    amatrix := new Entry[|offdiag| + |fixed| + |update|](_ => Entry(0, 0, 0.0));
    CopyInto(amatrix, 0, offdiag);
    CopyInto(amatrix, |offdiag|, fixed);
    CopyInto(amatrix, |offdiag| + |fixed|, update);
    assert amatrix[..] == amatrix[..|offdiag|] + amatrix[|offdiag| .. |offdiag| + |fixed|]
                          + amatrix[|offdiag| + |fixed| .. amatrix.Length];
  }

  /** Y_Amatrix: the off-diagonal PQ entries, then the fixed diagonal
      entries, then the updated diagonal entries, sorted by column and then
      row. sizeOffdiagPq, sizeDiagFixed and sizeDiagUpdate count the
      entries as the solver does (2, 2 and 4 matrix entries per unit). */
  method AssembleAmatrix(offdiag: seq<Entry>, fixed: seq<Entry>, update: seq<Entry>,
                         sizeOffdiagPq: nat, sizeDiagFixed: nat, sizeDiagUpdate: nat)
    returns (status: AssemblyStatus, amatrix: array<Entry>)
    requires |offdiag| == 2 * sizeOffdiagPq && |fixed| == 2 * sizeDiagFixed && |update| == 4 * sizeDiagUpdate
    ensures status == EmptySystem <==> |offdiag| + |fixed| + |update| == 0
    ensures status == DuplicateEntry <==> HasDuplicate(offdiag + fixed + update)
    ensures status == Assembled ==>
      StrictlySorted(amatrix[..]) && multiset(amatrix[..]) == multiset(offdiag + fixed + update)
    ensures status == Assembled ==>
      SortRun(offdiag + fixed + update).Some? && amatrix[..] == SortRun(offdiag + fixed + update).value
  {
    var sizeAmatrix := sizeOffdiagPq * 2 + sizeDiagFixed * 2 + 4 * sizeDiagUpdate;
    if sizeAmatrix == 0 {
      amatrix := new Entry[0];
      assert offdiag + fixed + update == [];
      return EmptySystem, amatrix;
    }
    var ok;
    ok, amatrix := CopyAndSort(offdiag, fixed, update);
    SortRunSpec(offdiag + fixed + update);
    status := if ok then Assembled else DuplicateEntry;
  }

  /** The copy loops into a fresh Y_Amatrix of at least two entries, then
      merge_sort over all of it with a work array of the same size. */
  method CopyAndSort(offdiag: seq<Entry>, fixed: seq<Entry>, update: seq<Entry>) returns (ok: bool, amatrix: array<Entry>)
    requires |offdiag| + |fixed| + |update| > 1
    ensures fresh(amatrix)
    ensures ok <==> SortRun(offdiag + fixed + update).Some?
    ensures ok ==> amatrix[..] == SortRun(offdiag + fixed + update).value
  {
    ghost var all := offdiag + fixed + update;
    amatrix := CopyAll(offdiag, fixed, update);
    var work := new Entry[amatrix.Length](_ => Entry(0, 0, 0.0));
    assert amatrix[0 .. amatrix.Length] == all;
    ok := MergeSort(amatrix, 0, amatrix.Length, work);
    assert amatrix[..] == amatrix[0 .. amatrix.Length];
  }

  // ------------------------------------------------ compressed columns

  /** The positions at which a new column starts among the first k entries
      of a column-sorted list: position 0 and every p whose column exceeds
      the column before it. */
  function ColumnStarts(e: seq<Entry>, k: nat): (r: seq<nat>)
    requires 1 <= k <= |e|
    ensures |r| >= 1 && r[0] == 0
    ensures forall i :: 0 <= i < |r| ==> r[i] < k
  {
    if k == 1 then [0]
    else ColumnStarts(e, k - 1) + (if e[k - 1].col > e[k - 2].col then [k - 1] else [])
  }

  /** ColumnStarts lists, in increasing order, exactly position 0 and the
      positions at which the column grows. */
  lemma {:induction false} ColumnStartsSpec(e: seq<Entry>, k: nat)
    requires 1 <= k <= |e|
    ensures forall i, j :: 0 <= i < j < |ColumnStarts(e, k)| ==> ColumnStarts(e, k)[i] < ColumnStarts(e, k)[j]
    ensures forall p :: 0 < p < k ==> (p in ColumnStarts(e, k) <==> e[p].col > e[p - 1].col)
  {
    if k > 1 {
      ColumnStartsSpec(e, k - 1);
    }
  }

  /** When the columns of the entries run through 0 .. n-1 without gaps,
      there are n column starts and start c is the first entry of column c. */
  lemma {:induction false} ColumnStartsCover(e: seq<Entry>, k: nat)
    requires 1 <= k <= |e| && e[0].col == 0
    requires forall p :: 0 < p < |e| ==> e[p - 1].col <= e[p].col <= e[p - 1].col + 1
    ensures |ColumnStarts(e, k)| == e[k - 1].col + 1
    ensures forall c :: 0 <= c < |ColumnStarts(e, k)| ==>
      e[ColumnStarts(e, k)[c]].col == c && (ColumnStarts(e, k)[c] == 0 || e[ColumnStarts(e, k)[c] - 1].col < c)
  {
    if k > 1 {
      ColumnStartsCover(e, k - 1);
      assert 0 < k - 1 < |e|;
    }
  }

  /** The compressed-column conversion: the row and value arrays copied from
      the sorted entries, cols_LU[0] = 0, one further column pointer for every
      rise of the column, and cols_LU[n] = nnz. Pointer slots past the last
      rise keep what they held. */
  method CompressColumns(amatrix: array<Entry>, n: nat, rowsLu: array<int>, aLu: array<real>, colsLu: array<int>)
    requires 0 < amatrix.Length == rowsLu.Length == aLu.Length
    requires colsLu.Length == n + 1
    requires |ColumnStarts(amatrix[..], amatrix.Length)| <= n
    requires rowsLu != colsLu
    modifies rowsLu, aLu, colsLu
    ensures forall i :: 0 <= i < rowsLu.Length ==> rowsLu[i] == amatrix[i].row && aLu[i] == amatrix[i].value
    ensures colsLu[..|ColumnStarts(amatrix[..], amatrix.Length)|] == ColumnStarts(amatrix[..], amatrix.Length)
    ensures colsLu[n] == amatrix.Length
    ensures forall i :: |ColumnStarts(amatrix[..], amatrix.Length)| <= i < n ==> colsLu[i] == old(colsLu[i])
  {
    CopyRowsValues(amatrix, rowsLu, aLu);
    FillColumnPointers(amatrix, n, colsLu);
  }

  /** The row and value arrays of the compressed form, copied entry by entry. */
  method CopyRowsValues(amatrix: array<Entry>, rowsLu: array<int>, aLu: array<real>)
    requires amatrix.Length == rowsLu.Length == aLu.Length
    modifies rowsLu, aLu
    ensures forall i :: 0 <= i < rowsLu.Length ==> rowsLu[i] == amatrix[i].row && aLu[i] == amatrix[i].value
  {
    var indexer := 0;
    while indexer < amatrix.Length
      invariant 0 <= indexer <= amatrix.Length
      invariant forall i :: 0 <= i < indexer ==> rowsLu[i] == amatrix[i].row && aLu[i] == amatrix[i].value
    {
      rowsLu[indexer] := amatrix[indexer].row;
      aLu[indexer] := amatrix[indexer].value;
      indexer := indexer + 1;
    }
  }

  /** The column pointers: 0, then the position of every rise of the
      column, then nnz in the last slot. */
  method FillColumnPointers(amatrix: array<Entry>, n: nat, colsLu: array<int>)
    requires 0 < amatrix.Length && colsLu.Length == n + 1
    requires |ColumnStarts(amatrix[..], amatrix.Length)| <= n
    modifies colsLu
    ensures colsLu[..|ColumnStarts(amatrix[..], amatrix.Length)|] == ColumnStarts(amatrix[..], amatrix.Length)
    ensures colsLu[n] == amatrix.Length
    ensures forall i :: |ColumnStarts(amatrix[..], amatrix.Length)| <= i < n ==> colsLu[i] == old(colsLu[i])
  {
    ghost var e := amatrix[..];
    ColumnStartsPrefix(e, 1, amatrix.Length);
    colsLu[0] := 0;
    var indexer := 0;
    var tempIndexC := 0;
    var jindexer := 0;
    while jindexer < amatrix.Length - 1
      invariant 0 <= jindexer <= amatrix.Length - 1
      invariant indexer == jindexer
      invariant tempIndexC + 1 == |ColumnStarts(e, jindexer + 1)| <= n
      invariant colsLu[..tempIndexC + 1] == ColumnStarts(e, jindexer + 1)
      invariant forall i :: tempIndexC + 1 <= i < colsLu.Length ==> colsLu[i] == old(colsLu[i])
    {
      indexer := indexer + 1;
      tempIndexC := PointerStep(amatrix, n, colsLu, jindexer, tempIndexC);
      jindexer := jindexer + 1;
    }
    colsLu[n] := amatrix.Length;
  }

  /** One step of the pointer loop: a rise of the column between entries
      j and j+1 writes the next pointer, j+1. */
  method PointerStep(amatrix: array<Entry>, n: nat, colsLu: array<int>, j: nat, c: nat) returns (c': nat)
    requires j + 1 < amatrix.Length && colsLu.Length == n + 1
    requires |ColumnStarts(amatrix[..], amatrix.Length)| <= n
    requires c + 1 == |ColumnStarts(amatrix[..], j + 1)| <= n
    requires colsLu[..c + 1] == ColumnStarts(amatrix[..], j + 1)
    modifies colsLu
    ensures c' + 1 == |ColumnStarts(amatrix[..], j + 2)| <= n
    ensures colsLu[..c' + 1] == ColumnStarts(amatrix[..], j + 2)
    ensures forall i :: c' + 1 <= i < colsLu.Length ==> colsLu[i] == old(colsLu[i])
  {
    ghost var e := amatrix[..];
    ColumnStartsPrefix(e, j + 2, amatrix.Length);
    c' := c;
    if amatrix[j + 1].col > amatrix[j].col {
      c' := c + 1;
      colsLu[c'] := j + 1;
    }
  }

  /** The starts among fewer entries are never more than among more. */
  lemma {:induction false} ColumnStartsPrefix(e: seq<Entry>, k: nat, m: nat)
    requires 1 <= k <= m <= |e|
    ensures |ColumnStarts(e, k)| <= |ColumnStarts(e, m)|
  {
    if k < m {
      ColumnStartsPrefix(e, k, m - 1);
    }
  }
}
