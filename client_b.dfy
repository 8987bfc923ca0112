// Helpers of the browser client: clamping, the heatmap voltage window,
// progress reporting, marker sizes, coordinate transforms, the median of
// edge lengths and the ordering of property keys.

module SgtClientB {
  import opened Shared

  const IMaxPrecompute: real := 500.0
  const TMaxPrecompute: real := 1000.0
  const ZipSz: real := 10.0
  const DatumRefX: real := 526711.07
  const DatumRefY: real := 5249625.32
  const LatRef: real := -42.905518
  const LonRef: real := 147.327209

  // ------------------------------------------------------------------ clamp

  /** `clamp(x, min, max)` = max(min, min(x, max)). */
  function Clamp(x: real, lo: real, hi: real): (r: real)
    ensures lo <= hi ==> lo <= r <= hi
    ensures lo <= x <= hi ==> r == x
    ensures x < lo ==> r == lo
    ensures lo <= hi < x ==> r == hi
  {
    RMax(lo, RMin(x, hi))
  }

  /** The heatmap parameter of a bus voltage; `None` stands for the NaN
      that 0/0 gives when the window is empty. */
  function HeatParam(v: real, vLow: real, vHigh: real, vRange: real): Option<real>
  {
    if vRange == 0.0 then None else Some((Clamp(v, vLow, vHigh) - vLow) / vRange)
  }

  /** In a window vLow < vHigh with vRange = vHigh - vLow the parameter lies
      in [0, 1], with 0 at or below vLow and 1 at or above vHigh. */
  lemma HeatParamRange(v: real, vLow: real, vHigh: real)
    requires vLow < vHigh
    ensures HeatParam(v, vLow, vHigh, vHigh - vLow).Some?
    ensures 0.0 <= HeatParam(v, vLow, vHigh, vHigh - vLow).value <= 1.0
    ensures v <= vLow ==> HeatParam(v, vLow, vHigh, vHigh - vLow).value == 0.0
    ensures v >= vHigh ==> HeatParam(v, vLow, vHigh, vHigh - vLow).value == 1.0
  {
    var c := Clamp(v, vLow, vHigh);
    var d := vHigh - vLow;
    assert (c - vLow) / d * d == c - vLow;
  }

  // --------------------------------------------------------------- progress

  /** `reportProgress`: the larger of the iteration and time fractions, in percent. */
  function ReportProgress(iter: real, t: real): (percent: real)
    ensures percent >= 100.0 * (IMaxPrecompute - iter) / IMaxPrecompute
    ensures percent >= 100.0 * t / TMaxPrecompute
    ensures percent == 100.0 * (IMaxPrecompute - iter) / IMaxPrecompute
         || percent == 100.0 * t / TMaxPrecompute
  {
    RMax(100.0 * (IMaxPrecompute - iter) / IMaxPrecompute, 100.0 * t / TMaxPrecompute)
  }

  /** Within the precompute budget the reported progress is a percentage. */
  lemma ProgressInRange(iter: real, t: real)
    requires 0.0 <= iter <= IMaxPrecompute && 0.0 <= t <= TMaxPrecompute
    ensures 0.0 <= ReportProgress(iter, t) <= 100.0
    ensures iter == 0.0 ==> ReportProgress(iter, t) == 100.0
  {
  }

  // ----------------------------------------------------------------- zip size

  /** Marker radius of a load: 20 plus 200 * zipSz * |P|. */
  function ZipSize(pTot: real): (r: real)
    ensures r >= 20.0
    ensures r == 20.0 <==> pTot == 0.0
    ensures r == 20.0 + 200.0 * ZipSz * (if pTot < 0.0 then -pTot else pTot)
  {
    20.0 + 200.0 * ZipSz * (if pTot < 0.0 then -pTot else pTot)
  }

  lemma ZipSizeSymmetric(p: real)
    ensures ZipSize(-p) == ZipSize(p)
  {
  }

  // ------------------------------------------------------ coordinate frames

  datatype Point = Point(x: real, y: real)
  datatype LatLong = LatLong(lat: real, lon: real)

  /** Datum coordinates to graph (pixel) coordinates: shifted by pos0,
      scaled, and with y flipped. */
  function DatumToGraph(p: Point, pos0: Point, scaleFactor: real): Point
  {
    Point((p.x - pos0.x) * scaleFactor, -(p.y - pos0.y) * scaleFactor)
  }

  /** `graphToDatum` as written: the y coordinate is not flipped back. */
  function GraphToDatum(p: Point, pos0: Point, scaleFactor: real): Point
    requires scaleFactor != 0.0
  {
    Point(p.x / scaleFactor + pos0.x, p.y / scaleFactor + pos0.y)
  }

  /** As written, the round trip through graph coordinates restores x but
      reflects y about pos0.y. */
  lemma GraphRoundTripReflectsY(p: Point, pos0: Point, scaleFactor: real)
    requires scaleFactor != 0.0
    ensures GraphToDatum(DatumToGraph(p, pos0, scaleFactor), pos0, scaleFactor)
         == Point(p.x, 2.0 * pos0.y - p.y)
  {
    var g := DatumToGraph(p, pos0, scaleFactor);
    assert g.x / scaleFactor == p.x - pos0.x;
    assert g.y / scaleFactor == -(p.y - pos0.y);
  }

  /** A concrete point whose round trip does not come back. */
  lemma GraphRoundTripCounterexample()
    ensures GraphToDatum(DatumToGraph(Point(0.0, 1.0), Point(0.0, 0.0), 1.0), Point(0.0, 0.0), 1.0)
         != Point(0.0, 1.0)
  {
    GraphRoundTripReflectsY(Point(0.0, 1.0), Point(0.0, 0.0), 1.0);
  }

  /** The inverse of `DatumToGraph`, flipping y back. */
  function GraphToDatumFixed(p: Point, pos0: Point, scaleFactor: real): Point
    requires scaleFactor != 0.0
  {
    Point(p.x / scaleFactor + pos0.x, -p.y / scaleFactor + pos0.y)
  }

  lemma GraphRoundTrip(p: Point, q: Point, pos0: Point, scaleFactor: real)
    requires scaleFactor != 0.0
    ensures GraphToDatumFixed(DatumToGraph(p, pos0, scaleFactor), pos0, scaleFactor) == p
    ensures DatumToGraph(GraphToDatumFixed(q, pos0, scaleFactor), pos0, scaleFactor) == q
  {
    var g := DatumToGraph(p, pos0, scaleFactor);
    assert g.x / scaleFactor == p.x - pos0.x;
    assert -g.y / scaleFactor == p.y - pos0.y;
    var d := GraphToDatumFixed(q, pos0, scaleFactor);
    assert (d.x - pos0.x) * scaleFactor == q.x;
    assert -(d.y - pos0.y) * scaleFactor == q.y;
  }

  /** Datum to latitude/longitude about the reference point; cEarth is the
      Earth's circumference and cLat the circumference of the reference
      parallel. */
  function DatumToLatLong(p: Point, cEarth: real, cLat: real): LatLong
    requires cEarth != 0.0 && cLat != 0.0
  {
    LatLong(LatRef + 360.0 * (p.y - DatumRefY) / cEarth, LonRef + 360.0 * (p.x - DatumRefX) / cLat)
  }

  function LatLongToDatum(l: LatLong, cEarth: real, cLat: real): Point
  {
    Point(DatumRefX + (l.lon - LonRef) * cLat / 360.0, DatumRefY + (l.lat - LatRef) * cEarth / 360.0)
  }

  /** The two geographic transforms are exact inverses of each other. */
  lemma LatLongRoundTrip(p: Point, l: LatLong, cEarth: real, cLat: real)
    requires cEarth != 0.0 && cLat != 0.0
    ensures LatLongToDatum(DatumToLatLong(p, cEarth, cLat), cEarth, cLat) == p
    ensures DatumToLatLong(LatLongToDatum(l, cEarth, cLat), cEarth, cLat) == l
  {
    assert 360.0 * (p.y - DatumRefY) / cEarth * cEarth / 360.0 == p.y - DatumRefY;
    assert 360.0 * (p.x - DatumRefX) / cLat * cLat / 360.0 == p.x - DatumRefX;
    assert 360.0 * ((l.lat - LatRef) * cEarth / 360.0) / cEarth == l.lat - LatRef;
    assert 360.0 * ((l.lon - LonRef) * cLat / 360.0) / cLat == l.lon - LonRef;
  }

  // ------------------------------------------------------------------- median

  predicate Sorted(s: seq<real>)
  {
    forall i, j :: 0 <= i < j < |s| ==> s[i] <= s[j]
  }

  function Insert(x: real, s: seq<real>): seq<real>
  {
    if |s| == 0 then [x] else if x <= s[0] then [x] + s else [s[0]] + Insert(x, s[1..])
  }

  /** The ascending numeric order that `xs.sort((a, b) => a - b)` leaves. */
  function Sort(s: seq<real>): seq<real>
  {
    if |s| == 0 then [] else Insert(s[0], Sort(s[1..]))
  }

  lemma {:induction false} InsertCount(x: real, s: seq<real>)
    ensures multiset(Insert(x, s)) == multiset(s) + multiset{x}
    ensures |Insert(x, s)| == |s| + 1
  {
    if |s| > 0 && x > s[0] {
      InsertCount(x, s[1..]);
      assert s == [s[0]] + s[1..];
    }
  }

  lemma {:induction false} InsertSpec(x: real, s: seq<real>)
    requires Sorted(s)
    ensures Sorted(Insert(x, s))
    ensures multiset(Insert(x, s)) == multiset(s) + multiset{x}
    ensures |Insert(x, s)| == |s| + 1
  {
    InsertCount(x, s);
    if |s| > 0 && x > s[0] {
      var t := s[1..];
      InsertSpec(x, t);
      InsertCount(x, t);
      var r := Insert(x, t);
      assert Insert(x, s) == [s[0]] + r;
      forall k | 0 <= k < |r|
        ensures s[0] <= r[k]
      {
        assert r[k] in multiset(t) + multiset{x};
        if r[k] in multiset(t) {
          var m :| 0 <= m < |t| && t[m] == r[k];
          assert t[m] == s[m + 1];
        }
      }
    }
  }

  /** Sorting yields an ascending permutation of its input. */
  lemma {:induction false} SortSpec(s: seq<real>)
    ensures Sorted(Sort(s))
    ensures multiset(Sort(s)) == multiset(s)
    ensures |Sort(s)| == |s|
  {
    if |s| > 0 {
      SortSpec(s[1..]);
      InsertSpec(s[0], Sort(s[1..]));
      assert s == [s[0]] + s[1..];
    }
  }

  /** `median` as written: with middle = ceil((L-1)/2) it averages two
      entries when L is odd and takes one when L is even. */
  function MedianAsWritten(xs: seq<real>): real
  {
    if |xs| == 0 then 0.0
    else if |xs| == 1 then xs[0]
    else
      var s := Sort(xs);
      SortSpec(xs);
      var middle := ((|s| - 1) + 1) / 2;
      if (|s| - 1) % 2 == 0 then 0.5 * (s[middle - 1] + s[middle]) else s[middle]
  }

  /** The median of the values: the middle entry of the sorted values for
      odd L and the mean of the two middle entries for even L. */
  function Median(xs: seq<real>): real
  {
    if |xs| == 0 then 0.0
    else if |xs| == 1 then xs[0]
    else
      var s := Sort(xs);
      SortSpec(xs);
      var L := |s|;
      if L % 2 == 1 then s[L / 2] else 0.5 * (s[L / 2 - 1] + s[L / 2])
  }

  /** The median is 0 for no values and the value itself for one value; for
      odd L it is one of the values, and in general it lies between the
      smallest and the largest value. */
  lemma MedianSpec(xs: seq<real>)
    ensures |xs| == 0 ==> Median(xs) == 0.0
    ensures |xs| == 1 ==> Median(xs) == xs[0]
    ensures |xs| % 2 == 1 ==> Median(xs) in multiset(xs)
    ensures |xs| > 0 ==> exists i :: 0 <= i < |xs| && xs[i] <= Median(xs)
    ensures |xs| > 0 ==> exists j :: 0 <= j < |xs| && Median(xs) <= xs[j]
  {
    if |xs| >= 2 {
      SortSpec(xs);
      var s := Sort(xs);
      var L := |s|;
      var lo := s[L / 2 - 1];
      var hi := s[L / 2];
      assert s[0] <= Median(xs) <= s[L - 1];
      assert s[0] in multiset(xs) && s[L - 1] in multiset(xs);
      assert s[L / 2] in multiset(xs);
      var i :| 0 <= i < |xs| && xs[i] == s[0];
      var j :| 0 <= j < |xs| && xs[j] == s[L - 1];
    } else if |xs| == 1 {
      assert xs[0] in multiset(xs);
    }
  }

  /** On three and on four sorted values the two definitions disagree. */
  lemma MedianCounterexample()
    ensures MedianAsWritten([1.0, 2.0, 3.0]) == 1.5 && Median([1.0, 2.0, 3.0]) == 2.0
    ensures MedianAsWritten([1.0, 2.0, 3.0, 4.0]) == 3.0 && Median([1.0, 2.0, 3.0, 4.0]) == 2.5
  {
    assert Sort([3.0]) == [3.0];
    assert Sort([2.0, 3.0]) == [2.0, 3.0];
    assert [1.0, 2.0, 3.0][1..] == [2.0, 3.0];
    assert Sort([1.0, 2.0, 3.0]) == [1.0, 2.0, 3.0];
    assert Sort([4.0]) == [4.0];
    assert [3.0, 4.0][1..] == [4.0];
    assert Sort([3.0, 4.0]) == [3.0, 4.0];
    assert [2.0, 3.0, 4.0][1..] == [3.0, 4.0];
    assert Sort([2.0, 3.0, 4.0]) == [2.0, 3.0, 4.0];
    assert [1.0, 2.0, 3.0, 4.0][1..] == [2.0, 3.0, 4.0];
    assert Sort([1.0, 2.0, 3.0, 4.0]) == [1.0, 2.0, 3.0, 4.0];
  }

  // -------------------------------------------------------------- key order

  /** The object's own keys that are not among the given keys, in order. */
  function Unlisted(ownKeys: seq<string>, keys: seq<string>): seq<string>
  {
    if |ownKeys| == 0 then []
    else if ownKeys[|ownKeys| - 1] in keys then Unlisted(ownKeys[..|ownKeys| - 1], keys)
    else Unlisted(ownKeys[..|ownKeys| - 1], keys) + [ownKeys[|ownKeys| - 1]]
  }

  /** `Unlisted` keeps exactly the keys outside the list. */
  lemma {:induction false} UnlistedSpec(ownKeys: seq<string>, keys: seq<string>)
    ensures forall k :: k in Unlisted(ownKeys, keys) <==> k in ownKeys && k !in keys
    ensures |Unlisted(ownKeys, keys)| <= |ownKeys|
  {
    if |ownKeys| > 0 {
      var pre := ownKeys[..|ownKeys| - 1];
      UnlistedSpec(pre, keys);
      assert ownKeys == pre + [ownKeys[|ownKeys| - 1]];
    }
  }

  /** `sortedKeys`: the given keys first, in their order, then the object's
      own keys (in enumeration order `ownKeys`) that are not in the list. */
  method SortedKeys(ownKeys: seq<string>, keys: seq<string>) returns (result: seq<string>)
    ensures result == keys + Unlisted(ownKeys, keys)
    ensures result[..|keys|] == keys
    ensures forall k :: k in result <==> k in keys || k in ownKeys
    ensures forall i :: |keys| <= i < |result| ==> result[i] !in keys
  {
    var unsortedKeys: seq<string> := [];
    var i := 0;
    while i < |ownKeys|
      invariant 0 <= i <= |ownKeys|
      invariant unsortedKeys == Unlisted(ownKeys[..i], keys)
    {
      assert ownKeys[..i + 1][..i] == ownKeys[..i];
      if ownKeys[i] !in keys {
        unsortedKeys := unsortedKeys + [ownKeys[i]];
      }
      i := i + 1;
    }
    assert ownKeys[..|ownKeys|] == ownKeys;
    result := [];
    i := 0;
    while i < |keys|
      invariant 0 <= i <= |keys|
      invariant result == keys[..i]
    {
      result := result + [keys[i]];
      i := i + 1;
    }
    i := 0;
    while i < |unsortedKeys|
      invariant 0 <= i <= |unsortedKeys|
      invariant result == keys + unsortedKeys[..i]
    {
      result := result + [unsortedKeys[i]];
      i := i + 1;
    }
    assert unsortedKeys[..|unsortedKeys|] == unsortedKeys;
    UnlistedSpec(ownKeys, keys);
    assert forall i :: |keys| <= i < |result| ==> result[i] == unsortedKeys[i - |keys|];
  }

  // --------------------------------------------------------- voltage window

  /** The heatmap voltage window and the two range sliders (in thousandths
      of a per-unit voltage) it is read from. */
  class VoltageWindow {
    var vLow: real
    var vHigh: real
    var vRange: real
    var sliderLow: real
    var sliderHigh: real

    ghost predicate Valid()
      reads this
    {
      vLow <= vHigh && vRange == vHigh - vLow
    }

    /** The client's start-up: VLow 0 and VHigh 2, then `syncVLow` and
        `syncVHigh` read the sliders. */
    constructor (sliderLow0: real, sliderHigh0: real)
      ensures Valid()
      ensures vHigh == sliderHigh / 1000.0 && vLow == sliderLow / 1000.0
      ensures sliderHigh0 >= sliderLow0 ==> sliderLow == sliderLow0 && sliderHigh == sliderHigh0
    {
      vLow, vHigh := 0.0, 2.0;
      sliderLow, sliderHigh := sliderLow0, sliderHigh0;
      new;
      SyncVLow();
      SyncVHigh();
    }

    /** `syncVLow`: reads both sliders; a low bound above the high bound is
        pulled down to it and written back to the low slider. */
    method SyncVLow()
      modifies this
      ensures Valid()
      ensures vHigh == old(sliderHigh) / 1000.0
      ensures vLow == RMin(old(sliderLow) / 1000.0, vHigh)
      ensures sliderHigh == old(sliderHigh)
      ensures sliderLow == (if old(sliderLow) / 1000.0 > vHigh then 1000.0 * vHigh else old(sliderLow))
    {
      vLow := sliderLow / 1000.0;
      vHigh := sliderHigh / 1000.0;
      if vLow > vHigh {
        vLow := vHigh;
        sliderLow := 1000.0 * vLow;
      }
      vRange := vHigh - vLow;
    }

    /** `syncVHigh`: reads both sliders; a high bound below the low bound is
        pulled up to it and written back to the high slider. */
    method SyncVHigh()
      modifies this
      ensures Valid()
      ensures vLow == old(sliderLow) / 1000.0
      ensures vHigh == RMax(old(sliderHigh) / 1000.0, vLow)
      ensures sliderLow == old(sliderLow)
      ensures sliderHigh == (if old(sliderHigh) / 1000.0 < vLow then 1000.0 * vLow else old(sliderHigh))
    {
      vLow := sliderLow / 1000.0;
      vHigh := sliderHigh / 1000.0;
      if vHigh < vLow {
        vHigh := vLow;
        sliderHigh := 1000.0 * vHigh;
      }
      vRange := vHigh - vLow;
    }

    /** The heatmap parameter of a bus in the current window. */
    function VParam(vRmsPu: real): Option<real>
      reads this
    {
      HeatParam(vRmsPu, vLow, vHigh, vRange)
    }
  }
}
