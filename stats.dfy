/** The "Live Stats" figures of the dashboard, over the working subset. */
module Stats {
  import opened Wrappers
  import opened Quakes
  import opened Filters

  /** `len(df_mm)`. */
  function TotalQuakes(t: seq<Event>): nat
  {
    |t|
  }

  /** `Series.max()` on the magnitude column: missing magnitudes are
      skipped, and a column with none present gives NaN (`None`). */
  function MaxMagnitude(t: seq<Event>): (r: Option<real>)
    ensures r.Some? <==> exists i :: 0 <= i < |t| && t[i].mag.Some?
    ensures r.Some? ==> exists i :: 0 <= i < |t| && t[i].mag == r
    ensures r.Some? ==> forall i :: 0 <= i < |t| && t[i].mag.Some? ==> t[i].mag.value <= r.value
    decreases |t|
  {
    if t == [] then None
    else
      var rest := MaxMagnitude(t[1..]);
      assert forall i :: 1 <= i < |t| ==> t[i] == t[1..][i - 1];
      match t[0].mag
      case None => rest
      case Some(m) => if rest.Some? && rest.value > m then rest else Some(m)
  }

  /** `strongest`: 0 for an empty table, else the column maximum. */
  function Strongest(t: seq<Event>): (r: Option<real>)
    ensures t == [] ==> r == Some(0.0)
    ensures t != [] ==> (r.Some? <==> exists i :: 0 <= i < |t| && t[i].mag.Some?)
    ensures t != [] && r.Some? ==>
              (exists i :: 0 <= i < |t| && t[i].mag == r) &&
              forall i :: 0 <= i < |t| && t[i].mag.Some? ==> t[i].mag.value <= r.value
  {
    if t == [] then Some(0.0) else MaxMagnitude(t)
  }

  /** On the working subset `strongest` is never NaN: it is 0 when no event
      passes, and otherwise the magnitude of some row, at least every row's
      magnitude, and so at least the threshold. */
  lemma StrongestOfWorkingSubset(t: seq<Event>, minMag: real)
    ensures var w := FilterMagnitude(FilterRegion(t), minMag);
            if w == [] then Strongest(w) == Some(0.0)
            else
              && Strongest(w).Some?
              && Strongest(w).value >= minMag
              && (exists i :: 0 <= i < |w| && w[i].mag == Strongest(w))
              && forall i :: 0 <= i < |w| ==> w[i].mag.Some? && w[i].mag.value <= Strongest(w).value
  {
    var w := FilterMagnitude(FilterRegion(t), minMag);
    if w != [] {
      assert w[0] in w;
      var r := Strongest(w);
      assert r.Some?;
      var k :| 0 <= k < |w| && w[k].mag == r;
      assert w[k] in w;
    }
  }

  /** `total_quakes` counts the positions of the normalized table whose
      event lies in the region and meets the threshold. */
  lemma TotalQuakesCountsPassingEvents(t: seq<Event>, minMag: real)
    ensures TotalQuakes(FilterMagnitude(FilterRegion(t), minMag)) ==
              |set i | 0 <= i < |t| && InRegion(t[i]) && MeetsThreshold(t[i], minMag)|
  {
    FiltersCompose(t, minMag);
    SelectCountsPositions(t, WorkingMask(minMag));
    assert KeptPositions(t, WorkingMask(minMag)) ==
             set i | 0 <= i < |t| && InRegion(t[i]) && MeetsThreshold(t[i], minMag);
  }

  /** The sum of the depth column. */
  function SumDepth(t: seq<Event>): real
    decreases |t|
  {
    if t == [] then 0.0 else t[0].depth + SumDepth(t[1..])
  }

  /** `df_mm["depth"].mean()`, 0 for an empty table; no rounding. */
  function MeanDepth(t: seq<Event>): (r: real)
    ensures t == [] ==> r == 0.0
    ensures t != [] ==> r * (|t| as real) == SumDepth(t)
  {
    if t == [] then 0.0 else SumDepth(t) / (|t| as real)
  }

  /** A sum of depths lies between the count times any lower bound and the
      count times any upper bound. */
  lemma {:induction false} SumDepthBounds(t: seq<Event>, lo: real, hi: real)
    requires forall i :: 0 <= i < |t| ==> lo <= t[i].depth <= hi
    ensures (|t| as real) * lo <= SumDepth(t) <= (|t| as real) * hi
    decreases |t|
  {
    if t != [] {
      assert forall i :: 0 <= i < |t| - 1 ==> t[1..][i] == t[i + 1];
      SumDepthBounds(t[1..], lo, hi);
      assert (|t| as real) * lo == lo + ((|t| - 1) as real) * lo;
      assert (|t| as real) * hi == hi + ((|t| - 1) as real) * hi;
    }
  }

  /** The mean depth of a non-empty table lies between its shallowest and
      its deepest event. */
  lemma MeanDepthBounds(t: seq<Event>, lo: real, hi: real)
    requires t != []
    requires forall i :: 0 <= i < |t| ==> lo <= t[i].depth <= hi
    ensures lo <= MeanDepth(t) <= hi
  {
    SumDepthBounds(t, lo, hi);
    var n := |t| as real;
    var s := SumDepth(t);
    assert MeanDepth(t) == s / n;
    assert MeanDepth(t) * n == s;
  }
}
