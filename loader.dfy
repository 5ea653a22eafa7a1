/** The row-building loop of `load_earthquake_data`: one row per feature of
    the decoded feed, in feed order. */
module Loader {
  import opened Wrappers
  import opened Quakes

  /** Whether `coordinates[0]`, `[1]` and `[2]` can all be read. */
  predicate HasCoordinateTriple(f: Feature)
  {
    |f.coords| >= 3
  }

  /** The row built for one feature: the coordinates are unpacked
      longitude, latitude, depth. */
  function Row(f: Feature): Event
    requires HasCoordinateTriple(f)
  {
    Event(f.place, f.timeMs, f.mag, f.coords[2], f.coords[0], f.coords[1])
  }

  /** The table built from `features`, or the IndexError raised at the first
      feature whose coordinate list is too short. Defined on the last
      feature, in the order the loop meets them. */
  function Normalize(features: seq<Feature>): (r: Result<seq<Event>, PipelineError>)
    ensures r.Success? ==> |r.value| == |features|
    ensures r.Failure? ==> r.error.CoordinateIndexOutOfRange? && r.error.feature < |features|
    decreases |features|
  {
    if features == [] then Success([])
    else
      var n := |features| - 1;
      match Normalize(features[..n])
      case Failure(e) => Failure(e)
      case Success(rows) =>
        if HasCoordinateTriple(features[n]) then Success(rows + [Row(features[n])])
        else Failure(CoordinateIndexOutOfRange(n, |features[n].coords|))
  }

  /** An error raised within a prefix is the error of the whole feed. */
  lemma {:induction false} FailureInPrefixPersists(features: seq<Feature>, k: nat)
    requires k <= |features|
    requires Normalize(features[..k]).Failure?
    ensures Normalize(features) == Normalize(features[..k])
    decreases |features| - k
  {
    if k < |features| {
      var p := features[..k + 1];
      assert p[..k] == features[..k];
      FailureInPrefixPersists(features, k + 1);
    } else {
      assert features[..k] == features;
    }
  }

  /** Normalization succeeds exactly when every feature has a coordinate
      triple, and then emits one row per feature, in feature order, copying
      place, time and magnitude and unpacking longitude, latitude and depth
      from coordinates 0, 1 and 2. */
  lemma {:induction false} NormalizeOneRowPerFeature(features: seq<Feature>)
    ensures Normalize(features).Success? <==>
              forall i :: 0 <= i < |features| ==> |features[i].coords| >= 3
    ensures Normalize(features).Success? ==>
              var rows := Normalize(features).value;
              |rows| == |features| &&
              forall i :: 0 <= i < |features| ==>
                rows[i].place == features[i].place &&
                rows[i].timeMs == features[i].timeMs &&
                rows[i].mag == features[i].mag &&
                rows[i].lon == features[i].coords[0] &&
                rows[i].lat == features[i].coords[1] &&
                rows[i].depth == features[i].coords[2]
    decreases |features|
  {
    if features != [] {
      var n := |features| - 1;
      var init := features[..n];
      NormalizeOneRowPerFeature(init);
      assert forall i :: 0 <= i < n ==> features[i] == init[i];
    }
  }

  /** On failure, the error names the first feature whose coordinate list
      is shorter than three, and its length. */
  lemma {:induction false} NormalizeFailsAtFirstShortFeature(features: seq<Feature>)
    requires Normalize(features).Failure?
    ensures Normalize(features).error.CoordinateIndexOutOfRange?
    ensures var e := Normalize(features).error;
            e.feature < |features| &&
            e.length == |features[e.feature].coords| < 3 &&
            forall j :: 0 <= j < e.feature ==> |features[j].coords| >= 3
    decreases |features|
  {
    var n := |features| - 1;
    var init := features[..n];
    assert forall i :: 0 <= i < n ==> features[i] == init[i];
    if Normalize(init).Failure? {
      NormalizeFailsAtFirstShortFeature(init);
    } else {
      NormalizeOneRowPerFeature(init);
    }
  }

  /** The loop of `load_earthquake_data`: append one row per feature; the
      first feature with fewer than three coordinates raises. */
  method LoadEarthquakeData(features: seq<Feature>) returns (r: Result<seq<Event>, PipelineError>)
    ensures r == Normalize(features)
  {
    var rows: seq<Event> := [];
    var i := 0;
    while i < |features|
      invariant 0 <= i <= |features|
      invariant Normalize(features[..i]) == Success(rows)
    {
      var f := features[i];
      assert features[..i + 1][..i] == features[..i];
      if |f.coords| < 3 {
        FailureInPrefixPersists(features, i + 1);
        return Failure(CoordinateIndexOutOfRange(i, |f.coords|));
      }
      rows := rows + [Row(f)];
      i := i + 1;
    }
    assert features[..i] == features;
    return Success(rows);
  }
}
