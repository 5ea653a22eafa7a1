/** One run of the dashboard script, from the decoded feed to the figures
    and the table it displays. */
module Dashboard {
  import opened Wrappers
  import opened Quakes
  import opened Loader
  import opened Filters
  import opened Stats
  import opened RecentTable

  /** What the page shows: the three "Live Stats" metrics and the rows of
      the "Recent Earthquakes" table. `strongest` is `None` where pandas
      would show NaN. */
  datatype View = View(totalQuakes: nat, strongest: Option<real>, avgDepth: real, recent: seq<Event>)

  /** Normalize the feed, apply the region and magnitude masks, compute the
      metrics and sort the table newest first. A feature with fewer than
      three coordinates stops the run; so does an empty feed, whose table
      has no `latitude` column for the region mask to read. */
  method Refresh(features: seq<Feature>, minMag: real) returns (r: Result<View, PipelineError>)
    ensures Normalize(features).Failure? ==> r == Failure(Normalize(features).error)
    ensures Normalize(features).Success? && features == [] ==> r == Failure(MissingColumn("latitude"))
    ensures Normalize(features).Success? && features != [] ==>
              var w := WorkingSubset(Normalize(features).value, minMag);
              && r.Success?
              && r.value.totalQuakes == |w|
              && r.value.strongest == Strongest(w)
              && r.value.avgDepth == MeanDepth(w)
              && NewestFirst(r.value.recent)
              && multiset(r.value.recent) == multiset(w)
  {
    var loaded := LoadEarthquakeData(features);
    if loaded.Failure? {
      return Failure(loaded.error);
    }
    var df := loaded.value;
    if |df| == 0 {
      return Failure(MissingColumn("latitude"));
    }
    var inRegion := FilterRegion(df);
    var working := FilterMagnitude(inRegion, minMag);
    FiltersCompose(df, minMag);
    var table := RecentFirst(working);
    return Success(View(TotalQuakes(working), Strongest(working), MeanDepth(working), table));
  }
}
