/** The two boolean masks of the dashboard: the Myanmar bounding box and the
    minimum-magnitude slider. */
module Filters {
  import opened Wrappers
  import opened Quakes

  /** The bounding box of the region mask; `between` includes both ends. */
  const MinLat: real := 5.0
  const MaxLat: real := 35.0
  const MinLon: real := 85.0
  const MaxLon: real := 110.0

  /** `r` is `t` with some rows dropped and the rest in their order. */
  predicate IsSubsequence(r: seq<Event>, t: seq<Event>)
    decreases |t|
  {
    if r == [] then true
    else if t == [] then false
    else (r[0] == t[0] && IsSubsequence(r[1..], t[1..])) || IsSubsequence(r, t[1..])
  }

  /** Boolean-mask indexing `t[mask]`: the rows whose mask entry is true,
      in table order. */
  function Select(t: seq<Event>, keep: Event -> bool): (r: seq<Event>)
    ensures |r| <= |t|
    ensures forall e :: e in r <==> e in t && keep(e)
    ensures forall e :: multiset(r)[e] == if keep(e) then multiset(t)[e] else 0
    ensures IsSubsequence(r, t)
    decreases |t|
  {
    if t == [] then []
    else
      assert t == [t[0]] + t[1..];
      if keep(t[0]) then [t[0]] + Select(t[1..], keep) else Select(t[1..], keep)
  }

  /** Masking twice with the same mask is masking once. */
  lemma {:induction false} SelectIdempotent(t: seq<Event>, keep: Event -> bool)
    ensures Select(Select(t, keep), keep) == Select(t, keep)
    decreases |t|
  {
    if t != [] {
      SelectIdempotent(t[1..], keep);
      if keep(t[0]) {
        var s := Select(t, keep);
        assert s[0] == t[0] && s[1..] == Select(t[1..], keep);
      }
    }
  }

  /** Masking by `first`, then by `second`, is masking once by a mask that
      holds exactly where both do. */
  lemma {:induction false} SelectConjunction(t: seq<Event>, first: Event -> bool, second: Event -> bool,
                                              both: Event -> bool)
    requires forall e :: both(e) == (first(e) && second(e))
    ensures Select(Select(t, first), second) == Select(t, both)
    decreases |t|
  {
    if t != [] {
      SelectConjunction(t[1..], first, second, both);
      if first(t[0]) {
        var s := Select(t, first);
        assert s[0] == t[0] && s[1..] == Select(t[1..], first);
      }
    }
  }

  /** The positions of `t` at which a mask is true. */
  function KeptPositions(t: seq<Event>, keep: Event -> bool): set<int>
  {
    set i | 0 <= i < |t| && keep(t[i])
  }

  function Shifted(s: set<int>): set<int>
  {
    set i | i in s :: i + 1
  }

  /** The number of rows a mask keeps is the number of positions at which
      it is true. */
  lemma {:induction false} SelectCountsPositions(t: seq<Event>, keep: Event -> bool)
    ensures |Select(t, keep)| == |KeptPositions(t, keep)|
    decreases |t|
  {
    if t != [] {
      var tail := t[1..];
      SelectCountsPositions(tail, keep);
      var later := KeptPositions(tail, keep);
      ShiftPreservesSize(later);
      var head: set<int> := if keep(t[0]) then {0} else {};
      KeptPositionsSplit(t, keep);
      assert head * Shifted(later) == {};
      assert |Select(t, keep)| == |head| + |Select(tail, keep)|;
    }
  }

  /** The kept positions of a non-empty table: position 0, if kept, and the
      kept positions of its tail moved up by one. */
  lemma KeptPositionsSplit(t: seq<Event>, keep: Event -> bool)
    requires t != []
    ensures KeptPositions(t, keep) ==
              (if keep(t[0]) then {0} else {}) + Shifted(KeptPositions(t[1..], keep))
  {
    var tail := t[1..];
    var later := KeptPositions(tail, keep);
    var head: set<int> := if keep(t[0]) then {0} else {};
    forall i | i in KeptPositions(t, keep) ensures i in head + Shifted(later) {
      if i > 0 {
        assert tail[i - 1] == t[i];
        assert i - 1 in later;
      }
    }
    forall i | i in Shifted(later) ensures i in KeptPositions(t, keep) {
      var j :| j in later && i == j + 1;
      assert tail[j] == t[i];
    }
  }

  /** Adding one to every member of a set keeps its size. */
  lemma {:induction false} ShiftPreservesSize(s: set<int>)
    ensures |Shifted(s)| == |s|
    decreases |s|
  {
    if s != {} {
      if forall y :: y !in s { assert false; }
      var x :| x in s;
      ShiftPreservesSize(s - {x});
      ShiftedSplit(s, x);
    }
  }

  /** Removing one member before shifting removes its successor after. */
  lemma ShiftedSplit(s: set<int>, x: int)
    requires x in s
    ensures Shifted(s) == Shifted(s - {x}) + {x + 1}
    ensures x + 1 !in Shifted(s - {x})
  {
    forall y | y in Shifted(s) ensures y in Shifted(s - {x}) + {x + 1} {
      var j :| j in s && y == j + 1;
      if j != x { assert j in s - {x}; }
    }
  }

  /** The region mask: latitude in [5, 35] and longitude in [85, 110]. */
  predicate InRegion(e: Event)
  {
    MinLat <= e.lat <= MaxLat && MinLon <= e.lon <= MaxLon
  }

  /** The magnitude mask `magnitude >= min_mag`: a missing magnitude is NaN
      in the table and NaN compares false. */
  predicate MeetsThreshold(e: Event, minMag: real)
  {
    e.mag.Some? && e.mag.value >= minMag
  }

  function MagnitudeMask(minMag: real): Event -> bool
  {
    e => MeetsThreshold(e, minMag)
  }

  /** Both masks at once: the working subset the dashboard shows. */
  predicate Passes(e: Event, minMag: real)
  {
    InRegion(e) && MeetsThreshold(e, minMag)
  }

  function WorkingMask(minMag: real): Event -> bool
  {
    e => Passes(e, minMag)
  }

  /** `df[df["latitude"].between(5, 35) & df["longitude"].between(85, 110)]`. */
  function FilterRegion(t: seq<Event>): (r: seq<Event>)
    ensures forall e :: e in r <==> e in t && 5.0 <= e.lat <= 35.0 && 85.0 <= e.lon <= 110.0
    ensures forall e :: multiset(r)[e] ==
                          if 5.0 <= e.lat <= 35.0 && 85.0 <= e.lon <= 110.0 then multiset(t)[e] else 0
    ensures IsSubsequence(r, t)
  {
    Select(t, InRegion)
  }

  /** `df_mm[df_mm["magnitude"] >= min_mag]`. */
  function FilterMagnitude(t: seq<Event>, minMag: real): (r: seq<Event>)
    ensures forall e :: e in r <==> e in t && e.mag.Some? && e.mag.value >= minMag
    ensures forall e :: multiset(r)[e] ==
                          if e.mag.Some? && e.mag.value >= minMag then multiset(t)[e] else 0
    ensures IsSubsequence(r, t)
  {
    Select(t, MagnitudeMask(minMag))
  }

  /** The table after both masks, as one selection. */
  function WorkingSubset(t: seq<Event>, minMag: real): (r: seq<Event>)
    ensures forall e :: e in r <==> e in t && InRegion(e) && MeetsThreshold(e, minMag)
    ensures forall e :: multiset(r)[e] ==
                          if InRegion(e) && MeetsThreshold(e, minMag) then multiset(t)[e] else 0
    ensures IsSubsequence(r, t)
  {
    Select(t, WorkingMask(minMag))
  }

  /** Re-applying the region mask to its own output changes nothing. */
  lemma FilterRegionIdempotent(t: seq<Event>)
    ensures FilterRegion(FilterRegion(t)) == FilterRegion(t)
  {
    SelectIdempotent(t, InRegion);
  }

  /** Re-applying the magnitude mask to its own output changes nothing. */
  lemma FilterMagnitudeIdempotent(t: seq<Event>, minMag: real)
    ensures FilterMagnitude(FilterMagnitude(t, minMag), minMag) == FilterMagnitude(t, minMag)
  {
    SelectIdempotent(t, MagnitudeMask(minMag));
  }

  /** The two masks compose by conjunction, in either order. */
  lemma FiltersCompose(t: seq<Event>, minMag: real)
    ensures FilterMagnitude(FilterRegion(t), minMag) == WorkingSubset(t, minMag)
    ensures FilterRegion(FilterMagnitude(t, minMag)) == WorkingSubset(t, minMag)
  {
    SelectConjunction(t, InRegion, MagnitudeMask(minMag), WorkingMask(minMag));
    SelectConjunction(t, MagnitudeMask(minMag), InRegion, WorkingMask(minMag));
  }

  /** Every copy of a kept row survives the masks, and nothing else does. */
  lemma WorkingSubsetKeepsEveryCopy(t: seq<Event>, minMag: real)
    ensures forall e :: multiset(FilterMagnitude(FilterRegion(t), minMag))[e] ==
                          if Passes(e, minMag) then multiset(t)[e] else 0
    ensures IsSubsequence(FilterMagnitude(FilterRegion(t), minMag), t)
  {
    FiltersCompose(t, minMag);
    assert WorkingSubset(t, minMag) == Select(t, WorkingMask(minMag));
  }

  /** Three events at the same place and time with magnitudes 5.0, 3.0 and
      none, inside the box; a threshold of 4.0 keeps only the first. Edges
      of the box are kept, points just outside are not. */
  lemma MasksOnSmallTable()
    ensures var strong := Event("A", 0, Some(5.0), 10.0, 96.0, 20.0);
            var weak := Event("A", 0, Some(3.0), 10.0, 96.0, 20.0);
            var unrated := Event("A", 0, None, 10.0, 96.0, 20.0);
            FilterMagnitude(FilterRegion([strong, weak, unrated]), 4.0) == [strong]
    ensures InRegion(Event("B", 0, None, 0.0, 85.0, 35.0))
    ensures InRegion(Event("B", 0, None, 0.0, 110.0, 5.0))
    ensures !InRegion(Event("B", 0, None, 0.0, 110.5, 20.0))
    ensures !InRegion(Event("B", 0, None, 0.0, 96.0, 4.5))
  {
    var strong := Event("A", 0, Some(5.0), 10.0, 96.0, 20.0);
    var weak := Event("A", 0, Some(3.0), 10.0, 96.0, 20.0);
    var unrated := Event("A", 0, None, 10.0, 96.0, 20.0);
    var mask := MagnitudeMask(4.0);
    assert [unrated][1..] == [];
    assert Select([unrated], InRegion) == [unrated];
    assert [weak, unrated][1..] == [unrated];
    assert Select([weak, unrated], InRegion) == [weak, unrated];
    assert [strong, weak, unrated][1..] == [weak, unrated];
    assert Select([strong, weak, unrated], InRegion) == [strong, weak, unrated];
    assert Select([unrated], mask) == [];
    assert Select([weak, unrated], mask) == [];
    assert Select([strong, weak, unrated], mask) == [strong];
  }
}
