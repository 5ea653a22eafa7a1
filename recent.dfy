/** The "Recent Earthquakes" table: the working subset sorted by time,
    newest first. */
module RecentTable {
  import opened Quakes

  /** Non-increasing in time from the first row to the last. */
  predicate NewestFirst(s: seq<Event>)
  {
    forall i, j :: 0 <= i < j < |s| ==> s[i].timeMs >= s[j].timeMs
  }

  /** The position of a newest event in `a[from..]`. */
  method NewestFrom(a: array<Event>, from: nat) returns (k: nat)
    requires from < a.Length
    ensures from <= k < a.Length
    ensures forall l :: from <= l < a.Length ==> a[k].timeMs >= a[l].timeMs
  {
    k := from;
    var j := from + 1;
    while j < a.Length
      invariant from <= k < j <= a.Length
      invariant forall l :: from <= l < j ==> a[k].timeMs >= a[l].timeMs
    {
      if a[j].timeMs > a[k].timeMs {
        k := j;
      }
      j := j + 1;
    }
  }

  /** Sorts `a` in place by time, descending. Rows with equal times may end
      up in any order: the sort is not stable. */
  method SortByTimeDescending(a: array<Event>)
    modifies a
    ensures NewestFirst(a[..])
    ensures multiset(a[..]) == old(multiset(a[..]))
  {
    var i := 0;
    while i < a.Length
      invariant 0 <= i <= a.Length
      invariant forall k, l :: 0 <= k < l < i ==> a[k].timeMs >= a[l].timeMs
      invariant forall k, l :: 0 <= k < i <= l < a.Length ==> a[k].timeMs >= a[l].timeMs
      invariant multiset(a[..]) == old(multiset(a[..]))
    {
      var k := NewestFrom(a, i);
      a[i], a[k] := a[k], a[i];
      i := i + 1;
    }
  }

  /** `df_mm.sort_values("time", ascending=False)`: a new table holding
      the same rows, newest first. */
  method RecentFirst(t: seq<Event>) returns (r: seq<Event>)
    ensures NewestFirst(r)
    ensures multiset(r) == multiset(t)
    ensures |r| == |t|
  {
    var a := new Event[|t|](i requires 0 <= i < |t| => t[i]);
    assert a[..] == t;
    SortByTimeDescending(a);
    r := a[..];
    assert |r| == |multiset(r)| == |multiset(t)| == |t|;
  }
}
