/**
 The change tracker (`ModifiedTimes` in lintblame.go): the last modification
 time seen for each watched path, change detection against a fresh `os.Stat`,
 and the ordering of paths by modification time.

 A `time.Time` is an instant on an integer clock; its zero value is `ZeroTime`.
 `Equal` is `==` and `Before` is `<`. Go ranges over a map in an unspecified
 order; where the source does, the model takes that order as a parameter.
 */
module ChangeTracker {
  import opened Wrappers
  import opened Seqs

  type Time = int

  /** The zero `time.Time`, which `MostRecent` starts from. */
  const ZeroTime: Time := 0

  /** `ModifiedTimes.timeMap`: path to last seen modification time. */
  type TimeMap = map<string, Time>

  /** `order` is one iteration order of `m`: every key exactly once. */
  predicate IsListing(order: seq<string>, m: TimeMap)
  {
    && Distinct(order)
    && (forall i :: 0 <= i < |order| ==> order[i] in m)
    && (forall k :: k in m ==> k in order)
  }

  /** No two tracked paths share a modification time. */
  predicate DistinctTimes(m: TimeMap)
  {
    forall a, b :: a in m && b in m && a != b ==> m[a] != m[b]
  }

  lemma ListingSize(order: seq<string>, m: TimeMap)
    requires IsListing(order, m)
    ensures |order| == |m|
  {
    DistinctCard(order);
    assert (set x | x in order) == m.Keys;
  }

  /** Two iteration orders of one map are rearrangements of each other. */
  lemma ListingsArePermutations(o1: seq<string>, o2: seq<string>, m: TimeMap)
    requires IsListing(o1, m) && IsListing(o2, m)
    ensures multiset(o1) == multiset(o2)
  {
    DistinctSameMembers(o1, o2);
  }

  /** `NewModifiedTimes`: a tracker that has seen no path yet. */
  function NewModifiedTimes(): (m: TimeMap)
    ensures forall p :: p !in m
  {
    map[]
  }

  /**
   What counts as a change: the stat succeeded, and the path is unseen or its
   stored time is not `Equal` to the observed one (an earlier time counts too).
   */
  predicate Changes(m: TimeMap, path: string, stat: Option<Time>)
  {
    stat.Some? && (path !in m || m[path] != stat.value)
  }

  datatype Check = Check(times: TimeMap, changed: bool)

  /**
   `CheckTime(path)`, with the result of `os.Stat(path)` as `stat` (`None` when
   it fails). Returns the updated map and whether the path changed.
   */
  function CheckTime(m: TimeMap, path: string, stat: Option<Time>): (r: Check)
    ensures r.changed <==> Changes(m, path, stat)
    ensures r.changed ==> r.times == m[path := stat.value]
    ensures !r.changed ==> r.times == m
    ensures stat.Some? ==> path in r.times && r.times[path] == stat.value
  {
    if stat.None? then Check(m, false)
    else
      var mt := stat.value;
      var hasChanged := if path in m then m[path] != mt else true;
      if hasChanged then Check(m[path := mt], true) else Check(m, false)
  }

  /** An immediate second check with the same observation reports no change and stores nothing. */
  lemma CheckTimeTwice(m: TimeMap, path: string, stat: Option<Time>)
    ensures CheckTime(CheckTime(m, path, stat).times, path, stat) == Check(CheckTime(m, path, stat).times, false)
  {
  }

  /** A failed stat neither reports a change nor forgets the path. */
  lemma CheckTimeStatFails(m: TimeMap, path: string)
    ensures CheckTime(m, path, None) == Check(m, false)
  {
  }

  /** A file whose time moves backwards is reported as changed. */
  lemma CheckTimeBackwards(m: TimeMap, path: string, t: Time)
    requires path in m && t < m[path]
    ensures CheckTime(m, path, Some(t)).changed
  {
  }

  /**
   `MostRecent`: the path with the latest time, the first one met in
   iteration order on a tie. Since the search starts from the zero time and
   only a strictly later time replaces it, the result is "" when no stored
   time is after `ZeroTime`.
   */
  method MostRecent(m: TimeMap, order: seq<string>) returns (path: string)
    requires IsListing(order, m)
    ensures (forall k :: k in m ==> m[k] <= ZeroTime) ==> path == ""
    ensures (exists k :: k in m && m[k] > ZeroTime) ==>
      && path in m
      && (forall k :: k in m ==> m[k] <= m[path])
      && (exists i :: 0 <= i < |order| && order[i] == path && forall j :: 0 <= j < i ==> m[order[j]] < m[path])
  {
    path := "";
    var mostRecentTime := ZeroTime;
    var i := 0;
    ghost var at := 0;
    while i < |order|
      invariant i <= |order|
      invariant mostRecentTime >= ZeroTime
      invariant forall j :: 0 <= j < i ==> m[order[j]] <= mostRecentTime
      invariant mostRecentTime == ZeroTime ==> path == ""
      invariant mostRecentTime > ZeroTime ==>
        at < i && order[at] == path && m[path] == mostRecentTime && forall j :: 0 <= j < at ==>
            m[order[j]] < mostRecentTime
    {
      var t := m[order[i]];
      if mostRecentTime < t {
        path := order[i];
        mostRecentTime := t;
        at := i;
      }
      i := i + 1;
    }
    if exists k :: k in m && m[k] > ZeroTime {
      var k :| k in m && m[k] > ZeroTime;
      var j :| 0 <= j < |order| && order[j] == k;
      assert m[order[j]] <= mostRecentTime;
    }
  }

  /**
   The `timesToPaths` map that `PathsByModTime` builds while ranging over the
   tracked paths: every tracked time is a key, mapped to a path that has it.
   When times tie, the path iterated last wins (`TiedTimesCollapse`).
   */
  function TimesToPaths(m: TimeMap, order: seq<string>): (ttp: map<Time, string>)
    requires forall i :: 0 <= i < |order| ==> order[i] in m
    ensures forall i :: 0 <= i < |order| ==> m[order[i]] in ttp
    ensures forall t :: t in ttp ==> ttp[t] in m && m[ttp[t]] == t
  {
    if |order| == 0 then map[]
    else
      var last := order[|order| - 1];
      TimesToPaths(m, order[..|order| - 1])[m[last] := last]
  }

  /**
   The path iterated last among those with a given time owns that time in
   `timesToPaths`: a later path with the same time overwrites the entry.
   */
  lemma {:induction false} TimesToPathsLastWins(m: TimeMap, order: seq<string>, j: int)
    requires forall i :: 0 <= i < |order| ==> order[i] in m
    requires 0 <= j < |order|
    requires forall k :: j < k < |order| ==> m[order[k]] != m[order[j]]
    ensures TimesToPaths(m, order)[m[order[j]]] == order[j]
    decreases |order|
  {
    var n := |order| - 1;
    if j < n {
      var init := order[..n];
      assert forall k :: 0 <= k < |init| ==> init[k] == order[k];
      TimesToPathsLastWins(m, init, j);
    }
  }

  /** An earlier path whose time a later path shares loses its entry in `timesToPaths`. */
  lemma {:induction false} TimesToPathsOverwrites(m: TimeMap, order: seq<string>, i: int, j: int)
    requires forall k :: 0 <= k < |order| ==> order[k] in m
    requires Distinct(order)
    requires 0 <= i < j < |order| && m[order[i]] == m[order[j]]
    ensures TimesToPaths(m, order)[m[order[i]]] != order[i]
    decreases |order|
  {
    var n := |order| - 1;
    if j < n {
      var init := order[..n];
      assert forall k :: 0 <= k < |init| ==> init[k] == order[k];
      TimesToPathsOverwrites(m, init, i, j);
    }
  }

  /**
   When two tracked paths share a time, the one iterated first is missing
   from `PathsByModTime`: it is never analysed on that update.
   */
  lemma TiedPathLost(m: TimeMap, order: seq<string>, i: int, j: int)
    requires IsListing(order, m)
    requires 0 <= i < j < |order| && m[order[i]] == m[order[j]]
    ensures order[i] !in PathsByModTime(m, order)
  {
    var r := PathsByModTime(m, order);
    OutputOwnsTime(m, order);
    TimesToPathsOverwrites(m, order, i, j);
    forall k | 0 <= k < |r| ensures r[k] != order[i] {
    }
  }

  /** Every path `PathsByModTime` lists is the owner of its own time in `timesToPaths`. */
  lemma OutputOwnsTime(m: TimeMap, order: seq<string>)
    requires IsListing(order, m)
    ensures forall k :: 0 <= k < |PathsByModTime(m, order)| ==>
      m[PathsByModTime(m, order)[k]] in TimesToPaths(m, order) &&
          TimesToPaths(m, order)[m[PathsByModTime(m, order)[k]]] == PathsByModTime(m, order)[k]
  {
    PathsByModTimeUnfold(m, order);
    var r := PathsByModTime(m, order);
    var ttp := TimesToPaths(m, order);
    var sorted := Sort(MapThrough(m, order));
    forall k | 0 <= k < |r| ensures m[r[k]] in ttp && ttp[m[r[k]]] == r[k] {
      assert r[k] == ttp[sorted[k]];
      assert m[ttp[sorted[k]]] == sorted[k];
    }
  }

  /** Every time in the sorted list has an entry in `timesToPaths`. */
  lemma SortedTimesAreKeys(m: TimeMap, order: seq<string>)
    requires forall i :: 0 <= i < |order| ==> order[i] in m
    ensures forall i :: 0 <= i < |Sort(MapThrough(m, order))| ==>
        Sort(MapThrough(m, order))[i] in TimesToPaths(m, order)
  {
    var times := MapThrough(m, order);
    var sorted := Sort(times);
    forall i | 0 <= i < |sorted| ensures sorted[i] in TimesToPaths(m, order) {
      assert sorted[i] in multiset(times);
      var k :| 0 <= k < |times| && times[k] == sorted[i];
    }
  }

  /** Mapping times to paths and back to times gives the times again. */
  lemma LookupRoundTrip(m: TimeMap, ttp: map<Time, string>, ts: seq<Time>)
    requires forall t :: t in ttp ==> ttp[t] in m && m[ttp[t]] == t
    requires forall i :: 0 <= i < |ts| ==> ts[i] in ttp
    ensures forall i :: 0 <= i < |ts| ==> MapThrough(ttp, ts)[i] in m
    ensures MapThrough(m, MapThrough(ttp, ts)) == ts
  {
    var ps := MapThrough(ttp, ts);
    forall i | 0 <= i < |ts| ensures ps[i] in m && m[ps[i]] == ts[i] {
      var t := ts[i];
      assert t in ttp;
      assert ps[i] == ttp[t];
    }
  }

  /**
   `PathsByModTime`: the tracked times sorted ascending (`sort.Sort` on
   `Before`), each mapped back to a path through `timesToPaths`. The most
   recently modified path comes last.
   */
  function PathsByModTime(m: TimeMap, order: seq<string>): (r: seq<string>)
    requires IsListing(order, m)
    ensures |r| == |m|
    ensures forall i :: 0 <= i < |r| ==> r[i] in m
    ensures Ascending(MapThrough(m, r))
    ensures multiset(MapThrough(m, r)) == multiset(MapThrough(m, order))
  {
    PathsByModTimeBuild(m, order);
    MapThrough(TimesToPaths(m, order), Sort(MapThrough(m, order)))
  }

  /** The sorted times can all be looked up, and looking their paths up again gives the sorted times. */
  lemma PathsByModTimeBuild(m: TimeMap, order: seq<string>)
    requires IsListing(order, m)
    ensures |Sort(MapThrough(m, order))| == |m|
    ensures forall i :: 0 <= i < |Sort(MapThrough(m, order))| ==>
        Sort(MapThrough(m, order))[i] in TimesToPaths(m, order)
    ensures forall i :: 0 <= i < |Sort(MapThrough(m, order))| ==>
        MapThrough(TimesToPaths(m, order), Sort(MapThrough(m, order)))[i] in m
    ensures MapThrough(m, MapThrough(TimesToPaths(m, order), Sort(MapThrough(m, order))))
        == Sort(MapThrough(m, order))
  {
    ListingSize(order, m);
    SortedTimesAreKeys(m, order);
    var sorted := Sort(MapThrough(m, order));
    assert |sorted| == |multiset(sorted)| == |multiset(MapThrough(m, order))|;
    LookupRoundTrip(m, TimesToPaths(m, order), sorted);
  }

  /** The times along the output are the sorted tracked times. */
  lemma PathsByModTimeTimes(m: TimeMap, order: seq<string>)
    requires IsListing(order, m)
    ensures MapThrough(m, PathsByModTime(m, order)) == Sort(MapThrough(m, order))
  {
    var r := PathsByModTime(m, order);
    AscendingUnique(MapThrough(m, r), Sort(MapThrough(m, order)));
  }

  lemma PathsByModTimeUnfold(m: TimeMap, order: seq<string>)
    requires IsListing(order, m)
    ensures forall i :: 0 <= i < |Sort(MapThrough(m, order))| ==>
        Sort(MapThrough(m, order))[i] in TimesToPaths(m, order)
    ensures PathsByModTime(m, order) == MapThrough(TimesToPaths(m, order), Sort(MapThrough(m, order)))
  {
    SortedTimesAreKeys(m, order);
  }

  /** With pairwise-distinct times, `timesToPaths` sends each path's time back to that path. */
  lemma TableInverts(m: TimeMap, order: seq<string>)
    requires forall i :: 0 <= i < |order| ==> order[i] in m
    requires DistinctTimes(m)
    ensures forall i :: 0 <= i < |order| ==> MapThrough(m, order)[i] in TimesToPaths(m, order)
    ensures MapThrough(TimesToPaths(m, order), MapThrough(m, order)) == order
  {
    var ttp := TimesToPaths(m, order);
    var times := MapThrough(m, order);
    forall i | 0 <= i < |order| ensures ttp[times[i]] == order[i] {
      var k := order[i];
      assert ttp[m[k]] in m && m[ttp[m[k]]] == m[k];
    }
  }

  /**
   With pairwise-distinct times, the output is a rearrangement of the tracked
   paths: every path appears exactly once.
   */
  lemma PathsByModTimePermutation(m: TimeMap, order: seq<string>)
    requires IsListing(order, m) && DistinctTimes(m)
    ensures multiset(PathsByModTime(m, order)) == multiset(order)
    ensures Distinct(PathsByModTime(m, order))
    ensures forall k :: k in m <==> k in PathsByModTime(m, order)
  {
    var times := MapThrough(m, order);
    var ttp := TimesToPaths(m, order);
    var sorted := Sort(times);
    PathsByModTimeUnfold(m, order);
    TableInverts(m, order);
    MapThroughMultiset(ttp, sorted, times);
    var r := PathsByModTime(m, order);
    assert multiset(r) == multiset(order);
    MultisetKeepsDistinct(order, r);
    forall k ensures k in m <==> k in r {
      assert k in r <==> k in multiset(r);
      assert k in order <==> k in multiset(order);
    }
  }

  /**
   The times along the output do not depend on the map's iteration order,
   even when times tie.
   */
  lemma PathsByModTimeTimesIndependent(m: TimeMap, o1: seq<string>, o2: seq<string>)
    requires IsListing(o1, m) && IsListing(o2, m)
    ensures MapThrough(m, PathsByModTime(m, o1)) == MapThrough(m, PathsByModTime(m, o2))
  {
    ListingsArePermutations(o1, o2, m);
    MapThroughMultiset(m, o1, o2);
    var t1 := MapThrough(m, PathsByModTime(m, o1));
    var t2 := MapThrough(m, PathsByModTime(m, o2));
    AscendingUnique(t1, t2);
  }

  /**
   With pairwise-distinct times the output does not depend on the map's
   iteration order: it is the one ascending arrangement of the paths.
   */
  lemma PathsByModTimeOrderIndependent(m: TimeMap, o1: seq<string>, o2: seq<string>)
    requires IsListing(o1, m) && IsListing(o2, m) && DistinctTimes(m)
    ensures PathsByModTime(m, o1) == PathsByModTime(m, o2)
  {
    PathsByModTimeTimesIndependent(m, o1, o2);
    SameTimesSamePaths(m, PathsByModTime(m, o1), PathsByModTime(m, o2));
  }

  /** With pairwise-distinct times, a sequence of paths is determined by its sequence of times. */
  lemma SameTimesSamePaths(m: TimeMap, r1: seq<string>, r2: seq<string>)
    requires DistinctTimes(m)
    requires forall i :: 0 <= i < |r1| ==> r1[i] in m
    requires forall i :: 0 <= i < |r2| ==> r2[i] in m
    requires MapThrough(m, r1) == MapThrough(m, r2)
    ensures r1 == r2
  {
    assert |r1| == |r2|;
    forall i | 0 <= i < |r1| ensures r1[i] == r2[i] {
      assert MapThrough(m, r1)[i] == MapThrough(m, r2)[i];
    }
  }

  /** The tracked times of the regression example: two days ago, one day ago, now. */
  function ExampleTimes(now: Time, day: Time): TimeMap
  {
    map["abc" := now - day, "def" := now, "ghi" := now - 2 * day]
  }

  lemma ExampleTimesDistinct(now: Time, day: Time)
    requires day > 0
    ensures DistinctTimes(ExampleTimes(now, day))
    ensures IsListing(["ghi", "abc", "def"], ExampleTimes(now, day))
    ensures MapThrough(ExampleTimes(now, day), ["ghi", "abc", "def"]) == [now - 2 * day, now - day, now]
    ensures Ascending(MapThrough(ExampleTimes(now, day), ["ghi", "abc", "def"]))
  {
    var m := ExampleTimes(now, day);
    assert m.Keys == {"abc", "def", "ghi"};
  }

  /**
   Paths modified two days ago, one day ago and now come out as "ghi", "abc",
   "def", whatever the iteration order.
   */
  lemma ExpectedOrder(now: Time, day: Time, order: seq<string>)
    requires day > 0
    requires IsListing(order, ExampleTimes(now, day))
    ensures PathsByModTime(ExampleTimes(now, day), order) == ["ghi", "abc", "def"]
  {
    var m := ExampleTimes(now, day);
    var expected := ["ghi", "abc", "def"];
    ExampleTimesDistinct(now, day);
    var r := PathsByModTime(m, expected);
    PathsByModTimeOrderIndependent(m, order, expected);
    var ts := MapThrough(m, expected);
    AscendingUnique(MapThrough(m, r), ts);
    SameTimesSamePaths(m, r, expected);
  }

  /**
   Equal times collapse in `timesToPaths`: two paths with the same time come
   out as the later-iterated one twice, and the other is lost.
   */
  lemma TiedTimesCollapse(t: Time)
    ensures PathsByModTime(map["a" := t, "b" := t], ["a", "b"]) == ["b", "b"]
  {
    var m := map["a" := t, "b" := t];
    var o := ["a", "b"];
    assert IsListing(o, m);
    var r := PathsByModTime(m, o);
    assert forall i :: 0 <= i < |r| ==> r[i] == TimesToPaths(m, o)[t];
    assert TimesToPaths(m, o)[t] == "b" by {
      assert o[..1] == ["a"];
      assert TimesToPaths(m, o) == TimesToPaths(m, ["a"])[t := "b"];
    }
  }
}
