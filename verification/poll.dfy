/**
 The polling loop of `main`: the initial pass that records every path, and
 one tick of the endless loop, which checks paths in order, stops at the first
 change, and then re-analyses every tracked path. Each `os.Stat` result is an
 input (`stats[i]` is what stat returns for `paths[i]` on this pass); the
 one-second sleep between ticks is left out.
 */
module Poll {
  import opened Wrappers
  import opened ChangeTracker
  import opened Seqs

  /**
   The initial pass (`for _, file := range filepaths { modTimes.CheckTime(file) }`):
   every path is checked, with no early exit.
   */
  function Track(m: TimeMap, paths: seq<string>, stats: seq<Option<Time>>): (r: TimeMap)
    requires |stats| == |paths|
    ensures forall k :: k in r <==> k in m || exists i :: 0 <= i < |paths| && paths[i] == k && stats[i].Some?
  {
    if |paths| == 0 then m
    else
      var n := |paths| - 1;
      var prev := Track(m, paths[..n], stats[..n]);
      assert forall i :: 0 <= i < n ==> paths[..n][i] == paths[i] && stats[..n][i] == stats[i];
      CheckTime(prev, paths[n], stats[n]).times
  }

  /** A path's stored time is the one its last successful stat in the pass returned. */
  lemma {:induction false} TrackLastObserved(m: TimeMap, paths: seq<string>, stats: seq<Option<Time>>, i: int)
    requires |stats| == |paths|
    requires LastObserved(paths, stats, i)
    ensures paths[i] in Track(m, paths, stats) && Track(m, paths, stats)[paths[i]] == stats[i].value
    decreases |paths|
  {
    var n := |paths| - 1;
    if i < n {
      var ps, ss := paths[..n], stats[..n];
      assert LastObserved(ps, ss, i);
      TrackLastObserved(m, ps, ss, i);
    }
  }

  /** A path whose every stat in the pass failed keeps the time it had. */
  lemma {:induction false} TrackUnobserved(m: TimeMap, paths: seq<string>, stats: seq<Option<Time>>, k: string)
    requires |stats| == |paths|
    requires k in m && NeverObserved(paths, stats, k)
    ensures k in Track(m, paths, stats) && Track(m, paths, stats)[k] == m[k]
    decreases |paths|
  {
    if |paths| > 0 {
      var n := |paths| - 1;
      var ps, ss := paths[..n], stats[..n];
      assert NeverObserved(ps, ss, k);
      TrackUnobserved(m, ps, ss, k);
    }
  }

  /** `stats[i]` succeeded and no later successful stat of the same path follows. */
  predicate LastObserved(paths: seq<string>, stats: seq<Option<Time>>, i: int)
    requires |stats| == |paths|
  {
    && 0 <= i < |paths|
    && stats[i].Some?
    && forall j :: i < j < |paths| && paths[j] == paths[i] ==> stats[j].None?
  }

  /** Every stat of `k` in this pass failed (or `k` is not in the pass). */
  predicate NeverObserved(paths: seq<string>, stats: seq<Option<Time>>, k: string)
    requires |stats| == |paths|
  {
    forall i :: 0 <= i < |paths| && paths[i] == k ==> stats[i].None?
  }

  /**
   `main` before its loop: a fresh tracker records every path whose stat
   succeeds, with its last observed time; paths whose stat fails are not
   tracked. The first `update` gets `PathsByModTime` of this map.
   */
  function Startup(paths: seq<string>, stats: seq<Option<Time>>): (m: TimeMap)
    requires |stats| == |paths|
    ensures forall k :: k in m <==> exists i :: 0 <= i < |paths| && paths[i] == k && stats[i].Some?
  {
    Track(NewModifiedTimes(), paths, stats)
  }

  /** After startup each tracked path holds the time of its last successful stat. */
  lemma StartupTimes(paths: seq<string>, stats: seq<Option<Time>>, i: int)
    requires |stats| == |paths|
    requires LastObserved(paths, stats, i)
    ensures paths[i] in Startup(paths, stats) && Startup(paths, stats)[paths[i]] == stats[i].value
  {
    TrackLastObserved(NewModifiedTimes(), paths, stats, i);
  }

  /** `i` is the first path of the pass that reports a change. */
  predicate FirstChange(m: TimeMap, paths: seq<string>, stats: seq<Option<Time>>, i: int)
    requires |stats| == |paths|
  {
    && 0 <= i < |paths|
    && Changes(m, paths[i], stats[i])
    && forall j :: 0 <= j < i ==> !Changes(m, paths[j], stats[j])
  }

  datatype TickOutcome = TickOutcome(times: TimeMap, runUpdate: bool)

  /**
   One iteration of the `for` loop in `main`: check the paths in order and
   break at the first one that changed. At most one stored time changes.
   */
  function Tick(m: TimeMap, paths: seq<string>, stats: seq<Option<Time>>): (r: TickOutcome)
    requires |stats| == |paths|
    ensures r.runUpdate <==> exists i :: 0 <= i < |paths| && Changes(m, paths[i], stats[i])
    ensures !r.runUpdate ==> r.times == m
    ensures r.runUpdate ==> exists i :: FirstChange(m, paths, stats, i) && r.times == m[paths[i] := stats[i].value]
    decreases |paths|
  {
    if |paths| == 0 then TickOutcome(m, false)
    else
      var check := CheckTime(m, paths[0], stats[0]);
      if check.changed then
        assert FirstChange(m, paths, stats, 0);
        TickOutcome(check.times, true)
      else
        var rest := Tick(check.times, paths[1..], stats[1..]);
        assert forall i :: 1 <= i < |paths| ==> paths[1..][i - 1] == paths[i] && stats[1..][i - 1] == stats[i];
        assert rest.runUpdate ==>
            exists i :: FirstChange(m, paths, stats, i) && rest.times == m[paths[i] := stats[i].value] by {
          if rest.runUpdate {
            var i :| FirstChange(m, paths[1..], stats[1..], i) &&
                rest.times == m[paths[1..][i] := stats[1..][i].value];
            assert FirstChange(m, paths, stats, i + 1);
          }
        }
        rest
  }

  /**
   What the tick hands to `update`: nothing when no path changed, otherwise
   `PathsByModTime` of the whole updated map, not just the changed path.
   */
  function Dispatch(r: TickOutcome, order: seq<string>): (d: Option<seq<string>>)
    requires IsListing(order, r.times)
    ensures d.Some? <==> r.runUpdate
    ensures d.Some? ==> |d.value| == |r.times|
    ensures d.Some? ==> (forall i :: 0 <= i < |d.value| ==> d.value[i] in r.times)
                        && Ascending(MapThrough(r.times, d.value))
  {
    if r.runUpdate then Some(PathsByModTime(r.times, order)) else None
  }

  /**
   When times are distinct, a tick that reports a change dispatches every
   tracked path, changed or not.
   */
  lemma DispatchCoversAllPaths(r: TickOutcome, order: seq<string>)
    requires IsListing(order, r.times) && DistinctTimes(r.times)
    requires r.runUpdate
    ensures Dispatch(r, order).Some?
    ensures forall k :: k in r.times <==> k in Dispatch(r, order).value
  {
    PathsByModTimePermutation(r.times, order);
  }

  /** Paths that this pass would report as changed. */
  ghost function Pending(m: TimeMap, paths: seq<string>, stats: seq<Option<Time>>): set<string>
    requires |stats| == |paths|
  {
    set i | 0 <= i < |paths| && Changes(m, paths[i], stats[i]) :: paths[i]
  }

  /** Every occurrence of a path in the pass observes the same stat result. */
  predicate ConsistentStats(paths: seq<string>, stats: seq<Option<Time>>)
    requires |stats| == |paths|
  {
    forall i, j :: 0 <= i < |paths| && 0 <= j < |paths| && paths[i] == paths[j] ==> stats[i] == stats[j]
  }

  /** Recording one pending path's time settles that path and nothing else. */
  lemma SettlePath(m: TimeMap, paths: seq<string>, stats: seq<Option<Time>>, i: int)
    requires |stats| == |paths| && ConsistentStats(paths, stats)
    requires 0 <= i < |paths| && Changes(m, paths[i], stats[i])
    ensures Pending(m[paths[i] := stats[i].value], paths, stats) == Pending(m, paths, stats) - {paths[i]}
  {
    var p := paths[i];
    var m' := m[p := stats[i].value];
    var before := Pending(m, paths, stats);
    var after := Pending(m', paths, stats);
    forall q | q in after ensures q in before - {p} {
      var k :| 0 <= k < |paths| && Changes(m', paths[k], stats[k]) && paths[k] == q;
      assert Changes(m, paths[k], stats[k]);
    }
    forall q | q in before - {p} ensures q in after {
      var k :| 0 <= k < |paths| && Changes(m, paths[k], stats[k]) && paths[k] == q;
      assert Changes(m', paths[k], stats[k]);
    }
  }

  /**
   While the files stay as they are, each tick settles exactly one pending
   path, so after as many ticks as there are changed paths nothing is reported.
   */
  lemma TickSettlesOnePath(m: TimeMap, paths: seq<string>, stats: seq<Option<Time>>)
    requires |stats| == |paths|
    requires ConsistentStats(paths, stats)
    ensures Tick(m, paths, stats).runUpdate <==> Pending(m, paths, stats) != {}
    ensures Tick(m, paths, stats).runUpdate ==>
      exists p :: p in Pending(m, paths, stats) &&
          Pending(Tick(m, paths, stats).times, paths, stats) == Pending(m, paths, stats) - {p}
  {
    var r := Tick(m, paths, stats);
    if Pending(m, paths, stats) != {} {
      var q :| q in Pending(m, paths, stats);
      var k :| 0 <= k < |paths| && Changes(m, paths[k], stats[k]) && paths[k] == q;
    }
    if r.runUpdate {
      var i :| FirstChange(m, paths, stats, i) && r.times == m[paths[i] := stats[i].value];
      SettlePath(m, paths, stats, i);
      assert paths[i] in Pending(m, paths, stats);
    }
  }

  /**
   A tick immediately after a quiet tick is quiet too: a corollary of `Tick`
   leaving the map unchanged when nothing changed.
   */
  lemma QuietTickStaysQuiet(m: TimeMap, paths: seq<string>, stats: seq<Option<Time>>)
    requires |stats| == |paths|
    requires !Tick(m, paths, stats).runUpdate
    ensures Tick(Tick(m, paths, stats).times, paths, stats) == TickOutcome(m, false)
  {
  }
}
