/** Restart intervals: both sides count MCUs down and start a new segment, lazily, before the
    MCU that finds the counter at zero. */
module Restarts {
  /** Finished segments, the MCUs of the current one, and the counter restarts_to_go. */
  datatype Split<T> = Split(groups: seq<seq<T>>, cur: seq<T>, togo: nat)

  function SplitBy<T>(xs: seq<T>, interval: nat): (s: Split<T>)
    ensures interval == 0 ==> s.groups == [] && s.togo == 0
  {
    var n := |xs| - 1;
    if n < 0 then Split([], [], interval)
    else
      var s := SplitBy(xs[..n], interval);
      if interval > 0 && s.togo == 0 then Split(s.groups + [s.cur], [xs[n]], interval - 1)
      else Split(s.groups, s.cur + [xs[n]], if interval == 0 then 0 else s.togo - 1)
  }

  function SegmentsOf<T>(xs: seq<T>, interval: nat): (r: seq<seq<T>>)
    ensures |r| > 0
  {
    SplitBy(xs, interval).groups + [SplitBy(xs, interval).cur]
  }

  function Concat<T>(groups: seq<seq<T>>): seq<T> {
    var n := |groups| - 1;
    if n < 0 then [] else Concat(groups[..n]) + groups[n]
  }

  /** The segments partition the scan, and all but the last are full. */
  lemma {:induction false} SplitPartitions<T>(xs: seq<T>, interval: nat)
    ensures var s := SplitBy(xs, interval);
      && Concat(s.groups) + s.cur == xs && (interval > 0 ==> |s.cur| + s.togo == interval)
      && forall i :: 0 <= i < |s.groups| ==> |s.groups[i]| == interval
  {
    hide Concat;
    var n := |xs| - 1;
    if n >= 0 {
      SplitPartitions(xs[..n], interval);
      var s := SplitBy(xs[..n], interval);
      ConcatSnoc(s.groups, s.cur);
      assert xs == xs[..n] + [xs[n]];
      Regroup(Concat(s.groups), s.cur, [xs[n]]);
    } else {
      ConcatNothing<T>();
    }
  }

  lemma ConcatNothing<T>()
    ensures Concat<T>([]) == []
  {
  }

  lemma Regroup<T>(a: seq<T>, b: seq<T>, c: seq<T>)
    ensures a + b + c == a + (b + c)
  {
  }

  lemma ConcatSnoc<T>(groups: seq<seq<T>>, g: seq<T>)
    ensures Concat(groups + [g]) == Concat(groups) + g
  {
    assert (groups + [g])[..|groups|] == groups;
  }

  /** The split of a prefix is where an MCU-by-MCU process stands in the whole. */
  lemma {:induction false} SplitPrefix<T>(xs: seq<T>, interval: nat, n: nat)
    requires n <= |xs|
    ensures var p := SplitBy(xs[..n], interval); var all := SegmentsOf(xs, interval);
      && |p.groups| < |all| && p.groups == all[..|p.groups|] && p.cur <= all[|p.groups|]
      && (n < |xs| && interval > 0 && p.togo == 0 ==>
            |p.groups| + 1 < |all| && p.cur == all[|p.groups|] && [xs[n]] <= all[|p.groups| + 1])
      && (n < |xs| && (interval == 0 || p.togo > 0) ==> p.cur + [xs[n]] <= all[|p.groups|])
    decreases |xs|
  {
    var l := |xs| - 1;
    if n == |xs| {
      assert xs[..n] == xs;
    } else {
      SplitPrefix(xs[..l], interval, n);
      assert xs[..l][..n] == xs[..n];
      var s, p := SplitBy(xs[..l], interval), SplitBy(xs[..n], interval);
      var all, before := SegmentsOf(xs, interval), SegmentsOf(xs[..l], interval);
      assert before == s.groups + [s.cur];
      if interval > 0 && s.togo == 0 {
        assert all == before + [[xs[l]]];
      } else {
        assert all == s.groups + [s.cur + [xs[l]]];
      }
    }
  }

  ghost predicate All<T(!new)>(xs: seq<T>, p: T -> bool) {
    forall i :: 0 <= i < |xs| ==> p(xs[i])
  }

  ghost predicate AllGroups<T(!new)>(groups: seq<seq<T>>, p: T -> bool) {
    forall g :: 0 <= g < |groups| ==> All(groups[g], p)
  }

  /** What holds of every MCU of the scan holds of every MCU of each segment. */
  lemma {:induction false} SplitAll<T(!new)>(xs: seq<T>, interval: nat, p: T -> bool)
    requires All(xs, p)
    ensures var s := SplitBy(xs, interval);
      AllGroups(s.groups, p) && All(s.cur, p) && AllGroups(SegmentsOf(xs, interval), p)
  {
    if |xs| > 0 {
      SplitAll(xs[..|xs| - 1], interval, p);
    }
  }
}
