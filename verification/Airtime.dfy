/**
 Detection of the intervals in which a vehicle was in the air
 (Tools/ecl_ekf/analysis/detectors.py, InAirDetector): from the edges of the "landed" flag to
 intervals of time, and from these to the samples of a data set that fall into them.
 */
module Airtime {
  import opened Positions

  /** landed[k] is whether sample k of vehicle_land_detected says so (values 1 and 0 in the log). */
  type Flags = seq<bool>

  // ---------- edges ----------

  /** np.where(np.diff(landed) < 0), from index i on: landed at k, in the air at k + 1. */
  function Falls(landed: Flags, i: nat): seq<int>
    decreases |landed| - i
  {
    if i + 1 >= |landed| then []
    else (if landed[i] && !landed[i + 1] then [i] else []) + Falls(landed, i + 1)
  }

  /** np.where(np.diff(landed) > 0), from index i on. */
  function Rises(landed: Flags, i: nat): seq<int>
    decreases |landed| - i
  {
    if i + 1 >= |landed| then []
    else (if !landed[i] && landed[i + 1] then [i] else []) + Rises(landed, i + 1)
  }

  function PlusOne(s: seq<int>): (r: seq<int>)
    ensures |r| == |s| && forall k | 0 <= k < |s| :: r[k] == s[k] + 1
  {
    seq(|s|, k requires 0 <= k < |s| => s[k] + 1)
  }

  predicate AlwaysOnGround(landed: Flags) { forall k | 0 <= k < |landed| :: landed[k] }

  /** The take-off and landing indices, with the corrections for a start and an end in the air. */
  method FindEdges(landed: Flags) returns (takeOffs: seq<int>, landings: seq<int>)
    requires !AlwaysOnGround(landed)
    ensures |takeOffs| == |landings|
    ensures Zip(takeOffs, landings) == Runs(landed, 0)
  {
    takeOffs, landings := Falls(landed, 0), Rises(landed, 0);
    if |takeOffs| == 0 || (|landings| > 0 && landings[0] < takeOffs[0]) {
      takeOffs := [-1] + takeOffs;
    }
    takeOffs := PlusOne(takeOffs);
    if |landings| < |takeOffs| {
      landings := landings + [|landed| - 2];
    }
    landings := PlusOne(landings);
    EdgesAreRuns(landed);
  }

  // ---------- the reference: maximal runs of samples in the air ----------

  /** First landed sample at or after i, or the number of samples. */
  function NextLanded(landed: Flags, i: nat): (b: nat)
    requires i <= |landed|
    ensures i <= b <= |landed|
    ensures forall x | i <= x < b :: !landed[x]
    ensures b < |landed| ==> landed[b]
    decreases |landed| - i
  {
    if i == |landed| || landed[i] then i else NextLanded(landed, i + 1)
  }

  /** First sample in the air at or after i, or the number of samples. */
  function NextAirborne(landed: Flags, i: nat): (a: nat)
    requires i <= |landed|
    ensures i <= a <= |landed|
    ensures forall x | i <= x < a :: landed[x]
    ensures a < |landed| ==> !landed[a]
    decreases |landed| - i
  {
    if i == |landed| || !landed[i] then i else NextAirborne(landed, i + 1)
  }

  /** A run from its first sample to the first landed one after it, or to the last sample of all. */
  datatype Run = Run(first: int, close: int)

  /** The runs in the air from sample i on. */
  function Runs(landed: Flags, i: nat): seq<Run>
    requires i <= |landed|
    decreases |landed| - i
  {
    var a := NextAirborne(landed, i);
    if a == |landed| then []
    else
      var b := NextLanded(landed, a);
      if b == |landed| then [Run(a, |landed| - 1)] else [Run(a, b)] + Runs(landed, b)
  }

  function Zip(a: seq<int>, b: seq<int>): (r: seq<Run>)
    requires |a| == |b|
    ensures |r| == |a| && forall k | 0 <= k < |a| :: r[k] == Run(a[k], b[k])
  {
    seq(|a|, k requires 0 <= k < |a| => Run(a[k], b[k]))
  }

  /** The edge lists, one sample at a time. */
  lemma EdgeStep(landed: Flags, i: nat)
    requires i + 1 < |landed|
    ensures Falls(landed, i) == if landed[i] && !landed[i + 1] then [i] + Falls(landed, i + 1) else Falls(landed, i + 1)
    ensures Rises(landed, i) == if !landed[i] && landed[i + 1] then [i] + Rises(landed, i + 1) else Rises(landed, i + 1)
  {
  }

  lemma EdgesAtEnd(landed: Flags, i: nat)
    requires i + 1 >= |landed|
    ensures Falls(landed, i) == [] && Rises(landed, i) == []
  {
  }

  lemma NextStep(landed: Flags, i: nat)
    requires i <= |landed|
    ensures i == |landed| || landed[i] ==> NextLanded(landed, i) == i
    ensures i < |landed| && !landed[i] ==> NextLanded(landed, i) == NextLanded(landed, i + 1)
    ensures i == |landed| || !landed[i] ==> NextAirborne(landed, i) == i
    ensures i < |landed| && landed[i] ==> NextAirborne(landed, i) == NextAirborne(landed, i + 1)
  {
  }

  /** In the air, no falling edge comes before the next landing, and the rising edge is there. */
  lemma {:induction false} FallsWhileInAir(landed: Flags, i: nat)
    requires i < |landed| && !landed[i]
    ensures var b := NextLanded(landed, i); Falls(landed, i) == if b == |landed| then [] else Falls(landed, b)
    decreases |landed| - i
  {
    hide Falls, Rises, NextLanded, NextAirborne;
    NextStep(landed, i);
    NextStep(landed, i + 1);
    if i + 1 == |landed| {
      EdgesAtEnd(landed, i);
    } else {
      EdgeStep(landed, i);
      if !landed[i + 1] {
        FallsWhileInAir(landed, i + 1);
      }
    }
  }

  lemma {:induction false} RisesWhileInAir(landed: Flags, i: nat)
    requires i < |landed| && !landed[i]
    ensures var b := NextLanded(landed, i); Rises(landed, i) == if b == |landed| then [] else [b - 1] + Rises(landed, b)
    decreases |landed| - i
  {
    hide Falls, Rises, NextLanded, NextAirborne;
    NextStep(landed, i);
    NextStep(landed, i + 1);
    if i + 1 == |landed| {
      EdgesAtEnd(landed, i);
    } else {
      EdgeStep(landed, i);
      if !landed[i + 1] {
        RisesWhileInAir(landed, i + 1);
      }
    }
  }

  /** On the ground, it is the other way round. */
  lemma {:induction false} RisesWhileLanded(landed: Flags, i: nat)
    requires i < |landed| && landed[i]
    ensures var a := NextAirborne(landed, i); Rises(landed, i) == if a == |landed| then [] else Rises(landed, a)
    decreases |landed| - i
  {
    hide Falls, Rises, NextLanded, NextAirborne;
    NextStep(landed, i);
    NextStep(landed, i + 1);
    if i + 1 == |landed| {
      EdgesAtEnd(landed, i);
    } else {
      EdgeStep(landed, i);
      if landed[i + 1] {
        RisesWhileLanded(landed, i + 1);
      }
    }
  }

  lemma {:induction false} FallsWhileLanded(landed: Flags, i: nat)
    requires i < |landed| && landed[i]
    ensures var a := NextAirborne(landed, i); Falls(landed, i) == if a == |landed| then [] else [a - 1] + Falls(landed, a)
    decreases |landed| - i
  {
    hide Falls, Rises, NextLanded, NextAirborne;
    NextStep(landed, i);
    NextStep(landed, i + 1);
    if i + 1 == |landed| {
      EdgesAtEnd(landed, i);
    } else {
      EdgeStep(landed, i);
      if landed[i + 1] {
        FallsWhileLanded(landed, i + 1);
      }
    }
  }

  /** Landings as the detector completes them: one for every take-off. */
  function Completed(landings: seq<int>, takeOffs: nat, n: nat): (r: seq<int>)
    ensures |r| == if |landings| < takeOffs then |landings| + 1 else |landings|
  {
    if |landings| < takeOffs then PlusOne(landings + [n - 2]) else PlusOne(landings)
  }

  lemma PlusOneCons(x: int, s: seq<int>)
    ensures PlusOne([x] + s) == [x + 1] + PlusOne(s)
  {
  }

  lemma CompletedCons(x: int, s: seq<int>, takeOffs: nat, n: nat)
    requires takeOffs > 0
    ensures Completed([x] + s, takeOffs, n) == [x + 1] + Completed(s, takeOffs - 1, n)
  {
    assert [x] + s + [n - 2] == [x] + (s + [n - 2]);
    PlusOneCons(x, s);
    PlusOneCons(x, s + [n - 2]);
  }

  lemma ZipCons(a: int, s: seq<int>, b: int, t: seq<int>)
    requires |s| == |t|
    ensures Zip([a] + s, [b] + t) == [Run(a, b)] + Zip(s, t)
  {
  }

  /** The take-offs and completed landings, paired up, are the given runs. */
  ghost predicate Pairs(takeOffs: seq<int>, rises: seq<int>, n: nat, runs: seq<Run>) {
    var landings := Completed(rises, |takeOffs|, n);
    |takeOffs| == |landings| && Zip(takeOffs, landings) == runs
  }

  lemma PairsCons(a: int, takeOffs: seq<int>, b: int, rises: seq<int>, n: nat, runs: seq<Run>)
    requires Pairs(takeOffs, rises, n, runs)
    ensures Pairs([a] + takeOffs, [b - 1] + rises, n, [Run(a, b)] + runs)
  {
    CompletedCons(b - 1, rises, |takeOffs| + 1, n);
    ZipCons(a, takeOffs, b, Completed(rises, |takeOffs|, n));
  }

  lemma PairsLast(a: int, n: nat)
    ensures Pairs([a], [], n, [Run(a, n - 1)])
    ensures Pairs([], [], n, [])
  {
    assert [] + [n - 2] == [n - 2];
  }

  /** In the air at i: the run starting at i, and then one per falling edge. */
  lemma {:induction false} RunsFromAir(landed: Flags, i: nat)
    requires i < |landed| && !landed[i]
    ensures Pairs([i] + PlusOne(Falls(landed, i)), Rises(landed, i), |landed|, Runs(landed, i))
    decreases |landed| - i, 0
  {
    hide Falls, Rises, Pairs, Runs, NextLanded, NextAirborne, PlusOne;
    var b := NextLanded(landed, i);
    FallsWhileInAir(landed, i);
    RisesWhileInAir(landed, i);
    RunsStep(landed, i);
    if b < |landed| {
      RunsFromGround(landed, b);
      PairsCons(i, PlusOne(Falls(landed, b)), b, Rises(landed, b), |landed|, Runs(landed, b));
    } else {
      assert [i] + PlusOne([]) == [i];
      PairsLast(i, |landed|);
    }
  }

  lemma RunsStep(landed: Flags, i: nat)
    requires i < |landed| && !landed[i]
    ensures
      var b := NextLanded(landed, i);
      Runs(landed, i) == if b == |landed| then [Run(i, |landed| - 1)] else [Run(i, b)] + Runs(landed, b)
  {
    assert NextAirborne(landed, i) == i;
  }

  /** Landed at i: one run per falling edge. */
  lemma {:induction false} RunsFromGround(landed: Flags, i: nat)
    requires i < |landed| && landed[i]
    ensures Pairs(PlusOne(Falls(landed, i)), Rises(landed, i), |landed|, Runs(landed, i))
    decreases |landed| - i, 1
  {
    hide Falls, Rises, Pairs, NextLanded, NextAirborne;
    var a := NextAirborne(landed, i);
    FallsWhileLanded(landed, i);
    RisesWhileLanded(landed, i);
    if a < |landed| {
      NextStep(landed, a);
      assert Runs(landed, i) == Runs(landed, a);
      RunsFromAir(landed, a);
      PlusOneCons(a - 1, Falls(landed, a));
    } else {
      assert PlusOne([]) == [];
      PairsLast(0, |landed|);
    }
  }

  /** Whether the log starts in the air, as the detector tells from the first edges. */
  predicate StartsInAir(falls: seq<int>, rises: seq<int>) {
    |falls| == 0 || (|rises| > 0 && rises[0] < falls[0])
  }

  lemma StartIsRecognized(landed: Flags)
    requires !AlwaysOnGround(landed)
    ensures |landed| > 0 && (StartsInAir(Falls(landed, 0), Rises(landed, 0)) <==> !landed[0])
  {
    if !landed[0] {
      FallsWhileInAir(landed, 0);
      RisesWhileInAir(landed, 0);
      FallsLater(landed, NextLanded(landed, 0));
    } else {
      FallsWhileLanded(landed, 0);
      RisesWhileLanded(landed, 0);
      FallsLater(landed, NextAirborne(landed, 0));
    }
  }

  lemma EdgesAreRuns(landed: Flags)
    requires !AlwaysOnGround(landed)
    ensures
      var falls, rises := Falls(landed, 0), Rises(landed, 0);
      Pairs(PlusOne(if StartsInAir(falls, rises) then [-1] + falls else falls), rises, |landed|, Runs(landed, 0))
  {
    StartIsRecognized(landed);
    hide Falls, Rises, Pairs, StartsInAir;
    if !landed[0] {
      RunsFromAir(landed, 0);
      PlusOneCons(-1, Falls(landed, 0));
    } else {
      RunsFromGround(landed, 0);
    }
  }

  lemma {:induction false} FallsLater(landed: Flags, i: nat)
    ensures forall k | 0 <= k < |Falls(landed, i)| :: i <= Falls(landed, i)[k]
    ensures forall k | 0 <= k < |Rises(landed, i)| :: i <= Rises(landed, i)[k]
    decreases |landed| - i
  {
    if i + 1 < |landed| {
      FallsLater(landed, i + 1);
    }
  }

  // ---------- what the runs are ----------

  /** A maximal run: in the air throughout, and closed at the first landed sample or at the end. */
  ghost predicate IsMaximal(landed: Flags, r: Run) {
    && 0 <= r.first <= r.close < |landed|
    && (r.first == 0 || landed[r.first - 1])
    && (forall x | r.first <= x < r.close :: !landed[x])
    && !landed[r.first]
    && (landed[r.close] || r.close == |landed| - 1)
  }

  ghost predicate Maximal(landed: Flags, runs: seq<Run>, i: nat) {
    forall k | 0 <= k < |runs| :: IsMaximal(landed, runs[k]) && i <= runs[k].first
  }

  /** In order, and with a landed sample in between. */
  ghost predicate Apart(runs: seq<Run>) {
    forall k, l | 0 <= k < l < |runs| :: runs[k].close < runs[l].first
  }

  ghost predicate InSomeRun(runs: seq<Run>, x: int) {
    exists k | 0 <= k < |runs| :: runs[k].first <= x <= runs[k].close
  }

  ghost predicate Complete(landed: Flags, runs: seq<Run>, i: nat) {
    forall x | i <= x < |landed| && !landed[x] :: InSomeRun(runs, x)
  }

  lemma InSomeRunCons(r: Run, runs: seq<Run>, x: int)
    requires r.first <= x <= r.close || InSomeRun(runs, x)
    ensures InSomeRun([r] + runs, x)
  {
    if r.first <= x <= r.close {
      assert ([r] + runs)[0] == r;
    } else {
      var k :| 0 <= k < |runs| && runs[k].first <= x <= runs[k].close;
      assert ([r] + runs)[k + 1] == runs[k];
    }
  }

  lemma CompleteCons(landed: Flags, i: nat, r: Run, runs: seq<Run>)
    requires 0 <= r.close && Complete(landed, runs, r.close)
    requires forall x | i <= x < |landed| && !landed[x] && x < r.close :: r.first <= x
    ensures Complete(landed, [r] + runs, i)
  {
    forall x | i <= x < |landed| && !landed[x]
      ensures InSomeRun([r] + runs, x)
    {
      InSomeRunCons(r, runs, x);
    }
  }

  lemma MaximalCons(landed: Flags, i: nat, r: Run, runs: seq<Run>)
    requires IsMaximal(landed, r) && i <= r.first && landed[r.close]
    requires Maximal(landed, runs, r.close) && Apart(runs)
    ensures Maximal(landed, [r] + runs, i) && Apart([r] + runs)
  {
  }

  /** The runs are maximal, in order and apart, and every sample in the air is in one of them. */
  lemma {:induction false} RunsAreExact(landed: Flags, i: nat)
    requires i <= |landed| && (i == 0 || i == |landed| || landed[i])
    ensures
      var runs := Runs(landed, i);
      Maximal(landed, runs, i) && Apart(runs) && Complete(landed, runs, i)
    decreases |landed| - i
  {
    hide NextLanded, NextAirborne, InSomeRun, Complete, Maximal, Apart;
    var a := NextAirborne(landed, i);
    if a == |landed| {
      NoRunLeft(landed, i);
    } else {
      var b := NextLanded(landed, a);
      if b < |landed| {
        RunsAreExact(landed, b);
        MaximalCons(landed, i, Run(a, b), Runs(landed, b));
        CompleteCons(landed, i, Run(a, b), Runs(landed, b));
      } else {
        LastRun(landed, i, a);
      }
    }
  }

  lemma NoRunLeft(landed: Flags, i: nat)
    requires forall x | i <= x < |landed| :: landed[x]
    ensures Maximal(landed, [], i) && Apart([]) && Complete(landed, [], i)
  {
  }

  lemma LastRun(landed: Flags, i: nat, a: nat)
    requires i <= a < |landed| && (forall x | i <= x < a :: landed[x])
    requires forall x | a <= x < |landed| :: !landed[x]
    requires a == 0 || landed[a - 1]
    ensures var runs := [Run(a, |landed| - 1)]; Maximal(landed, runs, i) && Apart(runs) && Complete(landed, runs, i)
  {
    var runs := [Run(a, |landed| - 1)];
    assert forall x | i <= x < |landed| && !landed[x] :: runs[0].first <= x <= runs[0].close;
  }

  // ---------- intervals of time ----------

  datatype Interval = Interval(takeOff: real, landing: real)

  /** Timestamps are in microseconds, everything else in seconds. */
  function Seconds(t: int): real { t as real / 1000000.0 }

  datatype Settings = Settings(start: int, margin: real, minFlight: real)

  predicate LongEnough(r: Run, timestamps: seq<int>, s: Settings)
    requires 0 <= r.first < |timestamps| && 0 <= r.close < |timestamps|
  {
    (Seconds(timestamps[r.close]) - s.margin) - (Seconds(timestamps[r.first]) + s.margin) >= s.minFlight
  }

  function ToInterval(r: Run, timestamps: seq<int>, s: Settings): Interval
    requires 0 <= r.first < |timestamps| && 0 <= r.close < |timestamps|
  {
    Interval(Seconds(timestamps[r.first] - s.start) + s.margin, Seconds(timestamps[r.close] - s.start) - s.margin)
  }

  ghost predicate InBounds(runs: seq<Run>, n: nat) {
    forall k | 0 <= k < |runs| :: 0 <= runs[k].first < n && 0 <= runs[k].close < n
  }

  function Intervals(runs: seq<Run>, timestamps: seq<int>, s: Settings): seq<Interval>
    requires InBounds(runs, |timestamps|)
  {
    if runs == [] then []
    else
      var front, r := runs[..|runs| - 1], runs[|runs| - 1];
      Intervals(front, timestamps, s) + if LongEnough(r, timestamps, s) then [ToInterval(r, timestamps, s)] else []
  }

  lemma NoRuns(landed: Flags)
    requires AlwaysOnGround(landed)
    ensures Runs(landed, 0) == []
  {
  }

  lemma RunsInBounds(landed: Flags)
    ensures InBounds(Runs(landed, 0), |landed|)
  {
    RunsAreExact(landed, 0);
    hide Runs, Complete;
  }

  /** _detect_airtime() */
  method DetectAirtime(landed: Flags, timestamps: seq<int>, s: Settings) returns (inAir: seq<Interval>)
    requires |timestamps| == |landed|
    ensures InBounds(Runs(landed, 0), |timestamps|)
    ensures inAir == Intervals(Runs(landed, 0), timestamps, s)
  {
    RunsInBounds(landed);
    hide Runs, AlwaysOnGround;
    inAir := [];
    if AlwaysOnGround(landed) {
      NoRuns(landed);
      return;
    }
    var takeOffs, landings := FindEdges(landed);
    ghost var runs := Runs(landed, 0);
    for k := 0 to |takeOffs|
      invariant InBounds(runs[..k], |timestamps|)
      invariant inAir == Intervals(runs[..k], timestamps, s)
    {
      assert runs[k] == Run(takeOffs[k], landings[k]);
      assert runs[..k + 1][..k] == runs[..k] && runs[..k + 1][k] == runs[k];
      var takeOff, landing := takeOffs[k], landings[k];
      if (Seconds(timestamps[landing]) - s.margin) - (Seconds(timestamps[takeOff]) + s.margin) >= s.minFlight {
        inAir := inAir + [Interval(Seconds(timestamps[takeOff] - s.start) + s.margin,
                                   Seconds(timestamps[landing] - s.start) - s.margin)];
      }
    }
    assert runs[..|takeOffs|] == runs;
  }

  ghost predicate NonDecreasing(t: seq<int>) {
    forall a, b | 0 <= a <= b < |t| :: t[a] <= t[b]
  }

  /** One interval ends before, or where, a later one begins. */
  ghost predicate Ordered(intervals: seq<Interval>) {
    forall a, b | 0 <= a < b < |intervals| :: intervals[a].landing <= intervals[b].takeOff
  }

  lemma SecondsMonotone(a: int, b: int, margin: real)
    requires a <= b && margin >= 0.0
    ensures Seconds(a) - margin <= Seconds(b) + margin
  {
  }

  /** Run k was long enough, and gave the interval. */
  ghost predicate Gives(runs: seq<Run>, timestamps: seq<int>, s: Settings, k: int, x: Interval)
    requires InBounds(runs, |timestamps|)
  {
    0 <= k < |runs| && LongEnough(runs[k], timestamps, s) && ToInterval(runs[k], timestamps, s) == x
  }

  lemma {:induction false} IntervalsComeFromRuns(runs: seq<Run>, timestamps: seq<int>, s: Settings, x: Interval)
    requires InBounds(runs, |timestamps|)
    ensures x in Intervals(runs, timestamps, s) <==> exists k :: Gives(runs, timestamps, s, k, x)
  {
    if runs != [] {
      var n := |runs| - 1;
      var front := runs[..n];
      IntervalsComeFromRuns(front, timestamps, s, x);
      if k :| Gives(front, timestamps, s, k, x) {
        assert Gives(runs, timestamps, s, k, x);
      }
      if k :| Gives(runs, timestamps, s, k, x) {
        assert k < n ==> Gives(front, timestamps, s, k, x);
      }
      assert LongEnough(runs[n], timestamps, s) ==> Gives(runs, timestamps, s, n, ToInterval(runs[n], timestamps, s));
    }
  }

  lemma {:induction false} IntervalsAreOrdered(runs: seq<Run>, timestamps: seq<int>, s: Settings)
    requires InBounds(runs, |timestamps|) && NonDecreasing(timestamps) && s.margin >= 0.0
    requires Apart(runs)
    ensures Ordered(Intervals(runs, timestamps, s))
  {
    if runs != [] {
      var n := |runs| - 1;
      var front := Intervals(runs[..n], timestamps, s);
      IntervalsAreOrdered(runs[..n], timestamps, s);
      forall a | 0 <= a < |front|
        ensures front[a].landing <= ToInterval(runs[n], timestamps, s).takeOff
      {
        IntervalsComeFromRuns(runs[..n], timestamps, s, front[a]);
        var k :| Gives(runs[..n], timestamps, s, k, front[a]);
        SecondsMonotone(timestamps[runs[k].close] - s.start, timestamps[runs[n].first] - s.start, s.margin);
      }
    }
  }

  // ---------- samples of a data set ----------

  predicate Within(t: int, x: Interval, start: int) { x.takeOff <= Seconds(t - start) < x.landing }

  /** np.where() for one interval, from index i on. */
  function Where(data: seq<int>, x: Interval, start: int, i: nat): seq<nat>
    requires i <= |data|
    decreases |data| - i
  {
    if i == |data| then [] else (if Within(data[i], x, start) then [i] else []) + Where(data, x, start, i + 1)
  }

  lemma {:induction false} WhereIsExact(data: seq<int>, x: Interval, start: int, i: nat)
    requires i <= |data|
    ensures Increasing(Where(data, x, start, i))
    ensures forall k: nat :: k in Where(data, x, start, i) <==> i <= k < |data| && Within(data[k], x, start)
    decreases |data| - i
  {
    if i < |data| {
      WhereIsExact(data, x, start, i + 1);
      var rest := Where(data, x, start, i + 1);
      forall k | 0 <= k < |rest|
        ensures i < rest[k]
      {
        assert rest[k] in rest;
      }
    }
  }

  ghost predicate InSome(t: int, intervals: seq<Interval>, start: int) {
    exists k | 0 <= k < |intervals| :: Within(t, intervals[k], start)
  }

  /** get_airtime(): the samples whose time lies in an interval, each once and in order. */
  method GetAirtime(data: seq<int>, inAir: seq<Interval>, start: int) returns (airtime: seq<nat>)
    ensures forall k: nat :: k in airtime <==> k < |data| && InSome(data[k], inAir, start)
    ensures NonDecreasing(data) && Ordered(inAir) ==> Increasing(airtime)
  {
    airtime := [];
    for i := 0 to |inAir|
      invariant NonDecreasing(data) && Ordered(inAir) ==> Increasing(airtime)
      invariant forall k: nat :: k in airtime <==> k < |data| && InSome(data[k], inAir[..i], start)
    {
      var more := Where(data, inAir[i], start, 0);
      WhereIsExact(data, inAir[i], start, 0);
      hide Where;
      if NonDecreasing(data) && Ordered(inAir) {
        EarlierComesFirst(data, inAir, start, i, airtime, more);
      }
      airtime := airtime + more;
      forall k: nat
        ensures k in airtime <==> k < |data| && InSome(data[k], inAir[..i + 1], start)
      {
        SomeMore(inAir, i, start, if k < |data| then data[k] else 0);
      }
    }
    assert inAir[..|inAir|] == inAir;
  }

  lemma SomeMore(intervals: seq<Interval>, i: nat, start: int, t: int)
    requires i < |intervals|
    ensures InSome(t, intervals[..i + 1], start) <==> InSome(t, intervals[..i], start) || Within(t, intervals[i], start)
  {
    if InSome(t, intervals[..i], start) {
      var k :| 0 <= k < i && Within(t, intervals[..i][k], start);
      assert Within(t, intervals[..i + 1][k], start);
    }
    if Within(t, intervals[i], start) {
      assert Within(t, intervals[..i + 1][i], start);
    }
  }

  lemma EarlierComesFirst(data: seq<int>, inAir: seq<Interval>, start: int, i: nat, before: seq<nat>, more: seq<nat>)
    requires NonDecreasing(data) && Ordered(inAir) && i < |inAir|
    requires forall k: nat :: k in before <==> k < |data| && InSome(data[k], inAir[..i], start)
    requires forall k: nat :: k in more <==> k < |data| && Within(data[k], inAir[i], start)
    ensures forall a, b | 0 <= a < |before| && 0 <= b < |more| :: before[a] < more[b]
  {
    forall a, b | 0 <= a < |before| && 0 <= b < |more|
      ensures before[a] < more[b]
    {
      assert before[a] in before && more[b] in more;
      var k :| 0 <= k < i && Within(data[before[a]], inAir[..i][k], start);
      assert Seconds(data[before[a]] - start) < inAir[k].landing <= inAir[i].takeOff <= Seconds(data[more[b]] - start);
    }
  }

  /** Seconds in microseconds. */
  function Micros(x: real): real { x * 1000000.0 }

  /**
   A time, in microseconds, that lies by the margin inside the maximal run of samples in the air from
   `first` to `close`, where the run without both margins lasts the minimum flight time.
   */
  ghost predicate InAirAt(landed: Flags, timestamps: seq<int>, s: Settings, t: int, first: int, close: int) {
    && |timestamps| == |landed|
    && IsMaximal(landed, Run(first, close))
    && var up, down := timestamps[first] as real, timestamps[close] as real;
    && down - up >= Micros(s.minFlight) + 2.0 * Micros(s.margin)
    && up + Micros(s.margin) <= t as real < down - Micros(s.margin)
  }

  /** The detector's tests, in these terms. */
  lemma TestsAreExact(r: Run, timestamps: seq<int>, s: Settings, t: int)
    requires 0 <= r.first < |timestamps| && 0 <= r.close < |timestamps|
    ensures LongEnough(r, timestamps, s) <==>
              timestamps[r.close] as real - timestamps[r.first] as real >= Micros(s.minFlight) + 2.0 * Micros(s.margin)
    ensures Within(t, ToInterval(r, timestamps, s), s.start) <==>
              timestamps[r.first] as real + Micros(s.margin) <= t as real < timestamps[r.close] as real - Micros(s.margin)
  {
  }

  /** A maximal run is one of the runs. */
  lemma MaximalIsRun(landed: Flags, r: Run) returns (k: int)
    requires IsMaximal(landed, r)
    ensures 0 <= k < |Runs(landed, 0)| && Runs(landed, 0)[k] == r
  {
    RunsAreExact(landed, 0);
    hide Runs;
    var runs := Runs(landed, 0);
    assert InSomeRun(runs, r.first);
    k :| 0 <= k < |runs| && runs[k].first <= r.first <= runs[k].close;
    MaximalRunsMeetOnce(landed, r, runs[k]);
  }

  /** Two maximal runs that share a sample in the air are one. */
  lemma MaximalRunsMeetOnce(landed: Flags, r: Run, q: Run)
    requires IsMaximal(landed, r) && IsMaximal(landed, q) && q.first <= r.first <= q.close
    ensures r == q
  {
    assert r.first == q.close ==> r.first == |landed| - 1;
  }

  /** The detector's verdict on a time, for every log. */
  lemma DetectionIsExact(landed: Flags, timestamps: seq<int>, s: Settings, t: int)
    requires |timestamps| == |landed|
    ensures InBounds(Runs(landed, 0), |timestamps|)
    ensures
      InSome(t, Intervals(Runs(landed, 0), timestamps, s), s.start) <==>
        exists first, close :: InAirAt(landed, timestamps, s, t, first, close)
  {
    RunsInBounds(landed);
    RunsAreExact(landed, 0);
    hide Runs, Intervals, Complete, Apart, IsMaximal, LongEnough, ToInterval, Within;
    var runs := Runs(landed, 0);
    var intervals := Intervals(runs, timestamps, s);
    if InSome(t, intervals, s.start) {
      var l :| 0 <= l < |intervals| && Within(t, intervals[l], s.start);
      IntervalsComeFromRuns(runs, timestamps, s, intervals[l]);
      var k :| Gives(runs, timestamps, s, k, intervals[l]);
      TestsAreExact(runs[k], timestamps, s, t);
      assert InAirAt(landed, timestamps, s, t, runs[k].first, runs[k].close);
    }
    if first, close :| InAirAt(landed, timestamps, s, t, first, close) {
      var k := MaximalIsRun(landed, Run(first, close));
      TestsAreExact(runs[k], timestamps, s, t);
      var x := ToInterval(runs[k], timestamps, s);
      assert Gives(runs, timestamps, s, k, x);
      IntervalsComeFromRuns(runs, timestamps, s, x);
      var l :| 0 <= l < |intervals| && intervals[l] == x;
    }
  }

  /** get_take_off_to_last_landing(): the samples from the first take-off to the last landing. */
  function TakeOffToLastLanding(data: seq<int>, inAir: seq<Interval>, start: int): seq<nat> {
    if inAir == [] then []
    else Where(data, Interval(inAir[0].takeOff, inAir[|inAir| - 1].landing), start, 0)
  }

  /** Exactly the samples from the first take-off on and before the last landing, in order. */
  lemma WholeFlightIsExact(data: seq<int>, inAir: seq<Interval>, start: int)
    ensures Increasing(TakeOffToLastLanding(data, inAir, start))
    ensures forall k: nat ::
              k in TakeOffToLastLanding(data, inAir, start) <==>
              inAir != [] && k < |data|
              && inAir[0].takeOff <= Seconds(data[k] - start) < inAir[|inAir| - 1].landing
  {
    if inAir != [] {
      WhereIsExact(data, Interval(inAir[0].takeOff, inAir[|inAir| - 1].landing), start, 0);
    }
  }

  /** Take-offs come in order, and so do landings. */
  ghost predicate Monotone(intervals: seq<Interval>) {
    forall a, b | 0 <= a <= b < |intervals| ::
      intervals[a].takeOff <= intervals[b].takeOff && intervals[a].landing <= intervals[b].landing
  }

  lemma {:induction false} IntervalsAreMonotone(runs: seq<Run>, timestamps: seq<int>, s: Settings)
    requires InBounds(runs, |timestamps|) && NonDecreasing(timestamps) && Apart(runs)
    requires forall k | 0 <= k < |runs| :: runs[k].first <= runs[k].close
    ensures Monotone(Intervals(runs, timestamps, s))
  {
    if runs != [] {
      var n := |runs| - 1;
      var front, x := Intervals(runs[..n], timestamps, s), ToInterval(runs[n], timestamps, s);
      IntervalsAreMonotone(runs[..n], timestamps, s);
      forall a | 0 <= a < |front|
        ensures front[a].takeOff <= x.takeOff && front[a].landing <= x.landing
      {
        IntervalsComeFromRuns(runs[..n], timestamps, s, front[a]);
        var k :| Gives(runs[..n], timestamps, s, k, front[a]);
        assert runs[k].first <= runs[k].close < runs[n].first <= runs[n].close;
        SecondsOrdered(timestamps[runs[k].first] - s.start, timestamps[runs[n].first] - s.start);
        SecondsOrdered(timestamps[runs[k].close] - s.start, timestamps[runs[n].close] - s.start);
      }
    }
  }

  lemma SecondsOrdered(a: int, b: int)
    requires a <= b
    ensures Seconds(a) <= Seconds(b)
  {
  }

  /** The intervals that the detector makes from a log. */
  function Detected(landed: Flags, timestamps: seq<int>, s: Settings): seq<Interval>
    requires |timestamps| == |landed| && InBounds(Runs(landed, 0), |timestamps|)
  {
    Intervals(Runs(landed, 0), timestamps, s)
  }

  /** With timestamps in order, the detector's intervals are; with a non-negative margin, they do not overlap. */
  lemma DetectedInOrder(landed: Flags, timestamps: seq<int>, s: Settings)
    requires |timestamps| == |landed| && NonDecreasing(timestamps)
    ensures InBounds(Runs(landed, 0), |timestamps|)
    ensures Monotone(Detected(landed, timestamps, s))
    ensures s.margin >= 0.0 ==> Ordered(Detected(landed, timestamps, s))
  {
    RunsInBounds(landed);
    RunsAreExact(landed, 0);
    hide Runs, Intervals, Complete, Apart, Ordered, Monotone;
    var runs := Runs(landed, 0);
    assert forall k | 0 <= k < |runs| :: IsMaximal(landed, runs[k]);
    IntervalsAreMonotone(runs, timestamps, s);
    if s.margin >= 0.0 {
      IntervalsAreOrdered(runs, timestamps, s);
    }
  }

  /** No sample in the air is outside the whole flight. */
  lemma AirtimeIsWithinFlight(data: seq<int>, landed: Flags, timestamps: seq<int>, s: Settings, k: nat)
    requires |timestamps| == |landed| && NonDecreasing(timestamps) && InBounds(Runs(landed, 0), |timestamps|)
    requires k < |data| && InSome(data[k], Detected(landed, timestamps, s), s.start)
    ensures k in TakeOffToLastLanding(data, Detected(landed, timestamps, s), s.start)
  {
    DetectedInOrder(landed, timestamps, s);
    hide Detected, Where;
    var inAir := Detected(landed, timestamps, s);
    var l :| 0 <= l < |inAir| && Within(data[k], inAir[l], s.start);
    var n := |inAir| - 1;
    assert inAir[0].takeOff <= inAir[l].takeOff && inAir[l].landing <= inAir[n].landing;
    WhereIsExact(data, Interval(inAir[0].takeOff, inAir[n].landing), s.start, 0);
  }

  // ---------- from the log to the samples ----------

  /** A sample at this time was taken in the air, by the landed flag alone. */
  ghost predicate Airborne(landed: Flags, timestamps: seq<int>, s: Settings, t: int) {
    exists first, close :: InAirAt(landed, timestamps, s, t, first, close)
  }

  /**
   The detector and get_airtime() together: exactly the samples that lie, by the margin, inside a
   maximal run in the air that is long enough. If timestamps and data are in order and the margin is
   not negative, each comes once and in order; and all of them lie between the first take-off and
   the last landing.
   */
  method InAirSamples(landed: Flags, timestamps: seq<int>, s: Settings, data: seq<int>) returns (airtime: seq<nat>)
    requires |timestamps| == |landed|
    ensures forall k: nat :: k in airtime <==> k < |data| && Airborne(landed, timestamps, s, data[k])
    ensures NonDecreasing(timestamps) && NonDecreasing(data) && s.margin >= 0.0 ==> Increasing(airtime)
    ensures InBounds(Runs(landed, 0), |timestamps|)
    ensures NonDecreasing(timestamps) ==>
              forall k | k in airtime :: k in TakeOffToLastLanding(data, Detected(landed, timestamps, s), s.start)
  {
    var inAir := DetectAirtime(landed, timestamps, s);
    assert inAir == Detected(landed, timestamps, s);
    airtime := GetAirtime(data, inAir, s.start);
    if NonDecreasing(timestamps) {
      DetectedInOrder(landed, timestamps, s);
    }
    hide TakeOffToLastLanding, NonDecreasing, Ordered, Runs, InSome, Airborne, Increasing, Monotone, InBounds;
    forall k: nat
      ensures k in airtime <==> k < |data| && Airborne(landed, timestamps, s, data[k])
    {
      if k < |data| {
        AirborneIffDetected(landed, timestamps, s, data[k]);
      }
    }
    if NonDecreasing(timestamps) {
      forall k | k in airtime
        ensures k in TakeOffToLastLanding(data, Detected(landed, timestamps, s), s.start)
      {
        AirtimeIsWithinFlight(data, landed, timestamps, s, k);
      }
    }
  }

  lemma AirborneIffDetected(landed: Flags, timestamps: seq<int>, s: Settings, t: int)
    requires |timestamps| == |landed| && InBounds(Runs(landed, 0), |timestamps|)
    ensures Airborne(landed, timestamps, s, t) <==> InSome(t, Detected(landed, timestamps, s), s.start)
  {
    DetectionIsExact(landed, timestamps, s, t);
  }
}
