/** The hot-path tracker (`src/hot_path_tracker.rs`): execution counts, the mean execution time kept
    by truncating division, and the codes marked hot. */
module HotPathTracker {
  import opened Prelude

  /** One call of `track_execution`: a code id, its time in nanoseconds, and the complexity score of
      the code. */
  datatype Execution = Execution(code: nat, time: nat, score: real)

  datatype Config = Config(hotPathThreshold: nat, timeThreshold: nat)

  datatype Info = Info(count: nat, total: nat, average: nat, score: real, hot: bool)

  datatype State = State(paths: map<nat, Info>, tracked: nat, hotPaths: nat, executions: nat, mean: nat)

  predicate ShouldMark(config: Config, count: nat, time: nat, score: real) {
    || count >= config.hotPathThreshold
    || (time >= config.timeThreshold && score > 10.0)
    || (score > 20.0 && count >= 3)
    || (score > 50.0 && count >= 2)
  }

  // ------------------------------------------------------------------ the tracker

  function NextMean(mean: nat, executions: nat, time: nat): nat { (mean * executions + time) / (executions + 1) }

  function UpdatedInfo(config: Config, info: Info, e: Execution): Info {
    var count, total := info.count + 1, info.total + e.time;
    Info(count, total, total / count, info.score, info.hot || ShouldMark(config, count, e.time, info.score))
  }

  function NextInfo(config: Config, s: State, e: Execution): Info {
    UpdatedInfo(config, if e.code in s.paths then s.paths[e.code] else Info(0, 0, 0, e.score, false), e)
  }

  function StepTo(config: Config, s: State, e: Execution): State {
    var info := NextInfo(config, s, e);
    var newlyHot := info.hot && !(e.code in s.paths && s.paths[e.code].hot);
    State(s.paths[e.code := info], s.tracked + (if e.code in s.paths then 0 else 1),
          s.hotPaths + (if newlyHot then 1 else 0), s.executions + 1, NextMean(s.mean, s.executions, e.time))
  }

  class Tracker {
    const config: Config
    var paths: map<nat, Info>
    var tracked: nat
    var hotPaths: nat
    var executions: nat
    var mean: nat

    ghost function Now(): State
      reads this
    {
      State(paths, tracked, hotPaths, executions, mean)
    }

    constructor (config: Config)
      ensures this.config == config && Now() == RunTo(config, [])
    {
      this.config, paths := config, map[];
      tracked, hotPaths, executions, mean := 0, 0, 0, 0;
    }

    method TrackExecution(e: Execution)
      modifies `paths, `tracked, `hotPaths, `executions, `mean
      ensures Now() == StepTo(config, old(Now()), e)
    {
      var info := Info(0, 0, 0, e.score, false);
      if e.code in paths {
        info := paths[e.code];
      } else {
        tracked := tracked + 1;
      }
      var count := info.count + 1;
      var total := info.total + e.time;
      var wasHot := info.hot;
      info := info.(count := count, total := total, average := total / count);
      if ShouldMark(config, count, e.time, info.score) && !wasHot {
        info := info.(hot := true);
        hotPaths := hotPaths + 1;
      }
      paths := paths[e.code := info];
      executions := executions + 1;
      mean := (mean * (executions - 1) + e.time) / executions;
    }
  }

  /** The state after tracking some executions. */
  function RunTo(config: Config, h: seq<Execution>): State {
    if h == [] then State(map[], 0, 0, 0, 0)
    else StepTo(config, RunTo(config, h[..|h| - 1]), h[|h| - 1])
  }

  // ------------------------------------------------------------------ what a run records

  function Times(h: seq<Execution>): (r: seq<nat>)
    ensures |r| == |h| && forall k | 0 <= k < |h| :: r[k] == h[k].time
  {
    seq(|h|, k requires 0 <= k < |h| => h[k].time)
  }

  function Codes(h: seq<Execution>): (r: seq<nat>)
    ensures |r| == |h| && forall k | 0 <= k < |h| :: r[k] == h[k].code
  {
    seq(|h|, k requires 0 <= k < |h| => h[k].code)
  }

  function TimeOf(h: seq<Execution>, code: nat): nat {
    if h == [] then 0
    else TimeOf(h[..|h| - 1], code) + (if h[|h| - 1].code == code then h[|h| - 1].time else 0)
  }

  /** The score of a code is the one of its first execution. */
  ghost predicate FirstScore(h: seq<Execution>, code: nat, score: real) {
    exists k | 0 <= k < |h| && h[k].code == code && code !in Codes(h)[..k] :: h[k].score == score
  }

  /** Execution `k` meets one of the four conditions of a hot path: its code has run often enough, or it
      took long and the code is complex, or more complex code runs for the third time, or very complex
      code for the second. */
  ghost predicate Qualifies(config: Config, h: seq<Execution>, k: nat, score: real)
    requires k < |h|
  {
    var runs := multiset(Codes(h)[..k + 1])[h[k].code];
    || runs >= config.hotPathThreshold
    || (h[k].time >= config.timeThreshold && score > 10.0)
    || (runs >= 3 && score > 20.0)
    || (runs >= 2 && score > 50.0)
  }

  ghost predicate EverQualified(config: Config, h: seq<Execution>, code: nat, score: real) {
    exists k: nat | k < |h| && h[k].code == code :: Qualifies(config, h, k, score)
  }

  ghost predicate Records(config: Config, h: seq<Execution>, code: nat, info: Info) {
    && info.count == multiset(Codes(h))[code] && info.count > 0
    && info.total == TimeOf(h, code)
    && info.average == info.total / info.count
    && FirstScore(h, code, info.score)
    && (info.hot <==> EverQualified(config, h, code, info.score))
  }

  function HotCodes(s: State): set<nat> { set c | c in s.paths && s.paths[c].hot }

  ghost function AnyKey(paths: map<nat, Info>): (code: nat)
    requires paths != map[]
    ensures code in paths
  {
    assert exists c :: c in paths;
    var c: nat :| c in paths; c
  }

  /** The sum of the counts of all codes. */
  ghost function CountSum(paths: map<nat, Info>): nat
    decreases |paths|
  {
    if paths == map[] then 0
    else
      var c := AnyKey(paths);
      SmallerWithout(paths, c);
      paths[c].count + CountSum(paths - {c})
  }

  lemma SmallerWithout(paths: map<nat, Info>, code: nat)
    requires code in paths
    ensures |paths - {code}| < |paths|
  {
    assert paths.Keys == (paths - {code}).Keys + {code};
  }

  /** The sum does not depend on the order. */
  lemma {:induction false} CountSumFrom(paths: map<nat, Info>, code: nat)
    requires code in paths
    ensures CountSum(paths) == paths[code].count + CountSum(paths - {code})
    decreases |paths|
  {
    var c := AnyKey(paths);
    if c != code {
      SmallerWithout(paths, c);
      CountSumFrom(paths - {c}, code);
      SmallerWithout(paths, code);
      CountSumFrom(paths - {code}, c);
      assert paths - {c} - {code} == paths - {code} - {c};
    }
  }

  lemma CountSumWith(paths: map<nat, Info>, code: nat, info: Info)
    ensures CountSum(paths[code := info]) + (if code in paths then paths[code].count else 0) ==
      CountSum(paths) + info.count
  {
    CountSumFrom(paths[code := info], code);
    if code in paths {
      CountSumFrom(paths, code);
      assert paths[code := info] - {code} == paths - {code};
    } else {
      assert paths[code := info] - {code} == paths;
    }
  }

  /** The statistics agree with the history and with the map. */
  ghost predicate StatisticsAgree(h: seq<Execution>, s: State) {
    && (forall c :: c in s.paths <==> c in Codes(h))
    && s.tracked == |s.paths| && s.hotPaths == |HotCodes(s)|
    && s.executions == |h| == CountSum(s.paths) && s.mean == Mean(Times(h))
  }

  ghost predicate Accounted(config: Config, h: seq<Execution>, s: State) {
    StatisticsAgree(h, s) && forall c | c in s.paths :: Records(config, h, c, s.paths[c])
  }

  /** After any run: the count of a code is the number of its executions, and the counts add up to all
      executions; the number of hot paths is the number of codes marked hot; a code is hot exactly
      when one of its executions so far met the conditions, so it never cools. */
  lemma {:induction false} RunIsAccounted(config: Config, h: seq<Execution>)
    ensures Accounted(config, h, RunTo(config, h))
    decreases |h|
  {
    if h == [] {
      NothingIsAccounted(config);
    } else {
      var front, last := h[..|h| - 1], h[|h| - 1];
      assert front + [last] == h;
      RunIsAccounted(config, front);
      StepIsAccounted(config, front, RunTo(config, front), last);
    }
  }

  lemma NothingIsAccounted(config: Config)
    ensures Accounted(config, [], RunTo(config, []))
  {
    assert Times([]) == [] && Codes([]) == [];
    assert HotCodes(RunTo(config, [])) == {};
  }

  lemma StepIsAccounted(config: Config, h: seq<Execution>, s: State, e: Execution)
    requires Accounted(config, h, s)
    ensures Accounted(config, h + [e], StepTo(config, s, e))
  {
    StepStatistics(config, h, s, e);
    forall c | c in StepTo(config, s, e).paths ensures Records(config, h + [e], c, StepTo(config, s, e).paths[c]) {
      StepRecords(config, h, s, e, c);
    }
  }

  lemma StepStatistics(config: Config, h: seq<Execution>, s: State, e: Execution)
    requires StatisticsAgree(h, s)
    ensures StatisticsAgree(h + [e], StepTo(config, s, e))
  {
    HotCount(s, StepTo(config, s, e), e.code);
    CountSumWith(s.paths, e.code, NextInfo(config, s, e));
    CodesAndTimes(h, e);
  }

  lemma CodesAndTimes(h: seq<Execution>, e: Execution)
    ensures Codes(h + [e]) == Codes(h) + [e.code]
    ensures Mean(Times(h + [e])) == NextMean(Mean(Times(h)), |h|, e.time)
  {
    assert Times(h + [e]) == Times(h) + [e.time];
    assert (Times(h) + [e.time])[..|h|] == Times(h);
  }

  lemma StepRecords(config: Config, h: seq<Execution>, s: State, e: Execution, code: nat)
    requires Accounted(config, h, s) && code in StepTo(config, s, e).paths
    ensures Records(config, h + [e], code, StepTo(config, s, e).paths[code])
  {
    if code != e.code {
      OtherRecord(config, h, e, code, s.paths[code]);
    } else if code in s.paths {
      NextRecord(config, h, s.paths[code], e);
    } else {
      FirstRecord(config, h, s, e);
    }
  }

  lemma HotCount(s: State, t: State, code: nat)
    requires code in t.paths && t.paths == s.paths[code := t.paths[code]]
    requires code in s.paths && s.paths[code].hot ==> t.paths[code].hot
    ensures |t.paths| == |s.paths| + (if code in s.paths then 0 else 1)
    ensures |HotCodes(t)| == |HotCodes(s)| +
      (if t.paths[code].hot && !(code in s.paths && s.paths[code].hot) then 1 else 0)
  {
    SetAddSize(HotCodes(s), code);
    assert HotCodes(t) == if t.paths[code].hot then HotCodes(s) + {code} else HotCodes(s);
  }

  lemma QualifiesInLonger(config: Config, h: seq<Execution>, e: Execution, k: nat, score: real)
    requires k < |h|
    ensures Qualifies(config, h + [e], k, score) <==> Qualifies(config, h, k, score)
  {
    assert Codes(h + [e])[..k + 1] == Codes(h)[..k + 1];
  }

  lemma CountInLonger(h: seq<Execution>, e: Execution, code: nat)
    ensures multiset(Codes(h + [e]))[code] == multiset(Codes(h))[code] + (if e.code == code then 1 else 0)
    ensures TimeOf(h + [e], code) == TimeOf(h, code) + (if e.code == code then e.time else 0)
  {
    assert Codes(h + [e]) == Codes(h) + [e.code];
    assert (h + [e])[..|h|] == h;
  }

  lemma LastQualifies(config: Config, h: seq<Execution>, e: Execution, score: real)
    ensures Qualifies(config, h + [e], |h|, score) <==>
      ShouldMark(config, multiset(Codes(h))[e.code] + 1, e.time, score)
  {
    assert Codes(h + [e])[..|h| + 1] == Codes(h) + [e.code];
  }

  lemma StillQualified(config: Config, h: seq<Execution>, e: Execution, code: nat, score: real)
    requires EverQualified(config, h, code, score)
    ensures EverQualified(config, h + [e], code, score)
  {
    var k: nat :| k < |h| && h[k].code == code && Qualifies(config, h, k, score);
    QualifiesInLonger(config, h, e, k, score);
    assert (h + [e])[k].code == code;
  }

  /** Whether a code ever qualified, with one more execution. */
  lemma EverQualifiedLonger(config: Config, h: seq<Execution>, e: Execution, code: nat, score: real)
    ensures EverQualified(config, h + [e], code, score) <==>
      || EverQualified(config, h, code, score)
      || (e.code == code && ShouldMark(config, multiset(Codes(h))[code] + 1, e.time, score))
  {
    LastQualifies(config, h, e, score);
    assert (h + [e])[|h|] == e;
    if EverQualified(config, h, code, score) {
      StillQualified(config, h, e, code, score);
    }
    if EverQualified(config, h + [e], code, score) {
      var k: nat :| k < |h| + 1 && (h + [e])[k].code == code && Qualifies(config, h + [e], k, score);
      if k < |h| {
        QualifiesInLonger(config, h, e, k, score);
        assert h[k].code == code;
      }
    }
  }

  lemma FirstScoreLonger(h: seq<Execution>, e: Execution, code: nat, score: real)
    requires FirstScore(h, code, score)
    ensures FirstScore(h + [e], code, score)
  {
    var k :| 0 <= k < |h| && h[k].code == code && code !in Codes(h)[..k] && h[k].score == score;
    assert Codes(h + [e])[..k] == Codes(h)[..k] && (h + [e])[k] == h[k];
  }

  lemma OtherRecord(config: Config, h: seq<Execution>, e: Execution, code: nat, info: Info)
    requires Records(config, h, code, info) && e.code != code
    ensures Records(config, h + [e], code, info)
  {
    CountInLonger(h, e, code);
    EverQualifiedLonger(config, h, e, code, info.score);
    FirstScoreLonger(h, e, code, info.score);
  }

  lemma NextRecord(config: Config, h: seq<Execution>, info: Info, e: Execution)
    requires Records(config, h, e.code, info)
    ensures Records(config, h + [e], e.code, UpdatedInfo(config, info, e))
  {
    CountInLonger(h, e, e.code);
    EverQualifiedLonger(config, h, e, e.code, info.score);
    FirstScoreLonger(h, e, e.code, info.score);
  }

  lemma FirstRecord(config: Config, h: seq<Execution>, s: State, e: Execution)
    requires e.code !in s.paths && e.code !in Codes(h)
    ensures Records(config, h + [e], e.code, NextInfo(config, s, e))
  {
    CountInLonger(h, e, e.code);
    EverQualifiedLonger(config, h, e, e.code, e.score);
    NoTimeYet(h, e.code);
    assert !EverQualified(config, h, e.code, e.score) by {
      forall k: nat | k < |h| ensures h[k].code != e.code {
        assert Codes(h)[k] in Codes(h);
      }
    }
    assert Codes(h + [e])[..|h|] == Codes(h) && (h + [e])[|h|] == e;
  }

  lemma {:induction false} NoTimeYet(h: seq<Execution>, code: nat)
    requires code !in Codes(h)
    ensures TimeOf(h, code) == 0
    decreases |h|
  {
    if h != [] {
      assert Codes(h)[|h| - 1] in Codes(h);
      assert forall k | 0 <= k < |h| - 1 :: Codes(h[..|h| - 1])[k] == Codes(h)[k];
      NoTimeYet(h[..|h| - 1], code);
    }
  }

  /** Hot codes stay hot. */
  lemma HotStaysHot(config: Config, s: State, e: Execution)
    ensures HotCodes(s) <= HotCodes(StepTo(config, s, e))
  {
  }

  // ------------------------------------------------------------------ the running mean

  function Mean(times: seq<nat>): nat {
    if times == [] then 0
    else NextMean(Mean(times[..|times| - 1]), |times| - 1, times[|times| - 1])
  }

  function Sum(times: seq<nat>): nat {
    if times == [] then 0 else Sum(times[..|times| - 1]) + times[|times| - 1]
  }

  /** How far the mean has fallen behind: what truncation has lost so far. */
  function Lost(times: seq<nat>): int { Sum(times) - Mean(times) * |times| }

  lemma Division(x: nat, n: nat)
    requires n > 0
    ensures x == (x / n) * n + x % n
  {
  }

  lemma Times1(x: nat, n: nat)
    requires n > 0
    ensures x * n == x * (n - 1) + x
  {
  }

  lemma Grows(a: nat, b: nat, n: nat)
    requires a <= b
    ensures a * n <= b * n
  {
  }

  /** The numerator of the mean of some samples. */
  function Numerator(times: seq<nat>): nat
    requires times != []
  {
    Mean(times[..|times| - 1]) * (|times| - 1) + times[|times| - 1]
  }

  /** Each sample loses the remainder of one division. */
  lemma LossOfOne(times: seq<nat>)
    requires times != []
    ensures Lost(times) == Lost(times[..|times| - 1]) + Numerator(times) % |times|
    ensures Mean(times) == Numerator(times) / |times|
  {
    var n, x := |times|, Numerator(times);
    assert Mean(times) == x / n;
    LostIs(times[..n - 1], n - 1);
    LostIs(times, n);
    Division(x, n);
  }

  lemma LostIs(times: seq<nat>, n: nat)
    requires n == |times|
    ensures Lost(times) == Sum(times) - Mean(times) * n
  {
  }

  lemma Triangle(n: int)
    ensures n * (n - 1) == (n - 1) * (n - 2) + 2 * (n - 1)
  {
  }

  /** The integer mean never runs ahead of the true mean, and after n samples it is behind by at most
      (n - 1) / 2, whatever the samples are. */
  lemma {:induction false} MeanDrift(times: seq<nat>)
    ensures 0 <= Lost(times) && 2 * Lost(times) <= |times| * (|times| - 1)
    decreases |times|
  {
    if times != [] {
      MeanDrift(times[..|times| - 1]);
      LossOfOne(times);
      Triangle(|times|);
    }
  }

  /** What a sample must add to `x` for the largest remainder. */
  function Filler(x: nat, n: nat): nat
    requires n > 0
  {
    n - 1 + (n - x % n)
  }

  /** Samples for which every step loses as much as it can. */
  function Worst(n: nat): (times: seq<nat>)
    ensures |times| == n
  {
    if n == 0 then [] else Worst(n - 1) + [Filler(Mean(Worst(n - 1)) * (n - 1), n)]
  }

  /** The bound is reached for every number of samples, so no better one holds. */
  lemma {:induction false} DriftBoundIsReached(n: nat)
    ensures 2 * Lost(Worst(n)) == n * (n - 1)
  {
    if n > 0 {
      DriftBoundIsReached(n - 1);
      WorstLoss(n);
      Triangle(n);
    }
  }

  lemma WorstLoss(n: nat)
    requires n > 0
    ensures Lost(Worst(n)) == Lost(Worst(n - 1)) + n - 1
  {
    WorstNumerator(n);
    LossOfOne(Worst(n));
    LargestRemainder(Mean(Worst(n - 1)) * (n - 1), n);
  }

  lemma WorstNumerator(n: nat)
    requires n > 0
    ensures Worst(n)[..n - 1] == Worst(n - 1)
    ensures var x := Mean(Worst(n - 1)) * (n - 1); Numerator(Worst(n)) == x + Filler(x, n)
  {
  }

  lemma LargestRemainder(x: nat, n: nat)
    requires n > 0
    ensures (x + Filler(x, n)) % n == n - 1
  {
    var q := x / n;
    Division(x, n);
    Times1(n, q + 2);
    assert q * n + n == (q + 1) * n;
    assert x + Filler(x, n) == (q + 1) * n + (n - 1);
    RemainderIs(n, q + 1, n - 1);
  }

  lemma RemainderIs(n: nat, q: nat, r: nat)
    requires r < n
    ensures (q * n + r) % n == r
  {
    var x := q * n + r;
    Division(x, n);
    var d := x / n - q;
    assert d * n == r - x % n;
    if d != 0 { NotBetween(d, n); }
  }

  lemma NotBetween(d: int, n: int)
    requires d != 0 && n > 0
    ensures d * n >= n || d * n <= -n
  {
    if d > 0 { Grows(1, d, n); } else { Grows(1, -d, n); }
  }

  /** The mean lies between the smallest and the largest sample. */
  lemma {:induction false} MeanIsBetween(times: seq<nat>, low: nat, high: nat)
    requires times != [] && forall t | t in times :: low <= t <= high
    ensures low <= Mean(times) <= high
    decreases |times|
  {
    var n, front, last := |times|, times[..|times| - 1], times[|times| - 1];
    assert last in times;
    LossOfOne(times);
    if n == 1 {
      assert Numerator(times) == last && last / 1 == last;
    } else {
      assert forall t | t in front :: t in times;
      MeanIsBetween(front, low, high);
      BetweenStep(Mean(front), n, last, low, high);
    }
  }

  lemma BetweenStep(mean: nat, n: nat, last: nat, low: nat, high: nat)
    requires n > 0 && low <= mean <= high && low <= last <= high
    ensures low <= (mean * (n - 1) + last) / n <= high
  {
    var x := mean * (n - 1) + last;
    Grows(low, mean, n - 1);
    Grows(mean, high, n - 1);
    Times1(low, n);
    Times1(high, n);
    QuotientBetween(x, n, low, high);
  }

  lemma QuotientBetween(x: nat, n: nat, low: nat, high: nat)
    requires n > 0 && low * n <= x <= high * n
    ensures low <= x / n <= high
  {
    Division(x, n);
    QuotientNotBelow(x / n, x % n, n, low);
    QuotientNotAbove(x / n, x % n, n, high);
  }

  lemma QuotientNotBelow(q: nat, r: nat, n: nat, low: nat)
    requires r < n && low * n <= q * n + r
    ensures low <= q
  {
    if q < low {
      Grows(q + 1, low, n);
      OneMoreTime(q, n);
    }
  }

  lemma QuotientNotAbove(q: nat, r: nat, n: nat, high: nat)
    requires r < n && q * n + r <= high * n
    ensures q <= high
  {
    if q > high {
      Grows(high + 1, q, n);
      OneMoreTime(high, n);
    }
  }

  lemma OneMoreTime(q: nat, n: nat)
    ensures (q + 1) * n == q * n + n
  {
  }

  /** The intermediate product and sum fit whatever word the true total of the samples fits. */
  lemma MeanFitsTheSum(times: seq<nat>)
    requires times != []
    ensures Numerator(times) <= Sum(times)
  {
    MeanDrift(times[..|times| - 1]);
  }
}
