/** The node's channel assessment: rounds of concurrent probes at rising concurrency, until a
    round is unstable or the steps run out. Latencies are whole milliseconds. */
module ChannelAssessment {
  import opened OrderedDict

  const STABLE_LATENCY_MS := 20_000
  const RECOMMENDED_LATENCY_MS := 6_000
  const BALANCED_LATENCY_MS := 5_000
  const GROWTH_GUARD_MS := 5_000
  const MAX_ROUNDS := 999
  const FAILURE_DETAIL_LIMIT := 5
  const ROUND_STEPS: seq<nat> := [1, 2, 3, 4, 5, 6, 8, 10, 12, 14, 16, 18, 20, 24, 28, 32, 36, 40, 48, 56]

  /** How one probe ended; a round sees its probes in the order they complete. */
  datatype Probe = Answered(elapsedMs: int) | TimedOut(detail: string) | Failed(detail: string)

  datatype StopReason =
    | NoReason
    | Timeouts(count: nat)
    | Failures(count: nat)
    | AboveRecommended(average: nat)
    | AboveGrowth(average: nat, limit: nat)
    | AboveStable(average: nat)

  datatype Round = Round(
    concurrency: nat,
    channelCapacity: nat,
    successes: nat,
    failures: nat,
    timeouts: nat,
    averageMs: nat,
    maxMs: nat,
    stable: bool,
    stopReason: StopReason,
    failureDetails: seq<string>)

  // ----- one round -----

  function LatencyOf(p: Probe): nat {
    if p.Answered? && p.elapsedMs > 1 then p.elapsedMs else if p.Answered? then 1 else 0
  }

  function IsAnswer(p: Probe): nat { if p.Answered? then 1 else 0 }

  function IsFailure(p: Probe): nat { if p.Answered? then 0 else 1 }

  function IsTimeout(p: Probe): nat { if p.TimedOut? then 1 else 0 }

  function Total(probes: seq<Probe>, f: Probe -> nat): nat {
    if probes == [] then 0 else Total(probes[..|probes| - 1], f) + f(probes[|probes| - 1])
  }

  function Slowest(probes: seq<Probe>): nat {
    if probes == [] then 0
    else
      var m, l := Slowest(probes[..|probes| - 1]), LatencyOf(probes[|probes| - 1]);
      if l > m then l else m
  }

  function Details(probes: seq<Probe>): seq<string> {
    if probes == [] then []
    else
      var d, p := Details(probes[..|probes| - 1]), probes[|probes| - 1];
      if p.Answered? || |d| >= FAILURE_DETAIL_LIMIT then d else d + [p.detail]
  }

  function Average(total: nat, count: nat): nat { if count == 0 then 0 else total / count }

  /** `_latency_growth_limit_ms`; the growth ratio is 3.5. */
  function GrowthLimit(baseline: Option<int>): nat {
    if baseline == None || baseline.value <= 0 then RECOMMENDED_LATENCY_MS
    else
      var grown := baseline.value * 7 / 2;
      var guarded := if grown > GROWTH_GUARD_MS then grown else GROWTH_GUARD_MS;
      if guarded < RECOMMENDED_LATENCY_MS then guarded else RECOMMENDED_LATENCY_MS
  }

  function Verdict(requests: nat, successes: nat, failures: nat, timeouts: nat, average: nat, limit: nat)
    : (bool, StopReason)
  {
    (failures == 0 && timeouts == 0 && successes == requests
     && average <= STABLE_LATENCY_MS && average <= RECOMMENDED_LATENCY_MS && average <= limit,
     if timeouts > 0 then Timeouts(timeouts)
     else if failures > 0 then Failures(failures)
     else if average > RECOMMENDED_LATENCY_MS then AboveRecommended(average)
     else if average > limit then AboveGrowth(average, limit)
     else if average > STABLE_LATENCY_MS then AboveStable(average)
     else NoReason)
  }

  function RoundOf(probes: seq<Probe>, baseline: Option<int>): Round {
    var successes, failures, timeouts := Total(probes, IsAnswer), Total(probes, IsFailure), Total(probes, IsTimeout);
    var average := Average(Total(probes, LatencyOf), successes);
    var (stable, reason) := Verdict(|probes|, successes, failures, timeouts, average, GrowthLimit(baseline));
    Round(|probes|, 2 * |probes|, successes, failures, timeouts, average, Slowest(probes),
          stable, reason, Details(probes))
  }

  /** One more completed probe. */
  lemma Snoc(probes: seq<Probe>, n: nat)
    requires n < |probes|
    ensures Total(probes[..n + 1], IsAnswer) == Total(probes[..n], IsAnswer) + IsAnswer(probes[n])
    ensures Total(probes[..n + 1], IsFailure) == Total(probes[..n], IsFailure) + IsFailure(probes[n])
    ensures Total(probes[..n + 1], IsTimeout) == Total(probes[..n], IsTimeout) + IsTimeout(probes[n])
    ensures Total(probes[..n + 1], LatencyOf) == Total(probes[..n], LatencyOf) + LatencyOf(probes[n])
    ensures Slowest(probes[..n + 1]) ==
      if LatencyOf(probes[n]) > Slowest(probes[..n]) then LatencyOf(probes[n]) else Slowest(probes[..n])
    ensures Details(probes[..n + 1]) ==
      if probes[n].Answered? || |Details(probes[..n])| >= FAILURE_DETAIL_LIMIT then Details(probes[..n])
      else Details(probes[..n]) + [probes[n].detail]
  {
    assert probes[..n + 1][..n] == probes[..n];
  }

  /** `_run_round`: shared counters updated as the probes complete. */
  method RunRound(probes: seq<Probe>, baseline: Option<int>) returns (r: Round)
    ensures r == RoundOf(probes, baseline)
  {
    var latencies: seq<nat> := [];
    var sum, slowest := 0, 0;
    var successes, failures, timeouts := 0, 0, 0;
    var details: seq<string> := [];
    for n := 0 to |probes|
      invariant successes == |latencies| == Total(probes[..n], IsAnswer)
      invariant failures == Total(probes[..n], IsFailure) && timeouts == Total(probes[..n], IsTimeout)
      invariant sum == Total(probes[..n], LatencyOf) && slowest == Slowest(probes[..n])
      invariant details == Details(probes[..n])
    {
      Snoc(probes, n);
      match probes[n]
      case Answered(elapsed) =>
        var latency := if elapsed > 1 then elapsed else 1;
        successes := successes + 1;
        latencies := latencies + [latency];
        sum := sum + latency;
        slowest := if latency > slowest then latency else slowest;
      case TimedOut(detail) =>
        timeouts := timeouts + 1;
        failures := failures + 1;
        if |details| < FAILURE_DETAIL_LIMIT {
          details := details + [detail];
        }
      case Failed(detail) =>
        failures := failures + 1;
        if |details| < FAILURE_DETAIL_LIMIT {
          details := details + [detail];
        }
    }
    assert probes[..|probes|] == probes;
    var requests := |probes|;
    var average := Average(sum, |latencies|);
    var (stable, reason) := Verdict(requests, successes, failures, timeouts, average, GrowthLimit(baseline));
    r := Round(requests, if requests * 2 > requests then requests * 2 else requests, successes, failures, timeouts,
               average, slowest, stable, reason, details);
  }

  lemma {:induction false} CountsAddUp(probes: seq<Probe>)
    ensures Total(probes, IsAnswer) + Total(probes, IsFailure) == |probes|
    ensures Total(probes, IsTimeout) <= Total(probes, IsFailure)
    ensures |Details(probes)|
      == if Total(probes, IsFailure) < FAILURE_DETAIL_LIMIT then Total(probes, IsFailure) else FAILURE_DETAIL_LIMIT
  {
    if probes != [] {
      CountsAddUp(probes[..|probes| - 1]);
    }
  }

  /** One latency of at least 1 per success, and none above the slowest. */
  lemma {:induction false} LatencyBounds(probes: seq<Probe>)
    ensures Total(probes, IsAnswer) <= Total(probes, LatencyOf) <= Slowest(probes) * Total(probes, IsAnswer)
  {
    if probes != [] {
      var init, p := probes[..|probes| - 1], probes[|probes| - 1];
      LatencyBounds(init);
      Scale(Slowest(init), Slowest(probes), Total(init, IsAnswer));
      if p.Answered? {
        OneMore(Slowest(probes), Total(init, IsAnswer));
      }
    }
  }

  lemma Scale(a: nat, b: nat, k: nat)
    requires a <= b
    ensures a * k <= b * k
  {
  }

  lemma OneMore(b: nat, k: nat)
    ensures b * (k + 1) == b * k + b
  {
  }

  lemma AverageBounds(total: nat, count: nat, slowest: nat)
    requires count <= total <= slowest * count
    ensures count > 0 ==> 1 <= Average(total, count) <= slowest
  {
    if count > 0 {
      OneMore(count, slowest);
      assert total < (slowest + 1) * count;
      QuotientBelow(total, slowest + 1, count);
      QuotientFrom(total, count);
    }
  }

  lemma QuotientBelow(total: nat, bound: nat, count: nat)
    requires count > 0 && total < bound * count
    ensures total / count < bound
  {
    if total / count >= bound {
      Scale(bound, total / count, count);
    }
  }

  lemma QuotientFrom(total: nat, count: nat)
    requires 0 < count <= total
    ensures total / count >= 1
  {
  }

  lemma GrowthLimitRange(baseline: Option<int>)
    ensures GROWTH_GUARD_MS <= GrowthLimit(baseline) <= RECOMMENDED_LATENCY_MS
  {
  }

  /** Main result on one round, for every order in which its probes complete. */
  lemma RoundAccounting(probes: seq<Probe>, baseline: Option<int>)
    ensures var r := RoundOf(probes, baseline);
      r.successes + r.failures == |probes| == r.concurrency
      && r.channelCapacity == 2 * r.concurrency
      && r.timeouts <= r.failures
      && |r.failureDetails| == (if r.failures < 5 then r.failures else 5)
      && (r.successes > 0 ==> 1 <= r.averageMs <= r.maxMs)
      && (r.stable <==> r.stopReason == NoReason)
      && (r.stable <==> r.failures == 0 && r.averageMs <= GrowthLimit(baseline))
  {
    CountsAddUp(probes);
    LatencyBounds(probes);
    AverageBounds(Total(probes, LatencyOf), Total(probes, IsAnswer), Slowest(probes));
    GrowthLimitRange(baseline);
  }

  // ----- what a round says about its probes -----

  lemma {:induction false} SumWithin(probes: seq<Probe>, lo: nat, hi: nat)
    requires 1 <= lo && forall i :: 0 <= i < |probes| && probes[i].Answered? ==> lo <= probes[i].elapsedMs <= hi
    ensures lo * Total(probes, IsAnswer) <= Total(probes, LatencyOf) <= hi * Total(probes, IsAnswer)
  {
    if probes != [] {
      var init := probes[..|probes| - 1];
      SumWithin(init, lo, hi);
      if probes[|probes| - 1].Answered? {
        OneMore(lo, Total(init, IsAnswer));
        OneMore(hi, Total(init, IsAnswer));
      }
    }
  }

  lemma QuotientWithin(total: nat, count: nat, lo: nat, hi: nat)
    requires count > 0 && lo * count <= total <= hi * count
    ensures lo <= total / count <= hi
  {
    OneMore(count, hi);
    QuotientBelow(total, hi + 1, count);
    if total / count < lo {
      Scale(total / count + 1, lo, count);
    }
  }

  lemma {:induction false} SomeAnswer(probes: seq<Probe>)
    ensures Total(probes, IsAnswer) > 0 <==> exists i :: 0 <= i < |probes| && probes[i].Answered?
  {
    if probes != [] {
      var init := probes[..|probes| - 1];
      SomeAnswer(init);
      if i :| 0 <= i < |init| && init[i].Answered? {
        assert probes[i].Answered?;
      }
    }
  }

  /** The average lies within any bounds that hold the answered latencies. */
  lemma AverageWithin(probes: seq<Probe>, baseline: Option<int>, lo: nat, hi: nat)
    requires 1 <= lo && forall i :: 0 <= i < |probes| && probes[i].Answered? ==> lo <= probes[i].elapsedMs <= hi
    requires exists i :: 0 <= i < |probes| && probes[i].Answered?
    ensures lo <= RoundOf(probes, baseline).averageMs <= hi
  {
    SomeAnswer(probes);
    SumWithin(probes, lo, hi);
    QuotientWithin(Total(probes, LatencyOf), Total(probes, IsAnswer), lo, hi);
  }

  /** The average is the sum of the measured latencies over the answers, rounded down. */
  lemma AverageIsExact(probes: seq<Probe>, baseline: Option<int>, elapsed: seq<nat>)
    requires |elapsed| == |probes| > 0
    requires forall i :: 0 <= i < |probes| ==> elapsed[i] > 0 && probes[i] == Answered(elapsed[i])
    ensures var a := RoundOf(probes, baseline).averageMs; a * |probes| <= Sum(elapsed) < (a + 1) * |probes|
  {
    SumIsTotal(probes, elapsed);
    var n := |probes|;
    OneMore(n, Sum(elapsed) / n);
  }

  function Sum(s: seq<nat>): nat { if s == [] then 0 else Sum(s[..|s| - 1]) + s[|s| - 1] }

  lemma {:induction false} SumIsTotal(probes: seq<Probe>, elapsed: seq<nat>)
    requires |elapsed| == |probes|
    requires forall i :: 0 <= i < |probes| ==> elapsed[i] > 0 && probes[i] == Answered(elapsed[i])
    ensures Total(probes, LatencyOf) == Sum(elapsed) && Total(probes, IsAnswer) == |probes|
  {
    if probes != [] {
      SumIsTotal(probes[..|probes| - 1], elapsed[..|probes| - 1]);
    }
  }

  lemma {:induction false} SomeTimeout(probes: seq<Probe>)
    ensures Total(probes, IsTimeout) > 0 <==> exists i :: 0 <= i < |probes| && probes[i].TimedOut?
    ensures Total(probes, IsFailure) > 0 <==> exists i :: 0 <= i < |probes| && !probes[i].Answered?
  {
    if probes != [] {
      var init := probes[..|probes| - 1];
      SomeTimeout(init);
      if i :| 0 <= i < |init| && init[i].TimedOut? {
        assert probes[i].TimedOut?;
      }
      if i :| 0 <= i < |init| && !init[i].Answered? {
        assert !probes[i].Answered?;
      }
    }
  }

  /** The growth limit is 3.5 times the baseline, rounded down and kept within 5000..6000 ms. */
  lemma GrowthLimitExact(b: int)
    ensures GrowthLimit(None) == 6000 && (b <= 0 || b >= 1715 ==> GrowthLimit(Some(b)) == 6000)
    ensures 0 < b <= 1428 ==> GrowthLimit(Some(b)) == 5000
    ensures 1428 < b < 1715 ==> 2 * GrowthLimit(Some(b)) <= 7 * b < 2 * GrowthLimit(Some(b)) + 2
  {
  }

  /** The verdict in terms of the probes: a timeout outranks a failure, a failure outranks a slow
      average, and the limits are tested in rising order of leniency. The last stop reason of the
      code, an average above 20000 ms, is never given. */
  lemma VerdictOf(probes: seq<Probe>, baseline: Option<int>)
    ensures var r := RoundOf(probes, baseline);
      var answered := forall i :: 0 <= i < |probes| ==> probes[i].Answered?;
      (r.stable <==> answered && r.averageMs <= GrowthLimit(baseline))
      && (r.stopReason.Timeouts? <==> exists i :: 0 <= i < |probes| && probes[i].TimedOut?)
      && (r.stopReason.Failures? <==> !answered && forall i :: 0 <= i < |probes| ==> !probes[i].TimedOut?)
      && (r.stopReason.AboveRecommended? <==> answered && r.averageMs > 6000)
      && (r.stopReason.AboveGrowth? <==> answered && GrowthLimit(baseline) < r.averageMs <= 6000)
      && !r.stopReason.AboveStable?
  {
    SomeTimeout(probes);
    CountsAddUp(probes);
    GrowthLimitRange(baseline);
  }

  /** A round whose answers all took more than 6000 ms is unstable, one whose answers all took at
      most 5000 ms is stable, whatever the baseline. */
  lemma SlowAndFast(probes: seq<Probe>, baseline: Option<int>)
    requires probes != [] && forall i :: 0 <= i < |probes| ==> probes[i].Answered?
    ensures (forall i :: 0 <= i < |probes| ==> probes[i].elapsedMs > 6000) ==>
      !RoundOf(probes, baseline).stable && RoundOf(probes, baseline).stopReason.AboveRecommended?
    ensures (forall i :: 0 <= i < |probes| ==> 1 <= probes[i].elapsedMs <= 5000) ==> RoundOf(probes, baseline).stable
  {
    VerdictOf(probes, baseline);
    assert probes[0].Answered?;
    GrowthLimitRange(baseline);
    if forall i :: 0 <= i < |probes| ==> probes[i].elapsedMs > 6000 {
      var hi := HighestElapsed(probes);
      AverageWithin(probes, baseline, 6001, hi);
    }
    if forall i :: 0 <= i < |probes| ==> 1 <= probes[i].elapsedMs <= 5000 {
      AverageWithin(probes, baseline, 1, 5000);
    }
  }

  lemma {:induction false} HighestElapsed(probes: seq<Probe>) returns (hi: nat)
    ensures forall i :: 0 <= i < |probes| && probes[i].Answered? ==> probes[i].elapsedMs <= hi
  {
    hi := 0;
    if probes != [] {
      var p := probes[|probes| - 1];
      hi := HighestElapsed(probes[..|probes| - 1]);
      if p.Answered? && p.elapsedMs > hi {
        hi := p.elapsedMs;
      }
    }
  }

  /** The reported maximum is that of the answers, at least 1 ms, and 0 without any. */
  lemma MaximumIsSlowest(probes: seq<Probe>, baseline: Option<int>)
    ensures var m := RoundOf(probes, baseline).maxMs;
      (forall i :: 0 <= i < |probes| && probes[i].Answered? ==> probes[i].elapsedMs <= m && 1 <= m)
      && (m == 0 || exists i :: 0 <= i < |probes| && probes[i].Answered? && (probes[i].elapsedMs == m || m == 1))
  {
    SlowestIsMax(probes);
  }

  /** All failure details in the order of completion. */
  function AllDetails(probes: seq<Probe>): seq<string> {
    if probes == [] then []
    else
      var p := probes[|probes| - 1];
      AllDetails(probes[..|probes| - 1]) + if p.Answered? then [] else [p.detail]
  }

  /** The kept details are the first five. */
  lemma {:induction false} DetailsAreFirst(probes: seq<Probe>)
    ensures Details(probes) == if |AllDetails(probes)| <= 5 then AllDetails(probes) else AllDetails(probes)[..5]
  {
    if probes != [] {
      DetailsAreFirst(probes[..|probes| - 1]);
    }
  }

  // ----- the completion order does not matter -----

  /** One occurrence of `x` taken out. */
  function Without(q: seq<Probe>, x: Probe): seq<Probe> {
    if q == [] then []
    else if q[|q| - 1] == x then q[..|q| - 1]
    else Without(q[..|q| - 1], x) + [q[|q| - 1]]
  }

  lemma {:induction false} WithoutTotal(q: seq<Probe>, x: Probe, f: Probe -> nat)
    requires x in q
    ensures Total(q, f) == Total(Without(q, x), f) + f(x)
  {
    var init, last := q[..|q| - 1], q[|q| - 1];
    if last != x {
      assert q == init + [last];
      WithoutTotal(init, x, f);
      var r := Without(init, x);
      assert (r + [last])[..|r|] == r;
    }
  }

  lemma {:induction false} WithoutMultiset(q: seq<Probe>, x: Probe)
    requires x in q
    ensures multiset(Without(q, x)) == multiset(q) - multiset{x}
  {
    var init, last := q[..|q| - 1], q[|q| - 1];
    assert q == init + [last];
    if last != x {
      WithoutMultiset(init, x);
    }
  }

  lemma {:induction false} TotalOfPermutation(p: seq<Probe>, q: seq<Probe>, f: Probe -> nat)
    requires multiset(p) == multiset(q)
    ensures Total(p, f) == Total(q, f)
    decreases |p|
  {
    if p == [] {
      assert |multiset(q)| == |q|;
    } else {
      var x := p[|p| - 1];
      assert x in multiset(p) && x in multiset(q);
      WithoutTotal(q, x, f);
      WithoutMultiset(p, x);
      WithoutMultiset(q, x);
      TotalOfPermutation(p[..|p| - 1], Without(q, x), f);
    }
  }

  lemma {:induction false} SlowestIsMax(p: seq<Probe>)
    ensures forall i :: 0 <= i < |p| ==> LatencyOf(p[i]) <= Slowest(p)
    ensures Slowest(p) == 0 || exists i :: 0 <= i < |p| && LatencyOf(p[i]) == Slowest(p)
  {
    if p != [] {
      var init := p[..|p| - 1];
      SlowestIsMax(init);
      if Slowest(p) != 0 && Slowest(p) == Slowest(init) {
        var i :| 0 <= i < |init| && LatencyOf(init[i]) == Slowest(init);
        assert LatencyOf(p[i]) == Slowest(p);
      }
    }
  }

  lemma SlowestDominates(p: seq<Probe>, q: seq<Probe>)
    requires forall x :: x in p ==> x in q
    ensures Slowest(p) <= Slowest(q)
  {
    SlowestIsMax(p);
    SlowestIsMax(q);
    if Slowest(p) != 0 {
      var i :| 0 <= i < |p| && LatencyOf(p[i]) == Slowest(p);
      assert p[i] in q;
    }
  }

  /** Probes that complete in another order give the same round, except for which failure
      details are kept. */
  lemma OrderIrrelevant(p: seq<Probe>, q: seq<Probe>, baseline: Option<int>)
    requires multiset(p) == multiset(q)
    ensures RoundOf(p, baseline).(failureDetails := []) == RoundOf(q, baseline).(failureDetails := [])
  {
    TotalOfPermutation(p, q, IsAnswer);
    TotalOfPermutation(p, q, IsFailure);
    TotalOfPermutation(p, q, IsTimeout);
    TotalOfPermutation(p, q, LatencyOf);
    assert |multiset(p)| == |p| && |multiset(q)| == |q|;
    assert forall x :: x in p <==> x in multiset(p);
    assert forall x :: x in q <==> x in multiset(q);
    SlowestDominates(p, q);
    SlowestDominates(q, p);
  }

  // ----- steps -----

  function RoundCount(maxRounds: int): nat {
    if maxRounds < 1 then 1 else if maxRounds > MAX_ROUNDS then MAX_ROUNDS else maxRounds
  }

  function StepAt(i: nat): nat { if i < 20 then ROUND_STEPS[i] else 56 + 8 * (i - 19) }

  function Steps(maxRounds: int): (steps: seq<nat>)
    ensures |steps| == RoundCount(maxRounds) && forall i :: 0 <= i < |steps| ==> steps[i] == StepAt(i)
  {
    seq(RoundCount(maxRounds), i requires 0 <= i => StepAt(i))
  }

  /** `_resolve_round_steps` */
  method ResolveRoundSteps(maxRounds: int) returns (steps: seq<nat>)
    ensures steps == Steps(maxRounds)
  {
    var rounds := RoundCount(maxRounds);
    var candidates := ROUND_STEPS;
    while |candidates| < rounds
      invariant 20 <= |candidates| && (|candidates| <= rounds || |candidates| == 20)
      invariant forall i :: 0 <= i < |candidates| ==> candidates[i] == StepAt(i)
    {
      candidates := candidates + [candidates[|candidates| - 1] + 8];
    }
    steps := seq(rounds, i requires 0 <= i < |candidates| => if candidates[i] > 1 then candidates[i] else 1);
  }

  lemma StepsIncrease(i: nat, j: nat)
    requires i < j
    ensures 1 <= StepAt(i) < StepAt(j)
  {
    if j < 20 {
      StepTableIncreases(i, j);
    } else if i < 20 {
      StepTableIncreases(i, 20);
    }
  }

  /** The search starts with one probe and goes on in steps of one up to 6, of two up to 20, of four
      up to 40, and of eight from there. */
  lemma StepSizes(i: nat)
    ensures StepAt(0) == 1
    ensures StepAt(i + 1) - StepAt(i)
      == if StepAt(i) < 6 then 1 else if StepAt(i) < 20 then 2 else if StepAt(i) < 40 then 4 else 8
  {
    if i >= 20 {
      StepsIncrease(19, i);
    }
  }

  lemma StepTableIncreases(i: nat, j: nat)
    requires i < j <= 20
    ensures 1 <= ROUND_STEPS[i] && (j < 20 ==> ROUND_STEPS[i] < ROUND_STEPS[j]) && ROUND_STEPS[i] <= 56
  {
  }

  /** Every step fits the node's configured ranges (128 tasks, 512 channels) exactly up to 29 rounds. */
  lemma StepsFitRanges(maxRounds: int)
    ensures (forall i :: 0 <= i < RoundCount(maxRounds) ==> StepAt(i) <= 128 && 2 * StepAt(i) <= 512)
      <==> maxRounds <= 29
  {
    if maxRounds <= 29 {
      forall i | 0 <= i < RoundCount(maxRounds) ensures StepAt(i) <= 128 {
        if i < 20 {
          StepTableIncreases(i, 20);
        }
      }
    } else {
      assert StepAt(29) == 136;
    }
  }

  // ----- the search -----

  /** `None` where nothing stable was found. */
  datatype Assessment = Assessment(rounds: seq<Round>, recommended: Option<Round>, balanced: Option<Round>)

  /** The first round's average, once it was stable. */
  function Baseline(rounds: seq<Round>): Option<int> {
    if rounds == [] || !rounds[0].stable || rounds[0].averageMs == 0 then None else Some(rounds[0].averageMs)
  }

  /** The rounds are what the escalation runs: one per step, each stable but possibly the last,
      and stopping early only behind an unstable one. */
  ghost predicate Escalation(rounds: seq<Round>, steps: seq<nat>, probe: (nat, nat) -> seq<Probe>) {
    |rounds| <= |steps|
    && (forall i :: 0 <= i < |rounds| ==> RunAtStep(rounds, i, steps, probe))
    && (forall i :: 0 <= i < |rounds| - 1 ==> rounds[i].stable)
  }

  /** Round `i` is what its probes make of it, given the baseline of the rounds before. */
  ghost predicate RunAtStep(rounds: seq<Round>, i: nat, steps: seq<nat>, probe: (nat, nat) -> seq<Probe>)
    requires i < |rounds| <= |steps|
  {
    rounds[i] == RoundOf(probe(i + 1, steps[i]), Baseline(rounds[..i]))
  }

  /** The last stable round so far. */
  function Recommended(rounds: seq<Round>): Option<Round> {
    if Stable(rounds) == [] then None else Some(Stable(rounds)[|Stable(rounds)| - 1])
  }

  /** `_select_balanced_round` */
  function BalancedRound(rounds: seq<Round>, stable: Round): Round {
    var stableRounds := Stable(rounds);
    if stableRounds == [] then stable
    else
      var candidates := Balanced(stableRounds);
      if candidates != [] then candidates[|candidates| - 1] else stableRounds[0]
  }

  function Stable(rounds: seq<Round>): seq<Round> {
    if rounds == [] then []
    else Stable(rounds[..|rounds| - 1]) + if rounds[|rounds| - 1].stable then [rounds[|rounds| - 1]] else []
  }

  function Balanced(rounds: seq<Round>): seq<Round> {
    if rounds == [] then []
    else
      Balanced(rounds[..|rounds| - 1])
      + if rounds[|rounds| - 1].averageMs <= BALANCED_LATENCY_MS then [rounds[|rounds| - 1]] else []
  }

  /** `run_channel_assessment`: `probe(k, c)` is how the `c` probes of round `k` complete. */
  method RunChannelAssessment(maxRounds: int, probe: (nat, nat) -> seq<Probe>) returns (a: Assessment)
    requires forall k, c :: |probe(k, c)| == c
    ensures a.rounds != [] && |a.rounds| <= RoundCount(maxRounds)
    ensures Escalation(a.rounds, Steps(maxRounds), probe)
    ensures |a.rounds| < RoundCount(maxRounds) ==> !a.rounds[|a.rounds| - 1].stable
    ensures a.recommended == Recommended(a.rounds)
    ensures a.balanced == (if a.recommended == None then None else Some(BalancedRound(a.rounds, a.recommended.value)))
  {
    var steps := ResolveRoundSteps(maxRounds);
    var rounds: seq<Round> := [];
    var stableRound: Option<Round> := None;
    var baseline: Option<int> := None;
    for n := 0 to |steps|
      invariant |rounds| == n && Escalation(rounds, steps, probe)
      invariant forall i :: 0 <= i < n ==> rounds[i].stable
      invariant baseline == Baseline(rounds)
      invariant stableRound == Recommended(rounds)
      invariant n > 0 ==> baseline.Some?
    {
      var before := rounds;
      var result := RunRound(probe(n + 1, steps[n]), baseline);
      rounds := rounds + [result];
      EscalationGrows(before, result, steps, probe);
      RoundAdded(before, result);
      if result.stable {
        StepsIncrease(n, n + 1);
        StableRoundTakesTime(probe(n + 1, steps[n]), baseline);
        stableRound := Some(result);
        if baseline == None && result.averageMs > 0 {
          baseline := Some(result.averageMs);
        }
      } else {
        break;
      }
    }
    if stableRound == None {
      return Assessment(rounds, None, None);
    }
    a := Assessment(rounds, stableRound, Some(BalancedRound(rounds, stableRound.value)));
  }

  lemma StableRoundTakesTime(probes: seq<Probe>, baseline: Option<int>)
    requires probes != [] && RoundOf(probes, baseline).stable
    ensures RoundOf(probes, baseline).averageMs > 0
  {
    RoundAccounting(probes, baseline);
  }

  lemma EscalationGrows(rounds: seq<Round>, r: Round, steps: seq<nat>, probe: (nat, nat) -> seq<Probe>)
    requires |rounds| < |steps| && Escalation(rounds, steps, probe)
    requires forall i :: 0 <= i < |rounds| ==> rounds[i].stable
    requires r == RoundOf(probe(|rounds| + 1, steps[|rounds|]), Baseline(rounds))
    ensures Escalation(rounds + [r], steps, probe)
  {
    var more := rounds + [r];
    assert rounds[..|rounds|] == rounds;
    forall i | 0 <= i < |more| ensures RunAtStep(more, i, steps, probe) {
      assert more[..i] == rounds[..i];
      if i < |rounds| {
        assert RunAtStep(rounds, i, steps, probe);
      }
    }
  }

  lemma RoundAdded(rounds: seq<Round>, r: Round)
    ensures Baseline(rounds + [r]) ==
      if rounds != [] then Baseline(rounds) else if r.stable && r.averageMs > 0 then Some(r.averageMs) else None
    ensures Recommended(rounds + [r]) == if r.stable then Some(r) else Recommended(rounds)
  {
    assert (rounds + [r])[..|rounds|] == rounds;
    assert Stable(rounds) + [] == Stable(rounds);
  }

  lemma {:induction false} StableMembers(rounds: seq<Round>, r: Round)
    ensures r in Stable(rounds) <==> r in rounds && r.stable
    ensures r in Balanced(rounds) <==> r in rounds && r.averageMs <= BALANCED_LATENCY_MS
    decreases |rounds|
  {
    if rounds != [] {
      StableMembers(rounds[..|rounds| - 1], r);
      assert rounds == rounds[..|rounds| - 1] + [rounds[|rounds| - 1]];
    }
  }

  ghost predicate Rising(rounds: seq<Round>) {
    forall i, j :: 0 <= i < j < |rounds| ==> rounds[i].concurrency < rounds[j].concurrency
  }

  lemma RisesOnto(kept: seq<Round>, rounds: seq<Round>)
    requires rounds != [] && Rising(rounds) && Rising(kept)
    requires forall r :: r in kept ==> r in rounds[..|rounds| - 1]
    ensures Rising(kept + [rounds[|rounds| - 1]]) && kept + [] == kept
  {
    var init, last := rounds[..|rounds| - 1], rounds[|rounds| - 1];
    forall i | 0 <= i < |kept| ensures kept[i].concurrency < last.concurrency {
      assert kept[i] in kept;
      var j :| 0 <= j < |init| && init[j] == kept[i];
      assert rounds[j] == kept[i];
    }
  }

  lemma {:induction false} FiltersRise(rounds: seq<Round>)
    requires Rising(rounds)
    ensures Rising(Stable(rounds)) && Rising(Balanced(rounds))
  {
    if rounds != [] {
      var init := rounds[..|rounds| - 1];
      FiltersRise(init);
      forall r | r in Stable(init) || r in Balanced(init) ensures r in init {
        StableMembers(init, r);
      }
      RisesOnto(Stable(init), rounds);
      RisesOnto(Balanced(init), rounds);
    }
  }

  lemma EscalationRises(rounds: seq<Round>, maxRounds: int, probe: (nat, nat) -> seq<Probe>)
    requires forall k, c :: |probe(k, c)| == c
    requires Escalation(rounds, Steps(maxRounds), probe)
    ensures Rising(rounds) && forall i :: 0 <= i < |rounds| ==> rounds[i].concurrency == StepAt(i)
  {
    forall i | 0 <= i < |rounds| ensures rounds[i].concurrency == StepAt(i) {
      assert RunAtStep(rounds, i, Steps(maxRounds), probe);
      RoundAccounting(probe(i + 1, Steps(maxRounds)[i]), Baseline(rounds[..i]));
    }
    forall i, j | 0 <= i < j < |rounds| ensures rounds[i].concurrency < rounds[j].concurrency {
      StepsIncrease(i, j);
    }
  }

  lemma LastIsLargest(rounds: seq<Round>, r: Round)
    requires Rising(rounds) && r in rounds
    ensures r.concurrency <= rounds[|rounds| - 1].concurrency
    ensures rounds[0].concurrency <= r.concurrency
  {
  }

  lemma RecommendedIsLargest(rounds: seq<Round>, r: Round)
    requires Rising(rounds) && r in rounds && r.stable
    ensures Recommended(rounds).Some?
    ensures var best := Recommended(rounds).value; best in rounds && best.stable && r.concurrency <= best.concurrency
  {
    StableMembers(rounds, r);
    FiltersRise(rounds);
    LastIsLargest(Stable(rounds), r);
    StableMembers(rounds, Recommended(rounds).value);
  }

  lemma BalancedIsBest(rounds: seq<Round>, best: Round, r: Round)
    requires Rising(rounds) && r in rounds && r.stable
    ensures var b := BalancedRound(rounds, best);
      b in rounds && b.stable
      && (r.averageMs <= 5000 ==> b.averageMs <= 5000 && r.concurrency <= b.concurrency)
      && (b.averageMs > 5000 ==> b.concurrency <= r.concurrency)
  {
    var s := Stable(rounds);
    StableMembers(rounds, r);
    FiltersRise(rounds);
    FiltersRise(s);
    var b := BalancedRound(rounds, best);
    assert b in s || b in Balanced(s);
    StableMembers(s, b);
    StableMembers(rounds, b);
    StableMembers(s, r);
    StableMembers(s, b);
    LastIsLargest(s, r);
    if r in Balanced(s) {
      LastIsLargest(Balanced(s), r);
    }
  }

  /** Main result on the search: the recommendation is the largest stable concurrency tried; the
      balanced choice is a stable round no larger: the largest stable one within 5000 ms on
      average, or the smallest stable one if none is. */
  lemma ChoicesAreBest(rounds: seq<Round>, maxRounds: int, probe: (nat, nat) -> seq<Probe>, r: Round)
    requires forall k, c :: |probe(k, c)| == c
    requires Escalation(rounds, Steps(maxRounds), probe)
    requires r in rounds && r.stable
    ensures Recommended(rounds).Some?
    ensures var best := Recommended(rounds).value; var b := BalancedRound(rounds, best);
      best.stable && best in rounds && r.concurrency <= best.concurrency
      && b.stable && b in rounds && b.concurrency <= best.concurrency
      && (r.averageMs <= 5000 ==> b.averageMs <= 5000 && r.concurrency <= b.concurrency)
      && (b.averageMs > 5000 ==> r.averageMs > 5000 && b.concurrency <= r.concurrency)
  {
    EscalationRises(rounds, maxRounds, probe);
    RecommendedIsLargest(rounds, r);
    BalancedIsBest(rounds, Recommended(rounds).value, r);
    RecommendedIsLargest(rounds, BalancedRound(rounds, Recommended(rounds).value));
  }

  /** When a round of the search is stable: all its probes answered within 6000 ms on average, and
      behind the first round also within 5000 ms or 3.5 times the average of the first. */
  lemma StableInSearch(rounds: seq<Round>, i: nat, maxRounds: int, probe: (nat, nat) -> seq<Probe>)
    requires forall k, c :: |probe(k, c)| == c
    requires Escalation(rounds, Steps(maxRounds), probe) && i < |rounds|
    ensures var probes := probe(i + 1, StepAt(i)); var a := rounds[i].averageMs;
      rounds[i].stable <==>
        (forall j :: 0 <= j < |probes| ==> probes[j].Answered?) && a <= 6000
        && (i == 0 || a <= 5000 || 2 * a <= 7 * rounds[0].averageMs)
  {
    assert RunAtStep(rounds, i, Steps(maxRounds), probe);
    VerdictOf(probe(i + 1, StepAt(i)), Baseline(rounds[..i]));
    if i > 0 {
      assert RunAtStep(rounds, 0, Steps(maxRounds), probe);
      StepsIncrease(0, 1);
      StableRoundTakesTime(probe(1, StepAt(0)), Baseline(rounds[..0]));
      assert Baseline(rounds[..i]) == Some(rounds[0].averageMs);
    }
  }

  /** Up to 29 rounds the recommendation fits the node's configured ranges. */
  lemma RecommendationFits(rounds: seq<Round>, maxRounds: int, probe: (nat, nat) -> seq<Probe>, r: Round)
    requires forall k, c :: |probe(k, c)| == c
    requires Escalation(rounds, Steps(maxRounds), probe) && r in rounds && maxRounds <= 29
    ensures 1 <= r.concurrency <= 128 && 1 <= r.channelCapacity <= 512
  {
    EscalationRises(rounds, maxRounds, probe);
    StepsFitRanges(maxRounds);
    var i :| 0 <= i < |rounds| && rounds[i] == r;
    StepsIncrease(i, i + 1);
    assert RunAtStep(rounds, i, Steps(maxRounds), probe);
  }

  // ----- a node that is always fast -----

  /** Every probe answers within a millisecond. */
  function Fast(round: nat, concurrency: nat): (probes: seq<Probe>)
    ensures |probes| == concurrency && forall i :: 0 <= i < concurrency ==> probes[i] == Answered(1)
  {
    seq(concurrency, _ => Answered(1))
  }

  lemma {:induction false} AllAnswered(probes: seq<Probe>)
    requires forall i :: 0 <= i < |probes| ==> probes[i] == Answered(1)
    ensures Total(probes, IsFailure) == 0 && Slowest(probes) <= 1
  {
    if probes != [] {
      AllAnswered(probes[..|probes| - 1]);
    }
  }

  lemma FastRoundStable(round: nat, concurrency: nat, baseline: Option<int>)
    requires concurrency > 0
    ensures RoundOf(Fast(round, concurrency), baseline).stable
  {
    var probes := Fast(round, concurrency);
    AllAnswered(probes);
    RoundAccounting(probes, baseline);
    GrowthLimitRange(baseline);
  }

  lemma {:induction false} FastEscalation(maxRounds: int, n: nat) returns (rounds: seq<Round>)
    requires n <= RoundCount(maxRounds)
    ensures |rounds| == n && Escalation(rounds, Steps(maxRounds), Fast)
    ensures forall i :: 0 <= i < n ==> rounds[i].stable
  {
    rounds := [];
    if n > 0 {
      var before := FastEscalation(maxRounds, n - 1);
      var steps := Steps(maxRounds);
      StepsIncrease(n - 1, n);
      FastRoundStable(n, steps[n - 1], Baseline(before));
      var r := RoundOf(Fast(n, steps[n - 1]), Baseline(before));
      EscalationGrows(before, r, steps, Fast);
      rounds := before + [r];
    }
  }

  lemma LastStepFits(maxRounds: int)
    ensures StepAt(RoundCount(maxRounds) - 1) <= 128 <==> maxRounds <= 29
  {
    var last := RoundCount(maxRounds) - 1;
    if last < 29 {
      StepsIncrease(last, 29);
      StepsFitRanges(maxRounds);
    } else if last > 29 {
      StepsIncrease(29, last);
    }
  }

  lemma LastRecommended(rounds: seq<Round>)
    requires rounds != [] && rounds[|rounds| - 1].stable
    ensures Recommended(rounds) == Some(rounds[|rounds| - 1])
  {
    var last := |rounds| - 1;
    RoundAdded(rounds[..last], rounds[last]);
    assert rounds == rounds[..last] + [rounds[last]];
  }

  /** The bound of 29 is exact: on a fast node the search tries every step, recommends the last,
      and that fits the configured ranges if and only if `max_rounds` is at most 29. */
  lemma FastNodeRecommendation(maxRounds: int) returns (rounds: seq<Round>, last: Round)
    ensures |rounds| == RoundCount(maxRounds) && Escalation(rounds, Steps(maxRounds), Fast)
    ensures Recommended(rounds) == Some(last) && last.channelCapacity == 2 * last.concurrency
    ensures last.concurrency <= 128 && last.channelCapacity <= 512 <==> maxRounds <= 29
  {
    rounds := FastEscalation(maxRounds, RoundCount(maxRounds));
    last := rounds[|rounds| - 1];
    LastRecommended(rounds);
    EscalationRises(rounds, maxRounds, Fast);
    assert RunAtStep(rounds, |rounds| - 1, Steps(maxRounds), Fast);
    LastStepFits(maxRounds);
  }
}
