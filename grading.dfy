/**
 * Speed-aware grading: per-deck response-time statistics with percentiles and a warm-up
 * phase, the grade a review earns from correctness and speed, and the response record.
 */
module Grading {
  import opened Builtins
  import opened Collections
  import opened DeckTypes

  datatype Percentiles = Percentiles(p25: int, p50: int, p75: int, p90: int)

  /** Response times of one deck in milliseconds, their percentiles and the warm-up flag. */
  datatype SpeedStats = SpeedStats(responses: seq<int>, percentiles: Percentiles, isWarmedUp: bool)

  /** The spaced-repetition library's four ratings. */
  datatype Rating = Again | Hard | Good | Easy

  /** The library's numbering of the ratings. */
  function RatingValue(r: Rating): int
  {
    match r
    case Again => 1
    case Hard => 2
    case Good => 3
    case Easy => 4
  }

  /** The warm-up length used when the caller gives none, and the settings' default. */
  const DEFAULT_WARMUP_TARGET := 50

  /** `(a, b) => a - b`: the numeric comparator. */
  function Ascending(a: int, b: int): int
  {
    a - b
  }

  lemma AscendingIsConsistent()
    ensures IsConsistentComparator(Ascending)
  {
  }

  /** The head of an ascending list is its least element, and its tail is ascending too. */
  lemma AscendingHeadIsLeast(a: seq<int>)
    requires SortedBy(a, Ascending) && a != []
    ensures forall x :: x in a ==> a[0] <= x
    ensures SortedBy(a[1..], Ascending)
  {
    assert forall i :: 0 < i < |a| ==> Ascending(a[0], a[i]) <= 0;
    forall i, j | 0 <= i < j < |a[1..]| ensures Ascending(a[1..][i], a[1..][j]) <= 0 {
      assert Ascending(a[i + 1], a[j + 1]) <= 0;
    }
  }

  /** Two ascending lists with the same elements are the same list. */
  lemma {:induction false} SortedAscendingUnique(a: seq<int>, b: seq<int>)
    requires SortedBy(a, Ascending) && SortedBy(b, Ascending)
    requires multiset(a) == multiset(b)
    ensures a == b
  {
    assert |a| == |multiset(a)| == |multiset(b)| == |b|;
    if a != [] {
      SameHeads(a, b);
      AscendingHeadIsLeast(a);
      AscendingHeadIsLeast(b);
      TailMultiset(a);
      TailMultiset(b);
      SortedAscendingUnique(a[1..], b[1..]);
      assert a == [a[0]] + a[1..] && b == [b[0]] + b[1..];
    }
  }

  lemma SameHeads(a: seq<int>, b: seq<int>)
    requires SortedBy(a, Ascending) && SortedBy(b, Ascending)
    requires multiset(a) == multiset(b) && a != [] && b != []
    ensures a[0] == b[0]
  {
    AscendingHeadIsLeast(a);
    AscendingHeadIsLeast(b);
    assert a[0] in multiset(b) && b[0] in multiset(a);
    assert a[0] in b && b[0] in a;
  }

  lemma TailMultiset(a: seq<int>)
    requires a != []
    ensures multiset(a[1..]) == multiset(a) - multiset{a[0]}
  {
    assert a == [a[0]] + a[1..];
  }

  /** `[...times].sort((a, b) => a - b)`. */
  function SortedTimes(times: seq<int>): (sorted: seq<int>)
    ensures multiset(sorted) == multiset(times) && |sorted| == |times|
    ensures forall i, j :: 0 <= i < j < |sorted| ==> sorted[i] <= sorted[j]
  {
    AscendingIsConsistent();
    SortBySortsAndPermutes(times, Ascending);
    SortBy(times, Ascending)
  }

  /** `Math.floor(n * p)` for p = 0.25, 0.5, 0.75 and 0.9 are ordered ranks below `n`. */
  lemma PercentileRanks(n: nat)
    requires n > 0
    ensures 0 <= n / 4 <= n / 2 <= 3 * n / 4 <= 9 * n / 10 < n
  {
  }

  /** How many samples are strictly below `v`. */
  function CountBelow(times: seq<int>, v: int): nat
  {
    if times == [] then 0 else (if times[0] < v then 1 else 0) + CountBelow(times[1..], v)
  }

  /** How many samples are at or below `v`. */
  function CountAtMost(times: seq<int>, v: int): nat
  {
    if times == [] then 0 else (if times[0] <= v then 1 else 0) + CountAtMost(times[1..], v)
  }

  /** Both counts are the lengths of filters of the samples. */
  lemma {:induction false} CountsAreFilters(times: seq<int>, v: int, below: int -> bool, atMost: int -> bool)
    requires forall t :: below(t) == (t < v)
    requires forall t :: atMost(t) == (t <= v)
    ensures CountBelow(times, v) == |Filter(times, below)|
    ensures CountAtMost(times, v) == |Filter(times, atMost)|
    decreases |times|
  {
    if times != [] {
      CountsAreFilters(times[1..], v, below, atMost);
    }
  }

  /**
   * `v` sits at rank `k` (counting from 0) of the ascending order of the samples: at most
   * `k` samples lie below it and more than `k` lie at or below it.
   */
  predicate AtRank(times: seq<int>, v: int, k: nat)
  {
    CountBelow(times, v) <= k < CountAtMost(times, v)
  }

  /** The counts see the samples only, not their order. */
  lemma CountsIgnoreOrder(a: seq<int>, b: seq<int>, v: int)
    requires multiset(a) == multiset(b)
    ensures CountBelow(a, v) == CountBelow(b, v) && CountAtMost(a, v) == CountAtMost(b, v)
  {
    var below := (t: int) => t < v;
    var atMost := (t: int) => t <= v;
    CountsAreFilters(a, v, below, atMost);
    CountsAreFilters(b, v, below, atMost);
    FilterOfPermutation(a, b, below);
    FilterOfPermutation(a, b, atMost);
  }

  /** In an ascending list, the element at index `k` is at rank `k`. */
  lemma SortedElementAtRank(sorted: seq<int>, k: nat)
    requires forall i, j :: 0 <= i < j < |sorted| ==> sorted[i] <= sorted[j]
    requires k < |sorted|
    ensures AtRank(sorted, sorted[k], k)
  {
    var v := sorted[k];
    var below := (t: int) => t < v;
    var atMost := (t: int) => t <= v;
    CountsAreFilters(sorted, v, below, atMost);
    assert sorted == sorted[..k] + sorted[k..];
    FilterAppend(sorted[..k], sorted[k..], below);
    FilterNone(sorted[k..], below);
    assert sorted == sorted[..k + 1] + sorted[k + 1..];
    FilterAppend(sorted[..k + 1], sorted[k + 1..], atMost);
    FilterAll(sorted[..k + 1], atMost);
  }

  /**
   * `calculatePercentiles`: zeros for no samples; otherwise the samples at ranks
   * floor(n/4), floor(n/2), floor(3n/4) and floor(9n/10) of the ascending order.
   */
  function CalculatePercentiles(times: seq<int>): (p: Percentiles)
    ensures times == [] ==> p == Percentiles(0, 0, 0, 0)
    ensures times != [] ==> p.p25 in times && p.p50 in times && p.p75 in times && p.p90 in times
    ensures times != [] ==>
      var n := |times|;
      && AtRank(times, p.p25, n / 4) && AtRank(times, p.p50, n / 2)
      && AtRank(times, p.p75, 3 * n / 4) && AtRank(times, p.p90, 9 * n / 10)
    ensures p.p25 <= p.p50 <= p.p75 <= p.p90
  {
    if times == [] then Percentiles(0, 0, 0, 0)
    else
      var sorted := SortedTimes(times);
      var n := |times|;
      PercentilesOfSorted(sorted, times);
      Percentiles(sorted[n / 4], sorted[n / 2], sorted[3 * n / 4], sorted[9 * n / 10])
  }

  /** The samples of an ascending permutation at the four percentile ranks. */
  lemma PercentilesOfSorted(sorted: seq<int>, times: seq<int>)
    requires forall i, j :: 0 <= i < j < |sorted| ==> sorted[i] <= sorted[j]
    requires multiset(sorted) == multiset(times) && |sorted| == |times| && times != []
    ensures var n := |times|;
      && 0 <= n / 4 <= n / 2 <= 3 * n / 4 <= 9 * n / 10 < n
      && sorted[n / 4] in times && sorted[n / 2] in times
      && sorted[3 * n / 4] in times && sorted[9 * n / 10] in times
      && AtRank(times, sorted[n / 4], n / 4) && AtRank(times, sorted[n / 2], n / 2)
      && AtRank(times, sorted[3 * n / 4], 3 * n / 4) && AtRank(times, sorted[9 * n / 10], 9 * n / 10)
      && sorted[n / 4] <= sorted[n / 2] <= sorted[3 * n / 4] <= sorted[9 * n / 10]
  {
    var n := |times|;
    PercentileRanks(n);
    var i25, i50, i75, i90 := n / 4, n / 2, 3 * n / 4, 9 * n / 10;
    assert sorted[i25] <= sorted[i50] <= sorted[i75] <= sorted[i90];
    RankedPair(sorted, times, i25, i50);
    RankedPair(sorted, times, i75, i90);
  }

  /** Two percentile ranks at once, to keep each proof obligation small. */
  lemma RankedPair(sorted: seq<int>, times: seq<int>, k: nat, l: nat)
    requires forall i, j :: 0 <= i < j < |sorted| ==> sorted[i] <= sorted[j]
    requires multiset(sorted) == multiset(times) && k < |sorted| && l < |sorted|
    ensures sorted[k] in times && AtRank(times, sorted[k], k)
    ensures sorted[l] in times && AtRank(times, sorted[l], l)
  {
    PercentileAtRank(sorted, times, k);
    PercentileAtRank(sorted, times, l);
  }

  lemma PercentileAtRank(sorted: seq<int>, times: seq<int>, k: nat)
    requires forall i, j :: 0 <= i < j < |sorted| ==> sorted[i] <= sorted[j]
    requires multiset(sorted) == multiset(times) && k < |sorted|
    ensures sorted[k] in times && AtRank(times, sorted[k], k)
  {
    PermutationKeepsElement(sorted, times, k);
    SortedElementAtRank(sorted, k);
    CountsIgnoreOrder(sorted, times, sorted[k]);
  }

  lemma PermutationKeepsElement(s: seq<int>, t: seq<int>, k: nat)
    requires multiset(s) == multiset(t) && k < |s|
    ensures s[k] in t
  {
    assert s[k] in multiset(s);
  }

  /** The percentiles depend on the samples only, not on the order they came in. */
  lemma PercentilesIgnoreOrder(a: seq<int>, b: seq<int>)
    requires multiset(a) == multiset(b)
    ensures CalculatePercentiles(a) == CalculatePercentiles(b)
  {
    assert |a| == |multiset(a)| == |multiset(b)| == |b|;
    if a != [] {
      SortedAscendingUnique(SortedTimes(a), SortedTimes(b));
    }
  }

  lemma SortedFourSamples(times: seq<int>)
    requires multiset(times) == multiset([100, 200, 300, 400])
    ensures SortedTimes(times) == [100, 200, 300, 400]
  {
    var ascending := [100, 200, 300, 400];
    assert SortedBy(ascending, Ascending);
    var sorted := SortedTimes(times);
    assert SortedBy(sorted, Ascending);
    SortedAscendingUnique(sorted, ascending);
  }

  /** The samples 100, 200, 300 and 400 in any order: ranks 1, 2, 3 and 3 of the ascending copy. */
  lemma PercentilesOfFourSamples(times: seq<int>)
    requires multiset(times) == multiset([100, 200, 300, 400])
    ensures CalculatePercentiles(times) == Percentiles(200, 300, 400, 400)
  {
    SortedFourSamples(times);
    assert |times| == |SortedTimes(times)| == 4;
  }

  /**
   * What every stored statistic satisfies: its percentiles come from its samples, and it
   * is warmed up once it has at least one sample and at least `warmupTarget` of them.
   */
  ghost predicate IsConsistent(s: SpeedStats, warmupTarget: int)
  {
    && s.percentiles == CalculatePercentiles(s.responses)
    && (s.isWarmedUp <==> |s.responses| > 0 && |s.responses| >= warmupTarget)
  }

  /** `createDefaultSpeedStats`: no samples, zero percentiles, not warmed up. */
  function CreateDefaultSpeedStats(): (s: SpeedStats)
    ensures s.responses == [] && !s.isWarmedUp
    ensures forall warmupTarget :: IsConsistent(s, warmupTarget)
  {
    SpeedStats([], Percentiles(0, 0, 0, 0), false)
  }

  /**
   * `updateSpeedStats`: the new sample is appended, the percentiles are recomputed from
   * all samples, and the deck is warmed up when the samples reach `warmupTarget`.
   */
  function UpdateSpeedStats(current: SpeedStats, responseTime: int, warmupTarget: int): (s: SpeedStats)
    ensures s.responses == current.responses + [responseTime]
    ensures IsConsistent(s, warmupTarget)
  {
    var responses := current.responses + [responseTime];
    SpeedStats(responses, CalculatePercentiles(responses), |responses| >= warmupTarget)
  }

  /** The statistics after recording `times` one after another. */
  function RecordAll(s: SpeedStats, times: seq<int>, warmupTarget: int): SpeedStats
    decreases |times|
  {
    if times == [] then s else RecordAll(UpdateSpeedStats(s, times[0], warmupTarget), times[1..], warmupTarget)
  }

  /** Recording keeps every sample, in arrival order. */
  lemma {:induction false} RecordAllAppends(s: SpeedStats, times: seq<int>, warmupTarget: int)
    ensures RecordAll(s, times, warmupTarget).responses == s.responses + times
    decreases |times|
  {
    if times != [] {
      RecordAllAppends(UpdateSpeedStats(s, times[0], warmupTarget), times[1..], warmupTarget);
      assert times == [times[0]] + times[1..];
    }
  }

  /** Recording keeps the statistics consistent. */
  lemma {:induction false} RecordAllKeepsConsistent(s: SpeedStats, times: seq<int>, warmupTarget: int)
    requires IsConsistent(s, warmupTarget)
    ensures IsConsistent(RecordAll(s, times, warmupTarget), warmupTarget)
    decreases |times|
  {
    if times != [] {
      RecordAllKeepsConsistent(UpdateSpeedStats(s, times[0], warmupTarget), times[1..], warmupTarget);
    }
  }

  /**
   * From the default statistics, the warm-up ends exactly when `warmupTarget` responses
   * (and at least one) have been recorded, and the percentiles are those of all of them.
   */
  lemma WarmUpLength(times: seq<int>, warmupTarget: int)
    ensures RecordAll(CreateDefaultSpeedStats(), times, warmupTarget).responses == times
    ensures RecordAll(CreateDefaultSpeedStats(), times, warmupTarget).isWarmedUp
      <==> |times| > 0 && |times| >= warmupTarget
    ensures RecordAll(CreateDefaultSpeedStats(), times, warmupTarget).percentiles == CalculatePercentiles(times)
  {
    RecordAllAppends(CreateDefaultSpeedStats(), times, warmupTarget);
    RecordAllKeepsConsistent(CreateDefaultSpeedStats(), times, warmupTarget);
    assert [] + times == times;
  }

  /** Once warmed up, a deck stays warmed up. */
  lemma WarmUpIsPermanent(s: SpeedStats, responseTime: int, warmupTarget: int)
    requires IsConsistent(s, warmupTarget) && s.isWarmedUp
    ensures UpdateSpeedStats(s, responseTime, warmupTarget).isWarmedUp
  {
  }

  /**
   * `calculateGrade`: a wrong answer is Again; a right one is Good during warm-up, and
   * afterwards Easy, Good, Hard or Again by the quartile band its time falls in.
   */
  function CalculateGrade(correct: bool, responseTime: int, speedStats: SpeedStats): (r: Rating)
    ensures !correct ==> r == Again
    ensures correct && !speedStats.isWarmedUp ==> r == Good
    ensures correct && speedStats.isWarmedUp ==>
      var p := speedStats.percentiles;
      && (r == Easy <==> responseTime <= p.p25)
      && (r == Good <==> p.p25 < responseTime <= p.p50)
      && (r == Hard <==> p.p50 < responseTime <= p.p75 && p.p25 < responseTime)
      && (r == Again <==> p.p75 < responseTime && p.p50 < responseTime && p.p25 < responseTime)
  {
    if !correct then Again
    else if !speedStats.isWarmedUp then Good
    else if responseTime <= speedStats.percentiles.p25 then Easy
    else if responseTime <= speedStats.percentiles.p50 then Good
    else if responseTime <= speedStats.percentiles.p75 then Hard
    else Again
  }

  /** Answering faster never earns a lower grade. */
  lemma GradeMonotoneInTime(correct: bool, faster: int, slower: int, speedStats: SpeedStats)
    requires faster <= slower
    ensures RatingValue(CalculateGrade(correct, faster, speedStats))
      >= RatingValue(CalculateGrade(correct, slower, speedStats))
  {
  }

  /**
   * With consistent warmed-up statistics, a correct answer no slower than every recorded
   * sample is Easy, and one slower than every recorded sample is Again.
   */
  lemma GradeAgainstSamples(responseTime: int, speedStats: SpeedStats, warmupTarget: int)
    requires IsConsistent(speedStats, warmupTarget) && speedStats.isWarmedUp
    ensures (forall t :: t in speedStats.responses ==> responseTime <= t)
      ==> CalculateGrade(true, responseTime, speedStats) == Easy
    ensures (forall t :: t in speedStats.responses ==> responseTime > t)
      ==> CalculateGrade(true, responseTime, speedStats) == Again
  {
    var p := CalculatePercentiles(speedStats.responses);
    assert p.p25 in speedStats.responses && p.p75 in speedStats.responses;
  }

  /** One answer as the session log stores it; the timestamp is milliseconds since the epoch. */
  datatype ResponseRecord = ResponseRecord(cardId: string, answer: Answer, correct: bool, responseTime: int, timestamp: int)

  /** Within one kind, answers that print the same are the same answer. */
  lemma AnswerTextInjective(a: Answer, b: Answer)
    requires SameKind(a, b) && AnswerText(a) == AnswerText(b)
    ensures a == b
  {
    if a.NumberAnswer? {
      IntToStringInjective(a.n, b.n);
    }
  }

  /**
   * `createResponseRecord`: correct when both answers have the same type and print the
   * same, which is when they are the same answer. `now` stands for the clock.
   */
  function CreateResponseRecord(cardId: string, userAnswer: Answer, correctAnswer: Answer, responseTime: int, now: int): (r: ResponseRecord)
    ensures r.correct <==> userAnswer == correctAnswer
    ensures r.cardId == cardId && r.answer == userAnswer
    ensures r.responseTime == responseTime && r.timestamp == now
  {
    var isCorrect := SameKind(userAnswer, correctAnswer) && AnswerText(userAnswer) == AnswerText(correctAnswer);
    if isCorrect then
      AnswerTextInjective(userAnswer, correctAnswer);
      ResponseRecord(cardId, userAnswer, true, responseTime, now)
    else
      ResponseRecord(cardId, userAnswer, false, responseTime, now)
  }

  /**
   * The record the answer handler evidently means to log: the typed text with the verdict
   * the deck's own answer check gave, rather than a second, literal comparison.
   */
  function RecordCheckedResponse(cardId: string, userAnswer: string, check: AnswerCheckResult, responseTime: int, now: int): (r: ResponseRecord)
    ensures r.correct == check.isCorrect
    ensures r.cardId == cardId && r.answer == TextAnswer(userAnswer)
    ensures r.responseTime == responseTime && r.timestamp == now
  {
    ResponseRecord(cardId, TextAnswer(userAnswer), check.isCorrect, responseTime, now)
  }
}
