/**
 * The review scheduler: which cards are due, the two orders cards are reviewed in, the
 * choice of the next card, the collection statistics and the upcoming-review histogram.
 * Times are integer milliseconds since the epoch; the clock and `Math.random()` are
 * parameters.
 */
module Scheduler {
  import opened Wrappers
  import opened Builtins
  import opened Collections
  import opened DeckTypes

  /** `isCardDue`: due at or before `now`. */
  predicate IsCardDue(card: FsrsCard, now: int)
  {
    card.due <= now
  }

  /** `getDueCards`: the due cards, in input order. */
  function GetDueCards(cards: seq<Card>, now: int): (r: seq<Card>)
    ensures forall c :: c in r <==> c in cards && IsCardDue(c.fsrsCard, now)
    ensures forall c :: multiset(r)[c] == if IsCardDue(c.fsrsCard, now) then multiset(cards)[c] else 0
    ensures IsSubsequence(r, cards)
  {
    var p := (c: Card) => IsCardDue(c.fsrsCard, now);
    forall c ensures multiset(Filter(cards, p))[c] == if p(c) then multiset(cards)[c] else 0 {
      FilterMultiplicity(cards, p, c);
    }
    Filter(cards, p)
  }

  /** `getNotDueCards`: the cards not yet due, in input order. */
  function GetNotDueCards(cards: seq<Card>, now: int): (r: seq<Card>)
    ensures forall c :: c in r <==> c in cards && !IsCardDue(c.fsrsCard, now)
    ensures forall c :: multiset(r)[c] == if !IsCardDue(c.fsrsCard, now) then multiset(cards)[c] else 0
    ensures IsSubsequence(r, cards)
  {
    var p := (c: Card) => !IsCardDue(c.fsrsCard, now);
    forall c ensures multiset(Filter(cards, p))[c] == if p(c) then multiset(cards)[c] else 0 {
      FilterMultiplicity(cards, p, c);
    }
    Filter(cards, p)
  }

  /** Every card is in exactly one of the two lists. */
  lemma DueSplitPartitions(cards: seq<Card>, now: int)
    ensures multiset(GetDueCards(cards, now)) + multiset(GetNotDueCards(cards, now)) == multiset(cards)
    ensures |GetDueCards(cards, now)| + |GetNotDueCards(cards, now)| == |cards|
  {
    FilterPartition(cards, (c: Card) => IsCardDue(c.fsrsCard, now), (c: Card) => !IsCardDue(c.fsrsCard, now));
  }

  /**
   * The state-priority table, doubled so that every entry is an integer: New 0,
   * Learning 2, Relearning 3, Review 4, and 1998 for a state the table lacks.
   */
  function StatePriority(state: int): int
  {
    if state == STATE_NEW then 0
    else if state == STATE_LEARNING then 2
    else if state == STATE_RELEARNING then 3
    else if state == STATE_REVIEW then 4
    else 1998
  }

  /** The table orders New, Learning, Relearning, Review, then any other state. */
  lemma StatePriorityOrder(other: int)
    requires other !in {STATE_NEW, STATE_LEARNING, STATE_REVIEW, STATE_RELEARNING}
    ensures StatePriority(STATE_NEW) < StatePriority(STATE_LEARNING) < StatePriority(STATE_RELEARNING)
      < StatePriority(STATE_REVIEW) < StatePriority(other)
  {
  }

  /** The comparator of `sortCardsByDueDate`. */
  function DueComparator(a: Card, b: Card): int
  {
    a.fsrsCard.due - b.fsrsCard.due
  }

  /** The comparator of `sortCardsByStatePriority`: priority first, then due time. */
  function PriorityComparator(a: Card, b: Card): int
  {
    var pa := StatePriority(a.fsrsCard.state);
    var pb := StatePriority(b.fsrsCard.state);
    if pa != pb then pa - pb else a.fsrsCard.due - b.fsrsCard.due
  }

  /** `a` comes no later than `b` by the key (priority, due). */
  predicate PriorityKeyLeq(a: Card, b: Card)
  {
    var pa := StatePriority(a.fsrsCard.state);
    var pb := StatePriority(b.fsrsCard.state);
    pa < pb || (pa == pb && a.fsrsCard.due <= b.fsrsCard.due)
  }

  lemma DueComparatorIsConsistent()
    ensures IsConsistentComparator(DueComparator)
  {
  }

  lemma PriorityComparatorIsConsistent()
    ensures IsConsistentComparator(PriorityComparator)
    ensures forall a, b :: PriorityComparator(a, b) <= 0 <==> PriorityKeyLeq(a, b)
  {
  }

  /** `sortCardsByDueDate`: an ascending-by-due permutation of a copy. */
  function SortCardsByDueDate(cards: seq<Card>): (r: seq<Card>)
    ensures multiset(r) == multiset(cards) && |r| == |cards|
    ensures forall i, j :: 0 <= i < j < |r| ==> r[i].fsrsCard.due <= r[j].fsrsCard.due
  {
    DueComparatorIsConsistent();
    SortBySortsAndPermutes(cards, DueComparator);
    SortBy(cards, DueComparator)
  }

  /** `sortCardsByStatePriority`: a permutation of a copy, ascending by (priority, due). */
  function SortCardsByStatePriority(cards: seq<Card>): (r: seq<Card>)
    ensures multiset(r) == multiset(cards) && |r| == |cards|
    ensures forall i, j :: 0 <= i < j < |r| ==> PriorityKeyLeq(r[i], r[j])
  {
    PriorityComparatorIsConsistent();
    SortBySortsAndPermutes(cards, PriorityComparator);
    SortBy(cards, PriorityComparator)
  }

  /** The not-due cards that are still New, in input order. */
  function NewNotDueCards(cards: seq<Card>, now: int): (r: seq<Card>)
    ensures forall c :: c in r <==> c in cards && !IsCardDue(c.fsrsCard, now) && c.fsrsCard.state == STATE_NEW
    ensures forall c :: multiset(r)[c] == (if !IsCardDue(c.fsrsCard, now) && c.fsrsCard.state == STATE_NEW
                                           then multiset(cards)[c] else 0)
    ensures IsSubsequence(r, cards)
  {
    var notDue := GetNotDueCards(cards, now);
    var p := (c: Card) => c.fsrsCard.state == STATE_NEW;
    forall c ensures multiset(Filter(notDue, p))[c] == if p(c) then multiset(notDue)[c] else 0 {
      FilterMultiplicity(notDue, p, c);
    }
    SubsequenceTransitive(Filter(notDue, p), notDue, cards);
    Filter(notDue, p)
  }

  /** How many of the new cards the random choice ranges over: `Math.min(5, newCards.length)`. */
  function NewCardWindow(newCount: nat): (w: nat)
    ensures w <= 5 && w <= newCount
    ensures w == 5 || w == newCount
  {
    if newCount < 5 then newCount else 5
  }

  /**
   * Index `i` holds the first card, in list order, with the least (priority, due) key:
   * it comes before or with every card, and every card before it comes strictly after it.
   */
  predicate IsFirstByPriority(s: seq<Card>, i: int)
  {
    && 0 <= i < |s|
    && (forall c :: c in s ==> PriorityKeyLeq(s[i], c))
    && (forall j :: 0 <= j < i ==> !PriorityKeyLeq(s[j], s[i]))
  }

  /** Index `i` holds the first card, in list order, with the least due time. */
  predicate IsFirstEarliest(s: seq<Card>, i: int)
  {
    && 0 <= i < |s|
    && (forall c :: c in s ==> s[i].fsrsCard.due <= c.fsrsCard.due)
    && (forall j :: 0 <= j < i ==> s[j].fsrsCard.due > s[i].fsrsCard.due)
  }

  /**
   * The first element of the due-order copy comes before or with every card; the sort is
   * stable, so among cards due at the same time it is the first in input order.
   */
  lemma EarliestDueFirst(cards: seq<Card>)
    requires cards != []
    ensures SortCardsByDueDate(cards)[0] in cards
    ensures forall c :: c in cards ==> SortCardsByDueDate(cards)[0].fsrsCard.due <= c.fsrsCard.due
    ensures exists i :: IsFirstEarliest(cards, i) && SortCardsByDueDate(cards)[0] == cards[i]
  {
    DueComparatorIsConsistent();
    var i := SortByHeadIsFirstLeast(cards, DueComparator);
    assert IsFirstEarliest(cards, i);
  }

  /**
   * The first element of the priority-order copy comes before or with every card; the
   * sort is stable, so among cards with the same key it is the first in input order.
   */
  lemma HighestPriorityFirst(cards: seq<Card>)
    requires cards != []
    ensures SortCardsByStatePriority(cards)[0] in cards
    ensures forall c :: c in cards ==> PriorityKeyLeq(SortCardsByStatePriority(cards)[0], c)
    ensures exists i :: IsFirstByPriority(cards, i) && SortCardsByStatePriority(cards)[0] == cards[i]
  {
    PriorityComparatorIsConsistent();
    var i := SortByHeadIsFirstLeast(cards, PriorityComparator);
    forall c | c in cards ensures PriorityKeyLeq(cards[i], c) {
      assert PriorityComparator(cards[i], c) <= 0;
    }
    forall j | 0 <= j < i ensures !PriorityKeyLeq(cards[j], cards[i]) {
      assert PriorityComparator(cards[j], cards[i]) > 0;
    }
    assert IsFirstByPriority(cards, i);
  }

  /**
   * `getNextCard`: nothing for no cards; else the due card first by (priority, due), the
   * earliest in input order among ties; else one of the first five not-due New cards, at
   * the index `Math.random()` (here `rand`) picks; else the card due earliest, again the
   * first in input order among ties.
   */
  function GetNextCard(cards: seq<Card>, now: int, rand: real): (r: Option<Card>)
    requires 0.0 <= rand < 1.0
    ensures r.None? <==> cards == []
    ensures r.Some? ==> r.value in cards
    ensures GetDueCards(cards, now) != [] ==>
      && r.Some? && IsCardDue(r.value.fsrsCard, now)
      && (forall c :: c in cards && IsCardDue(c.fsrsCard, now) ==> PriorityKeyLeq(r.value, c))
      && exists i :: IsFirstByPriority(GetDueCards(cards, now), i) && r.value == GetDueCards(cards, now)[i]
    ensures GetDueCards(cards, now) == [] && NewNotDueCards(cards, now) != [] ==>
      var newCards := NewNotDueCards(cards, now);
      r.Some? && r.value in newCards[..NewCardWindow(|newCards|)]
    ensures GetDueCards(cards, now) == [] && NewNotDueCards(cards, now) == [] && cards != [] ==>
      && r.Some? && (forall c :: c in cards ==> r.value.fsrsCard.due <= c.fsrsCard.due)
      && exists i :: IsFirstEarliest(cards, i) && r.value == cards[i]
  {
    if cards == [] then None
    else
      var dueCards := GetDueCards(cards, now);
      if dueCards != [] then
        HighestPriorityFirst(dueCards);
        Some(SortCardsByStatePriority(dueCards)[0])
      else
        var newCards := NewNotDueCards(cards, now);
        if newCards != [] then
          var i := RandomIndex(rand, NewCardWindow(|newCards|));
          assert newCards[i] == newCards[..NewCardWindow(|newCards|)][i];
          Some(newCards[i])
        else
          EarliestDueFirst(cards);
          Some(SortCardsByDueDate(cards)[0])
  }

  /** When no card is due, each of the first five New cards is the pick for some random draw. */
  lemma EveryEarlyNewCardCanBePicked(cards: seq<Card>, now: int, k: nat)
    requires GetDueCards(cards, now) == []
    requires k < NewCardWindow(|NewNotDueCards(cards, now)|)
    ensures 0.0 <= k as real / NewCardWindow(|NewNotDueCards(cards, now)|) as real < 1.0
    ensures GetNextCard(cards, now, k as real / NewCardWindow(|NewNotDueCards(cards, now)|) as real)
      == Some(NewNotDueCards(cards, now)[k])
  {
    var m := NewCardWindow(|NewNotDueCards(cards, now)|);
    RandomIndexCovers(m, k);
    assert NewNotDueCards(cards, now)[0] in cards;
  }

  /** The figures `getCardStats` reports. */
  datatype CardStats = CardStats(
    total: nat, due: nat, newCount: nat, learning: nat, review: nat, relearning: nat,
    averageInterval: real)

  /** How many cards are in FSRS state `state`. */
  function CountState(cards: seq<Card>, state: int): nat
  {
    if cards == [] then 0
    else CountState(cards[..|cards| - 1], state) + (if cards[|cards| - 1].fsrsCard.state == state then 1 else 0)
  }

  /** The sum of the cards' elapsed days. */
  function TotalElapsed(cards: seq<Card>): int
  {
    if cards == [] then 0 else TotalElapsed(cards[..|cards| - 1]) + cards[|cards| - 1].fsrsCard.elapsedDays
  }

  /** Every card is in at most one of the four states. */
  lemma {:induction false} StateCountsBounded(cards: seq<Card>)
    ensures CountState(cards, STATE_NEW) + CountState(cards, STATE_LEARNING)
      + CountState(cards, STATE_REVIEW) + CountState(cards, STATE_RELEARNING) <= |cards|
    ensures (forall c :: c in cards ==> 0 <= c.fsrsCard.state <= 3) ==>
      CountState(cards, STATE_NEW) + CountState(cards, STATE_LEARNING)
      + CountState(cards, STATE_REVIEW) + CountState(cards, STATE_RELEARNING) == |cards|
  {
    if cards != [] {
      var init := cards[..|cards| - 1];
      StateCountsBounded(init);
      assert forall c :: c in init ==> c in cards;
    }
  }

  /**
   * `getCardStats`: the card count, the due count, one count per FSRS state, and the
   * mean elapsed days (0 for no cards), tallied in one pass over the cards.
   */
  method GetCardStats(cards: seq<Card>, now: int) returns (stats: CardStats)
    ensures stats.total == |cards| && stats.due == |GetDueCards(cards, now)|
    ensures stats.newCount == CountState(cards, STATE_NEW)
    ensures stats.learning == CountState(cards, STATE_LEARNING)
    ensures stats.review == CountState(cards, STATE_REVIEW)
    ensures stats.relearning == CountState(cards, STATE_RELEARNING)
    ensures stats.averageInterval
      == if |cards| > 0 then TotalElapsed(cards) as real / |cards| as real else 0.0
  {
    var newCount, learning, review, relearning: nat := 0, 0, 0, 0;
    var totalInterval := 0;
    for i := 0 to |cards|
      invariant newCount == CountState(cards[..i], STATE_NEW)
      invariant learning == CountState(cards[..i], STATE_LEARNING)
      invariant review == CountState(cards[..i], STATE_REVIEW)
      invariant relearning == CountState(cards[..i], STATE_RELEARNING)
      invariant totalInterval == TotalElapsed(cards[..i])
    {
      assert cards[..i + 1][..i] == cards[..i];
      var state := cards[i].fsrsCard.state;
      if state == STATE_NEW {
        newCount := newCount + 1;
      } else if state == STATE_LEARNING {
        learning := learning + 1;
      } else if state == STATE_REVIEW {
        review := review + 1;
      } else if state == STATE_RELEARNING {
        relearning := relearning + 1;
      }
      totalInterval := totalInterval + cards[i].fsrsCard.elapsedDays;
    }
    assert cards[..|cards|] == cards;
    var average := if |cards| > 0 then totalInterval as real / |cards| as real else 0.0;
    stats := CardStats(|cards|, |GetDueCards(cards, now)|, newCount, learning, review, relearning, average);
  }

  /** `1000 * 60 * 60 * 24`. */
  const MS_PER_DAY := 86400000

  /** Whole days from `now` until the card is due, rounded down (negative when overdue). */
  function DayOffset(card: Card, now: int): int
  {
    (card.fsrsCard.due - now) / MS_PER_DAY
  }

  /** How many cards fall due on day `day` counted from `now`. */
  function CountInBucket(cards: seq<Card>, now: int, day: int): nat
  {
    if cards == [] then 0
    else CountInBucket(cards[..|cards| - 1], now, day) + (if DayOffset(cards[|cards| - 1], now) == day then 1 else 0)
  }

  /** How many cards fall due within the first `days` days counted from `now`. */
  function CountWithin(cards: seq<Card>, now: int, days: int): nat
  {
    if cards == [] then 0
    else CountWithin(cards[..|cards| - 1], now, days) + (if 0 <= DayOffset(cards[|cards| - 1], now) < days then 1 else 0)
  }

  /**
   * `getUpcomingReviews`: one counter per day of the horizon; counter `i` counts the cards
   * due `i` whole days from `now`; overdue cards and cards past the horizon are skipped.
   */
  method GetUpcomingReviews(cards: seq<Card>, now: int, days: nat) returns (counts: seq<nat>)
    ensures |counts| == days
    ensures forall i :: 0 <= i < days ==> counts[i] == CountInBucket(cards, now, i)
  {
    var dailyCounts := new nat[days](_ => 0);
    for k := 0 to |cards|
      invariant forall i :: 0 <= i < days ==> dailyCounts[i] == CountInBucket(cards[..k], now, i)
    {
      assert cards[..k + 1][..k] == cards[..k];
      var daysDiff := DayOffset(cards[k], now);
      if 0 <= daysDiff < days {
        dailyCounts[daysDiff] := dailyCounts[daysDiff] + 1;
      }
    }
    assert cards[..|cards|] == cards;
    counts := dailyCounts[..];
  }

  /** The sum of the first `n` day counters. */
  function BucketSum(cards: seq<Card>, now: int, n: nat): nat
  {
    if n == 0 then 0 else BucketSum(cards, now, n - 1) + CountInBucket(cards, now, n - 1)
  }

  lemma {:induction false} BucketSumAppend(cards: seq<Card>, card: Card, now: int, n: nat)
    ensures BucketSum(cards + [card], now, n)
      == BucketSum(cards, now, n) + (if 0 <= DayOffset(card, now) < n then 1 else 0)
  {
    if n > 0 {
      BucketSumAppend(cards, card, now, n - 1);
      assert (cards + [card])[..|cards + [card]| - 1] == cards;
    }
  }

  /** The counters add up to the cards due within the horizon, so to at most all the cards. */
  lemma {:induction false} BucketSumCountsHorizon(cards: seq<Card>, now: int, days: nat)
    ensures BucketSum(cards, now, days) == CountWithin(cards, now, days) <= |cards|
    decreases |cards|
  {
    if cards != [] {
      var init := cards[..|cards| - 1];
      BucketSumCountsHorizon(init, now, days);
      BucketSumAppend(init, cards[|cards| - 1], now, days);
      assert init + [cards[|cards| - 1]] == cards;
    } else {
      BucketSumOfNoCards(now, days);
    }
  }

  lemma {:induction false} BucketSumOfNoCards(now: int, n: nat)
    ensures BucketSum([], now, n) == 0
  {
    if n > 0 {
      BucketSumOfNoCards(now, n - 1);
    }
  }
}
