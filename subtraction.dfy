/**
 * The subtraction deck: one card per problem m − s with minuend 2..99 and subtrahend
 * 1..m-1, so that every difference is positive; answered with a number.
 */
module SubtractionDeck {
  import opened Wrappers
  import opened Builtins
  import opened DeckTypes
  import opened Shuffle

  const MIN_MINUEND := 2
  const MAX_MINUEND := 99
  const MIN_SUBTRAHEND := 1

  /** The count the deck's description announces: 98 · 99 / 2. */
  const CARD_COUNT := 4851

  function Definition(): DeckDefinition
  {
    DeckDefinition(SUBTRACTION, "Subtraction",
      "Subtraction problems (1-99 \U{2212} 1-99) with 4,851 unique problems", NumberInput)
  }

  /** `sub-{minuend}-{subtrahend}`. */
  function CardId(minuend: int, subtrahend: int): string
  {
    "sub-" + IntToString(minuend) + "-" + IntToString(subtrahend)
  }

  /** Problems with non-negative operands share an id only when they are the same problem. */
  lemma CardIdInjective(m: nat, s: nat, m': nat, s': nat)
    ensures CardId(m, s) == CardId(m', s') ==> m == m' && s == s'
  {
    if CardId(m, s) == CardId(m', s') {
      var p, q, p', q' := IntToString(m), IntToString(s), IntToString(m'), IntToString(s');
      assert CardId(m, s) == "sub-" + (p + "-" + q);
      assert CardId(m', s') == "sub-" + (p' + "-" + q');
      assert p + "-" + q == CardId(m, s)[4..] == CardId(m', s')[4..] == p' + "-" + q';
      SplitAtSeparator(p, q, p', q', "-");
      IntToStringInjective(m, m');
      IntToStringInjective(s, s');
    }
  }

  /** The card the generator pushes for `m − s`, with a fresh FSRS state created at `now`. */
  function ProblemCard(m: int, s: int, now: int): Card
  {
    Card(CardId(m, s), SUBTRACTION, SubtractionContent(m, s), EmptyFsrsCard(now))
  }

  /** The cards of one minuend, subtrahends 1 to m-1 ascending: one pass of the inner loop. */
  function Row(m: int, now: int): seq<Card>
    requires m >= MIN_SUBTRAHEND
  {
    seq(m - MIN_SUBTRAHEND, k requires 0 <= k < m - MIN_SUBTRAHEND => ProblemCard(m, MIN_SUBTRAHEND + k, now))
  }

  /** The cards of minuends 2 to `last`, in the order the loops push them. */
  function RowsUpTo(last: int, now: int): seq<Card>
    decreases last
  {
    if last < MIN_MINUEND then [] else RowsUpTo(last - 1, now) + Row(last, now)
  }

  /** The list before the shuffle. */
  function OrderedCards(now: int): seq<Card>
  {
    RowsUpTo(MAX_MINUEND, now)
  }

  /** A problem card of the deck: operands in range, and id, deck and FSRS state as generated. */
  predicate IsProblem(c: Card, now: int)
  {
    && c.content.SubtractionContent?
    && MIN_MINUEND <= c.content.minuend <= MAX_MINUEND
    && MIN_SUBTRAHEND <= c.content.subtrahend < c.content.minuend
    && c == ProblemCard(c.content.minuend, c.content.subtrahend, now)
  }

  /** Twice the count of the rows up to `last` is last · (last - 1). */
  lemma {:induction false} RowsUpToLength(last: int, now: int)
    ensures 2 * |RowsUpTo(last, now)| == if last < MIN_MINUEND then 0 else last * (last - 1)
    decreases last
  {
    if last >= MIN_MINUEND {
      RowsUpToLength(last - 1, now);
      assert (last - 1) * (last - 2) + 2 * (last - 1) == last * (last - 1);
    }
  }

  /** The row of `m` holds exactly the problems with minuend `m`. */
  lemma RowMembers(m: int, now: int)
    requires MIN_MINUEND <= m <= MAX_MINUEND
    ensures forall c :: c in Row(m, now) <==> IsProblem(c, now) && c.content.minuend == m
  {
    var row := Row(m, now);
    forall c | IsProblem(c, now) && c.content.minuend == m ensures c in row {
      assert c == row[c.content.subtrahend - MIN_SUBTRAHEND];
    }
    forall c | c in row ensures IsProblem(c, now) && c.content.minuend == m {
      var k :| 0 <= k < |row| && row[k] == c;
      assert c == ProblemCard(m, MIN_SUBTRAHEND + k, now);
    }
  }

  /** The rows up to `last` hold exactly the problems whose minuend is at most `last`. */
  lemma {:induction false} RowsUpToMembers(last: int, now: int)
    requires last <= MAX_MINUEND
    ensures forall c :: c in RowsUpTo(last, now) <==> IsProblem(c, now) && c.content.minuend <= last
    decreases last
  {
    if last >= MIN_MINUEND {
      RowsUpToMembers(last - 1, now);
      RowMembers(last, now);
      assert RowsUpTo(last, now) == RowsUpTo(last - 1, now) + Row(last, now);
    }
  }

  /** One more pass of the inner loop pushes the next card of the row. */
  lemma RowPrefixStep(m: int, k: nat, now: int)
    requires m >= MIN_SUBTRAHEND && k < m - MIN_SUBTRAHEND
    ensures Row(m, now)[..k + 1] == Row(m, now)[..k] + [ProblemCard(m, MIN_SUBTRAHEND + k, now)]
  {
    var row := Row(m, now);
    assert row[k] == ProblemCard(m, MIN_SUBTRAHEND + k, now);
    PrefixExtend(row, k);
  }

  /** Ids are distinct within one row. */
  lemma RowDistinctIds(a: int, now: int)
    requires MIN_MINUEND <= a <= MAX_MINUEND
    ensures DistinctIds(Row(a, now))
  {
    var row := Row(a, now);
    forall i, j | 0 <= i < j < |row| ensures row[i].id != row[j].id {
      var s, s' := MIN_SUBTRAHEND + i, MIN_SUBTRAHEND + j;
      assert row[i] == ProblemCard(a, s, now);
      assert row[j] == ProblemCard(a, s', now);
      CardIdInjective(a, s, a, s');
    }
  }

  /** Ids are distinct across the rows up to `last`. */
  lemma {:induction false} RowsUpToDistinctIds(last: int, now: int)
    requires last <= MAX_MINUEND
    ensures DistinctIds(RowsUpTo(last, now))
    decreases last
  {
    if last >= MIN_MINUEND {
      var before, row := RowsUpTo(last - 1, now), Row(last, now);
      RowsUpToDistinctIds(last - 1, now);
      RowDistinctIds(last, now);
      RowsUpToMembers(last - 1, now);
      RowMembers(last, now);
      forall x, y | x in before && y in row ensures x.id != y.id {
        CardIdInjective(x.content.minuend, x.content.subtrahend, y.content.minuend, y.content.subtrahend);
      }
      ConcatDistinctIds(before, row);
    }
  }

  /** The unshuffled list: 4851 cards, every problem exactly once, all ids distinct. */
  lemma OrderedCardsProblems(now: int)
    ensures |OrderedCards(now)| == CARD_COUNT
    ensures forall c :: c in OrderedCards(now) <==> IsProblem(c, now)
    ensures DistinctIds(OrderedCards(now))
  {
    RowsUpToLength(MAX_MINUEND, now);
    RowsUpToMembers(MAX_MINUEND, now);
    RowsUpToDistinctIds(MAX_MINUEND, now);
  }

  /**
   * `generateCards`: the nested loops push every problem once, then the list is shuffled.
   * The result is a reordering of `OrderedCards(now)`: 4851 cards, each problem once,
   * distinct ids, every difference at least 1.
   */
  method GenerateCards(now: int) returns (cards: seq<Card>)
    ensures multiset(cards) == multiset(OrderedCards(now))
    ensures |cards| == CARD_COUNT
    ensures forall c :: c in cards <==> IsProblem(c, now)
    ensures forall c :: c in cards ==> c.content.SubtractionContent? && Difference(c) >= 1
    ensures DistinctIds(cards)
  {
    var generated: seq<Card> := [];
    for minuend := MIN_MINUEND to MAX_MINUEND + 1
      invariant generated == RowsUpTo(minuend - 1, now)
    {
      for subtrahend := MIN_SUBTRAHEND to minuend
        invariant generated == RowsUpTo(minuend - 1, now) + Row(minuend, now)[..subtrahend - MIN_SUBTRAHEND]
      {
        RowPrefixStep(minuend, subtrahend - MIN_SUBTRAHEND, now);
        generated := generated + [ProblemCard(minuend, subtrahend, now)];
      }
      assert Row(minuend, now)[..minuend - MIN_SUBTRAHEND] == Row(minuend, now);
    }
    cards := ShuffleArray(generated);
    OrderedCardsProblems(now);
    PermutationKeepsDistinctIds(cards, generated);
    forall c ensures c in cards <==> c in generated {
      assert c in cards <==> c in multiset(cards);
      assert c in generated <==> c in multiset(generated);
    }
  }

  /** `minuend - subtrahend` of a subtraction card. */
  function Difference(card: Card): int
    requires card.content.SubtractionContent?
  {
    card.content.minuend - card.content.subtrahend
  }

  /** `formatQuestion`: `"{minuend} − {subtrahend}"`, with the minus sign U+2212. */
  function FormatQuestion(card: Card): string
    requires card.content.SubtractionContent?
  {
    IntToString(card.content.minuend) + " \U{2212} " + IntToString(card.content.subtrahend)
  }

  /** Different problems of the deck show different questions. */
  lemma FormatQuestionInjective(c: Card, d: Card, now: int)
    requires IsProblem(c, now) && IsProblem(d, now)
    requires FormatQuestion(c) == FormatQuestion(d)
    ensures c == d
  {
    var m, s, m', s' := c.content.minuend, c.content.subtrahend, d.content.minuend, d.content.subtrahend;
    SplitAtSeparator(IntToString(m), IntToString(s), IntToString(m'), IntToString(s'), " \U{2212} ");
    IntToStringInjective(m, m');
    IntToStringInjective(s, s');
  }

  /** `getCorrectAnswerString`: the decimal difference, which `parseInt` reads back as the difference. */
  function GetCorrectAnswerString(card: Card): (s: string)
    requires card.content.SubtractionContent?
    ensures ParseInt(s) == Some(Difference(card))
  {
    ParseIntOfIntToString(Difference(card));
    IntToString(Difference(card))
  }

  /**
   * `checkAnswer`: correct when the answer, read as a number (a string through `parseInt`),
   * is the difference; reports the difference's decimal string and the answer as typed.
   */
  function CheckAnswer(card: Card, answer: Answer): (r: AnswerCheckResult)
    requires card.content.SubtractionContent?
    ensures r.isCorrect <==> NumericAnswer(answer) == Some(Difference(card))
    ensures r.correctAnswer == GetCorrectAnswerString(card)
    ensures r.userAnswer == AnswerText(answer)
  {
    var correctAnswer := Difference(card);
    var userAnswerNum := NumericAnswer(answer);
    var isCorrect := userAnswerNum.Some? && userAnswerNum.value == correctAnswer;
    AnswerCheckResult(isCorrect, IntToString(correctAnswer), AnswerText(answer))
  }

  /**
   * A number typed with white space before it and any non-digit text after it is judged by
   * its value alone, and so is the same number given as a number.
   */
  lemma CheckAnswerReadsTypedNumber(card: Card, pad: string, n: int, rest: string)
    requires card.content.SubtractionContent?
    requires AllWhitespace(pad) && (rest == [] || !IsDigit(rest[0]))
    ensures CheckAnswer(card, TextAnswer(pad + IntToString(n) + rest)).isCorrect <==> n == Difference(card)
    ensures CheckAnswer(card, NumberAnswer(n)).isCorrect <==> n == Difference(card)
  {
    ParseIntReadsLeadingNumber(pad, n, rest);
  }

  /** The answer the deck reports as correct is accepted when typed back. */
  lemma CorrectAnswerIsAccepted(card: Card, answer: Answer)
    requires card.content.SubtractionContent?
    ensures CheckAnswer(card, TextAnswer(CheckAnswer(card, answer).correctAnswer)).isCorrect
  {
  }
}
