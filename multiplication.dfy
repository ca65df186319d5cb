/**
 * The multiplication deck: one card per fact a × b with multiplicand 2..9 and multiplier
 * 2..99, answered with a number.
 */
module MultiplicationDeck {
  import opened Wrappers
  import opened Builtins
  import opened DeckTypes
  import opened Shuffle

  const MIN_MULTIPLICAND := 2
  const MAX_MULTIPLICAND := 9
  const MIN_MULTIPLIER := 2
  const MAX_MULTIPLIER := 99

  /** Multipliers per multiplicand. */
  const ROW_LENGTH := MAX_MULTIPLIER - MIN_MULTIPLIER + 1

  /** The count the deck's description announces. */
  const CARD_COUNT := 784

  function Definition(): DeckDefinition
  {
    DeckDefinition(MULTIPLICATION, "Multiplication Tables",
      "Learn multiplication tables (2-9 × 2-99) with 784 unique problems", NumberInput)
  }

  /** `mult-{multiplicand}x{multiplier}`. */
  function CardId(multiplicand: int, multiplier: int): string
  {
    "mult-" + IntToString(multiplicand) + "x" + IntToString(multiplier)
  }

  /** Facts with non-negative operands share an id only when they are the same fact. */
  lemma CardIdInjective(a: nat, b: nat, a': nat, b': nat)
    ensures CardId(a, b) == CardId(a', b') ==> a == a' && b == b'
  {
    if CardId(a, b) == CardId(a', b') {
      var p, q, p', q' := IntToString(a), IntToString(b), IntToString(a'), IntToString(b');
      assert CardId(a, b) == "mult-" + (p + "x" + q);
      assert CardId(a', b') == "mult-" + (p' + "x" + q');
      assert p + "x" + q == CardId(a, b)[5..] == CardId(a', b')[5..] == p' + "x" + q';
      SplitAtSeparator(p, q, p', q', "x");
      IntToStringInjective(a, a');
      IntToStringInjective(b, b');
    }
  }

  /** The card the generator pushes for `a × b`, with a fresh FSRS state created at `now`. */
  function FactCard(a: int, b: int, now: int): Card
  {
    Card(CardId(a, b), MULTIPLICATION, MultiplicationContent(a, b), EmptyFsrsCard(now))
  }

  /** The cards of one multiplicand, multipliers ascending: one pass of the inner loop. */
  function Row(a: int, now: int): seq<Card>
  {
    seq(ROW_LENGTH, k requires 0 <= k < ROW_LENGTH => FactCard(a, MIN_MULTIPLIER + k, now))
  }

  /** The cards of multiplicands 2 to `last`, in the order the loops push them. */
  function RowsUpTo(last: int, now: int): seq<Card>
    decreases last
  {
    if last < MIN_MULTIPLICAND then [] else RowsUpTo(last - 1, now) + Row(last, now)
  }

  /** The list before the shuffle. */
  function OrderedCards(now: int): seq<Card>
  {
    RowsUpTo(MAX_MULTIPLICAND, now)
  }

  /** A fact card of the deck: operands in range, and id, deck and FSRS state as generated. */
  predicate IsFact(c: Card, now: int)
  {
    && c.content.MultiplicationContent?
    && MIN_MULTIPLICAND <= c.content.multiplicand <= MAX_MULTIPLICAND
    && MIN_MULTIPLIER <= c.content.multiplier <= MAX_MULTIPLIER
    && c == FactCard(c.content.multiplicand, c.content.multiplier, now)
  }

  lemma {:induction false} RowsUpToLength(last: int, now: int)
    ensures |RowsUpTo(last, now)| == if last < MIN_MULTIPLICAND then 0 else (last - 1) * ROW_LENGTH
    decreases last
  {
    if last >= MIN_MULTIPLICAND {
      RowsUpToLength(last - 1, now);
    }
  }

  /** The row of `a` holds exactly the facts with multiplicand `a`. */
  lemma RowMembers(a: int, now: int)
    requires MIN_MULTIPLICAND <= a <= MAX_MULTIPLICAND
    ensures forall c :: c in Row(a, now) <==> IsFact(c, now) && c.content.multiplicand == a
  {
    var row := Row(a, now);
    forall c | IsFact(c, now) && c.content.multiplicand == a ensures c in row {
      assert c == row[c.content.multiplier - MIN_MULTIPLIER];
    }
    forall c | c in row ensures IsFact(c, now) && c.content.multiplicand == a {
      var k :| 0 <= k < |row| && row[k] == c;
      assert c == FactCard(a, MIN_MULTIPLIER + k, now);
    }
  }

  /** The rows up to `last` hold exactly the facts whose multiplicand is at most `last`. */
  lemma {:induction false} RowsUpToMembers(last: int, now: int)
    requires last <= MAX_MULTIPLICAND
    ensures forall c :: c in RowsUpTo(last, now) <==> IsFact(c, now) && c.content.multiplicand <= last
    decreases last
  {
    if last >= MIN_MULTIPLICAND {
      RowsUpToMembers(last - 1, now);
      RowMembers(last, now);
      assert RowsUpTo(last, now) == RowsUpTo(last - 1, now) + Row(last, now);
    }
  }

  /** Ids are distinct within one row. */
  lemma RowDistinctIds(a: int, now: int)
    requires MIN_MULTIPLICAND <= a <= MAX_MULTIPLICAND
    ensures DistinctIds(Row(a, now))
  {
    var row := Row(a, now);
    forall i, j | 0 <= i < j < |row| ensures row[i].id != row[j].id {
      assert row[i] == FactCard(a, MIN_MULTIPLIER + i, now) && row[j] == FactCard(a, MIN_MULTIPLIER + j, now);
      CardIdInjective(a, MIN_MULTIPLIER + i, a, MIN_MULTIPLIER + j);
    }
  }

  /** Ids are distinct across the rows up to `last`. */
  lemma {:induction false} RowsUpToDistinctIds(last: int, now: int)
    requires last <= MAX_MULTIPLICAND
    ensures DistinctIds(RowsUpTo(last, now))
    decreases last
  {
    if last >= MIN_MULTIPLICAND {
      var before, row := RowsUpTo(last - 1, now), Row(last, now);
      RowsUpToDistinctIds(last - 1, now);
      RowDistinctIds(last, now);
      RowsUpToMembers(last - 1, now);
      RowMembers(last, now);
      forall x, y | x in before && y in row ensures x.id != y.id {
        CardIdInjective(x.content.multiplicand, x.content.multiplier, y.content.multiplicand, y.content.multiplier);
      }
      ConcatDistinctIds(before, row);
    }
  }

  /** The unshuffled list: 784 cards, every fact exactly once, all ids distinct. */
  lemma OrderedCardsFacts(now: int)
    ensures |OrderedCards(now)| == CARD_COUNT
    ensures forall c :: c in OrderedCards(now) <==> IsFact(c, now)
    ensures DistinctIds(OrderedCards(now))
  {
    RowsUpToLength(MAX_MULTIPLICAND, now);
    RowsUpToMembers(MAX_MULTIPLICAND, now);
    RowsUpToDistinctIds(MAX_MULTIPLICAND, now);
  }

  /**
   * `generateCards`: the nested loops push every fact once, then the list is shuffled. The
   * result is a reordering of `OrderedCards(now)`: 784 cards, each fact once, distinct ids.
   */
  method GenerateCards(now: int) returns (cards: seq<Card>)
    ensures multiset(cards) == multiset(OrderedCards(now))
    ensures |cards| == CARD_COUNT
    ensures forall c :: c in cards <==> IsFact(c, now)
    ensures DistinctIds(cards)
  {
    var generated: seq<Card> := [];
    for multiplicand := MIN_MULTIPLICAND to MAX_MULTIPLICAND + 1
      invariant generated == RowsUpTo(multiplicand - 1, now)
    {
      for multiplier := MIN_MULTIPLIER to MAX_MULTIPLIER + 1
        invariant generated == RowsUpTo(multiplicand - 1, now) + Row(multiplicand, now)[..multiplier - MIN_MULTIPLIER]
      {
        RowPrefixStep(multiplicand, multiplier - MIN_MULTIPLIER, now);
        generated := generated + [FactCard(multiplicand, multiplier, now)];
      }
      assert Row(multiplicand, now)[..ROW_LENGTH] == Row(multiplicand, now);
    }
    assert generated == OrderedCards(now);
    cards := ShuffleArray(generated);
    ReorderedFacts(cards, now);
  }

  /** One more pass of the inner loop pushes the next card of the row. */
  lemma RowPrefixStep(a: int, k: nat, now: int)
    requires k < ROW_LENGTH
    ensures Row(a, now)[..k + 1] == Row(a, now)[..k] + [FactCard(a, MIN_MULTIPLIER + k, now)]
  {
    var row := Row(a, now);
    assert row[k] == FactCard(a, MIN_MULTIPLIER + k, now);
    PrefixExtend(row, k);
  }

  /** Any reordering of the unshuffled list has its count, its members and distinct ids. */
  lemma ReorderedFacts(cards: seq<Card>, now: int)
    requires multiset(cards) == multiset(OrderedCards(now))
    ensures |cards| == CARD_COUNT
    ensures forall c :: c in cards <==> IsFact(c, now)
    ensures DistinctIds(cards)
  {
    var ordered := OrderedCards(now);
    OrderedCardsFacts(now);
    PermutationKeepsDistinctIds(cards, ordered);
    assert |cards| == |multiset(cards)| == |multiset(ordered)| == |ordered|;
    forall c ensures c in cards <==> c in ordered {
      assert c in cards <==> c in multiset(cards);
      assert c in ordered <==> c in multiset(ordered);
    }
  }

  /** `a * b` of a multiplication card. */
  function Product(card: Card): int
    requires card.content.MultiplicationContent?
  {
    card.content.multiplicand * card.content.multiplier
  }

  /** `formatQuestion`: `"{multiplicand} × {multiplier}"`. */
  function FormatQuestion(card: Card): string
    requires card.content.MultiplicationContent?
  {
    IntToString(card.content.multiplicand) + " × " + IntToString(card.content.multiplier)
  }

  /** Different facts of the deck show different questions. */
  lemma FormatQuestionInjective(c: Card, d: Card, now: int)
    requires IsFact(c, now) && IsFact(d, now)
    requires FormatQuestion(c) == FormatQuestion(d)
    ensures c == d
  {
    var a, b, a', b' := c.content.multiplicand, c.content.multiplier, d.content.multiplicand, d.content.multiplier;
    SplitAtSeparator(IntToString(a), IntToString(b), IntToString(a'), IntToString(b'), " × ");
    IntToStringInjective(a, a');
    IntToStringInjective(b, b');
  }

  /** `getCorrectAnswerString`: the decimal product, which `parseInt` reads back as the product. */
  function GetCorrectAnswerString(card: Card): (s: string)
    requires card.content.MultiplicationContent?
    ensures ParseInt(s) == Some(Product(card))
  {
    ParseIntOfIntToString(Product(card));
    IntToString(Product(card))
  }

  /**
   * `checkAnswer`: correct when the answer, read as a number (a string through `parseInt`),
   * is the product; reports the product's decimal string and the answer as typed.
   */
  function CheckAnswer(card: Card, answer: Answer): (r: AnswerCheckResult)
    requires card.content.MultiplicationContent?
    ensures r.isCorrect <==> NumericAnswer(answer) == Some(Product(card))
    ensures r.correctAnswer == GetCorrectAnswerString(card)
    ensures r.userAnswer == AnswerText(answer)
  {
    var correctAnswer := Product(card);
    var userAnswerNum := NumericAnswer(answer);
    var isCorrect := userAnswerNum.Some? && userAnswerNum.value == correctAnswer;
    AnswerCheckResult(isCorrect, IntToString(correctAnswer), AnswerText(answer))
  }

  /**
   * A number typed with white space before it and any non-digit text after it is judged by
   * its value alone, and so is the same number given as a number.
   */
  lemma CheckAnswerReadsTypedNumber(card: Card, pad: string, n: int, rest: string)
    requires card.content.MultiplicationContent?
    requires AllWhitespace(pad) && (rest == [] || !IsDigit(rest[0]))
    ensures CheckAnswer(card, TextAnswer(pad + IntToString(n) + rest)).isCorrect <==> n == Product(card)
    ensures CheckAnswer(card, NumberAnswer(n)).isCorrect <==> n == Product(card)
  {
    ParseIntReadsLeadingNumber(pad, n, rest);
  }

  /** The answer the deck reports as correct is accepted when typed back. */
  lemma CorrectAnswerIsAccepted(card: Card, answer: Answer)
    requires card.content.MultiplicationContent?
    ensures CheckAnswer(card, TextAnswer(CheckAnswer(card, answer).correctAnswer)).isCorrect
  {
  }
}
