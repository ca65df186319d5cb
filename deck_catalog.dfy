/**
 * The capabilities of each deck (generate, format, check, show the answer), selected by
 * the deck identifier, as the registry's definitions carry them.
 */
module DeckCatalog {
  import opened Wrappers
  import opened Builtins
  import opened DeckTypes
  import MultiplicationDeck
  import SubtractionDeck
  import KatakanaDeck

  /** A card whose content is of its deck's kind, as every generated card is. */
  predicate WellTyped(card: Card)
  {
    match card.deckId
    case MULTIPLICATION => card.content.MultiplicationContent?
    case SUBTRACTION => card.content.SubtractionContent?
    case KATAKANA => card.content.KatakanaContent? && card.content.romaji != []
  }

  /** The definition each deck module exports. */
  function Definition(id: DeckType): (d: DeckDefinition)
    ensures d.id == id
    ensures d.inputType == (if id == KATAKANA then TextInput else NumberInput)
  {
    match id
    case MULTIPLICATION => MultiplicationDeck.Definition()
    case SUBTRACTION => SubtractionDeck.Definition()
    case KATAKANA => KatakanaDeck.Definition()
  }

  /** The number of cards each description announces. */
  function CardCount(id: DeckType): nat
  {
    match id
    case MULTIPLICATION => 784
    case SUBTRACTION => 4851
    case KATAKANA => 46
  }

  /** A deck's cards in generation order, before any shuffle. */
  function OrderedCards(id: DeckType, now: int): seq<Card>
  {
    match id
    case MULTIPLICATION => MultiplicationDeck.OrderedCards(now)
    case SUBTRACTION => SubtractionDeck.OrderedCards(now)
    case KATAKANA => KatakanaDeck.GenerateCards(now)
  }

  /**
   * `deck.generateCards()`: a reordering of the deck's ordered cards, as many as its
   * description says, all of the deck, well typed, with distinct ids.
   */
  method GenerateCards(id: DeckType, now: int) returns (cards: seq<Card>)
    ensures multiset(cards) == multiset(OrderedCards(id, now))
    ensures |cards| == CardCount(id)
    ensures forall c :: c in cards ==> c.deckId == id && WellTyped(c)
    ensures DistinctIds(cards)
  {
    match id
    case MULTIPLICATION =>
      cards := MultiplicationDeck.GenerateCards(now);
    case SUBTRACTION =>
      cards := SubtractionDeck.GenerateCards(now);
    case KATAKANA =>
      cards := KatakanaDeck.GenerateCards(now);
      KatakanaDeck.GeneratedCardsDistinct(now);
      forall c | c in cards ensures c.deckId == id && WellTyped(c) {
        var i :| 0 <= i < |cards| && cards[i] == c;
        KatakanaDeck.GeneratedContentWellFormed(now, i);
      }
  }

  /** `deck.formatQuestion(card)` of the card's deck. */
  function FormatQuestion(card: Card): string
    requires WellTyped(card)
  {
    match card.deckId
    case MULTIPLICATION => MultiplicationDeck.FormatQuestion(card)
    case SUBTRACTION => SubtractionDeck.FormatQuestion(card)
    case KATAKANA => KatakanaDeck.FormatQuestion(card)
  }

  /** `deck.checkAnswer(card, answer)` of the card's deck; it always echoes the answer as typed. */
  function CheckAnswer(card: Card, answer: Answer): (r: AnswerCheckResult)
    requires WellTyped(card)
    ensures r.userAnswer == AnswerText(answer)
  {
    match card.deckId
    case MULTIPLICATION => MultiplicationDeck.CheckAnswer(card, answer)
    case SUBTRACTION => SubtractionDeck.CheckAnswer(card, answer)
    case KATAKANA => KatakanaDeck.CheckAnswer(card, answer)
  }

  /**
   * `deck.getCorrectAnswerString(card)` of the card's deck: a number deck shows a string
   * `parseInt` reads as the answer; the katakana deck shows every accepted spelling.
   */
  function GetCorrectAnswerString(card: Card): (s: string)
    requires WellTyped(card)
    ensures card.deckId == MULTIPLICATION ==> ParseInt(s) == Some(MultiplicationDeck.Product(card))
    ensures card.deckId == SUBTRACTION ==> ParseInt(s) == Some(SubtractionDeck.Difference(card))
    ensures card.deckId == KATAKANA ==>
      forall k :: 0 <= k < |card.content.romaji| ==> OccursIn(card.content.romaji[k], s)
  {
    match card.deckId
    case MULTIPLICATION => MultiplicationDeck.GetCorrectAnswerString(card)
    case SUBTRACTION => SubtractionDeck.GetCorrectAnswerString(card)
    case KATAKANA => KatakanaDeck.GetCorrectAnswerString(card)
  }

  /**
   * The answer a check reports and the answer string a deck displays agree, except on a
   * katakana card with alternative spellings, where the check reports the primary
   * spelling only and the display adds the alternatives after it.
   */
  lemma ReportedAnswerMatchesDisplay(card: Card, answer: Answer)
    requires WellTyped(card)
    ensures CheckAnswer(card, answer).correctAnswer <= GetCorrectAnswerString(card)
    ensures CheckAnswer(card, answer).correctAnswer == GetCorrectAnswerString(card)
      <==> !(card.deckId == KATAKANA && |card.content.romaji| > 1)
  {
  }
}
