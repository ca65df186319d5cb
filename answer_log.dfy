/**
 * The record the answer handler logs after each answer, from which the progress
 * dashboard computes accuracy. As written it judges the answer a second time, by exact
 * text, instead of using the deck's verdict.
 */
module AnswerLog {
  import opened Builtins
  import opened DeckTypes
  import Grading
  import DeckCatalog
  import MultiplicationDeck
  import SubtractionDeck
  import KatakanaDeck

  /**
   * As written: the typed text is compared literally with the answer the deck reports,
   * so the logged verdict is whether the text is exactly that string.
   */
  function LogAsWritten(card: Card, userAnswer: string, responseTime: int, now: int): (r: Grading.ResponseRecord)
    requires DeckCatalog.WellTyped(card)
    ensures r.correct <==> userAnswer == DeckCatalog.CheckAnswer(card, TextAnswer(userAnswer)).correctAnswer
    ensures r.cardId == card.id && r.answer == TextAnswer(userAnswer)
  {
    var answerCheck := DeckCatalog.CheckAnswer(card, TextAnswer(userAnswer));
    Grading.CreateResponseRecord(card.id, TextAnswer(userAnswer), TextAnswer(answerCheck.correctAnswer), responseTime, now)
  }

  /** Corrected: the logged verdict is the deck's own. */
  function LogResponse(card: Card, userAnswer: string, responseTime: int, now: int): (r: Grading.ResponseRecord)
    requires DeckCatalog.WellTyped(card)
    ensures r.correct == DeckCatalog.CheckAnswer(card, TextAnswer(userAnswer)).isCorrect
    ensures r.cardId == card.id && r.answer == TextAnswer(userAnswer)
    ensures r.responseTime == responseTime && r.timestamp == now
  {
    Grading.RecordCheckedResponse(card.id, userAnswer, DeckCatalog.CheckAnswer(card, TextAnswer(userAnswer)), responseTime, now)
  }

  /** "si" for シ is accepted by the katakana deck, yet logged as incorrect. */
  lemma AlternativeSpellingLoggedIncorrect(now: int)
    ensures DeckCatalog.WellTyped(KatakanaDeck.GenerateCards(now)[11])
    ensures DeckCatalog.CheckAnswer(KatakanaDeck.GenerateCards(now)[11], TextAnswer("si")).isCorrect
    ensures !LogAsWritten(KatakanaDeck.GenerateCards(now)[11], "si", 1000, now).correct
    ensures LogResponse(KatakanaDeck.GenerateCards(now)[11], "si", 1000, now).correct
  {
    KatakanaDeck.GeneratedTwoSpellingCards(now);
    KatakanaDeck.ShiAcceptsSi(KatakanaDeck.GenerateCards(now)[11]);
  }

  /**
   * "056" for 7 × 8, which the number input lets through (digits only), is accepted by the
   * multiplication deck, yet logged as incorrect.
   */
  lemma LeadingZeroLoggedIncorrect(now: int)
    ensures AllDigits("056")
    ensures DeckCatalog.CheckAnswer(MultiplicationDeck.FactCard(7, 8, now), TextAnswer("056")).isCorrect
    ensures !LogAsWritten(MultiplicationDeck.FactCard(7, 8, now), "056", 1000, now).correct
    ensures LogResponse(MultiplicationDeck.FactCard(7, 8, now), "056", 1000, now).correct
  {
    assert IntToString(56) == "56" by {
      assert NatToString(56) == NatToString(5) + [DigitChar(6)];
    }
    assert "056" == "0" + NatToString(56);
    ParseIntIgnoresLeadingZeros("0", 56);
  }

  /**
   * The literal comparison only ever loses verdicts: on every deck's well-formed cards,
   * text it logs as correct is text the deck accepts.
   */
  lemma AsWrittenOnlyUndercounts(card: Card, userAnswer: string, responseTime: int, now: int)
    requires DeckCatalog.WellTyped(card)
    requires card.deckId == KATAKANA ==> KatakanaDeck.WellFormedContent(card.content)
    ensures LogAsWritten(card, userAnswer, responseTime, now).correct ==>
      DeckCatalog.CheckAnswer(card, TextAnswer(userAnswer)).isCorrect
  {
    var check := DeckCatalog.CheckAnswer(card, TextAnswer(userAnswer));
    if LogAsWritten(card, userAnswer, responseTime, now).correct {
      assert userAnswer == check.correctAnswer;
      match card.deckId
      case MULTIPLICATION =>
        MultiplicationDeck.CorrectAnswerIsAccepted(card, TextAnswer(userAnswer));
      case SUBTRACTION =>
        SubtractionDeck.CorrectAnswerIsAccepted(card, TextAnswer(userAnswer));
      case KATAKANA =>
        assert KatakanaDeck.IsLowerWord(card.content.romaji[0]);
        KatakanaDeck.PrimarySpellingIsAccepted(card);
    }
  }
}
