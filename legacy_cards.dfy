/**
 * The single-deck katakana cards that predate the deck system: a table with one
 * romanisation per character, a shuffled generator, and exact-match checking.
 */
module LegacyCards {
  import opened Builtins
  import opened DeckTypes
  import opened Shuffle
  import KatakanaDeck

  /** A row of the legacy table: a character and its one romanisation. */
  datatype LegacyEntry = LegacyEntry(character: string, romaji: string)

  /** The pre-deck katakana card, identified by its character. */
  datatype LegacyCard = LegacyCard(id: string, character: string, romaji: string, fsrsCard: FsrsCard)

  const LEGACY_VOWELS: seq<LegacyEntry> := [
    LegacyEntry("ア", "a"), LegacyEntry("イ", "i"), LegacyEntry("ウ", "u"),
    LegacyEntry("エ", "e"), LegacyEntry("オ", "o")
  ]

  const LEGACY_K_ROW: seq<LegacyEntry> := [
    LegacyEntry("カ", "ka"), LegacyEntry("キ", "ki"), LegacyEntry("ク", "ku"),
    LegacyEntry("ケ", "ke"), LegacyEntry("コ", "ko")
  ]

  const LEGACY_S_ROW: seq<LegacyEntry> := [
    LegacyEntry("サ", "sa"), LegacyEntry("シ", "shi"), LegacyEntry("ス", "su"),
    LegacyEntry("セ", "se"), LegacyEntry("ソ", "so")
  ]

  const LEGACY_T_ROW: seq<LegacyEntry> := [
    LegacyEntry("タ", "ta"), LegacyEntry("チ", "chi"), LegacyEntry("ツ", "tsu"),
    LegacyEntry("テ", "te"), LegacyEntry("ト", "to")
  ]

  const LEGACY_N_ROW: seq<LegacyEntry> := [
    LegacyEntry("ナ", "na"), LegacyEntry("ニ", "ni"), LegacyEntry("ヌ", "nu"),
    LegacyEntry("ネ", "ne"), LegacyEntry("ノ", "no")
  ]

  const LEGACY_H_ROW: seq<LegacyEntry> := [
    LegacyEntry("ハ", "ha"), LegacyEntry("ヒ", "hi"), LegacyEntry("フ", "fu"),
    LegacyEntry("ヘ", "he"), LegacyEntry("ホ", "ho")
  ]

  const LEGACY_M_ROW: seq<LegacyEntry> := [
    LegacyEntry("マ", "ma"), LegacyEntry("ミ", "mi"), LegacyEntry("ム", "mu"),
    LegacyEntry("メ", "me"), LegacyEntry("モ", "mo")
  ]

  const LEGACY_Y_ROW: seq<LegacyEntry> := [
    LegacyEntry("ヤ", "ya"), LegacyEntry("ユ", "yu"), LegacyEntry("ヨ", "yo")
  ]

  const LEGACY_R_ROW: seq<LegacyEntry> := [
    LegacyEntry("ラ", "ra"), LegacyEntry("リ", "ri"), LegacyEntry("ル", "ru"),
    LegacyEntry("レ", "re"), LegacyEntry("ロ", "ro")
  ]

  const LEGACY_W_ROW: seq<LegacyEntry> := [
    LegacyEntry("ワ", "wa"), LegacyEntry("ヲ", "wo")
  ]

  const LEGACY_N_FINAL: seq<LegacyEntry> := [
    LegacyEntry("ン", "n")
  ]

  /** The legacy table of the 46 basic katakana. */
  const LEGACY_DATA: seq<LegacyEntry> :=
    LEGACY_VOWELS + LEGACY_K_ROW + LEGACY_S_ROW + LEGACY_T_ROW + LEGACY_N_ROW + LEGACY_H_ROW
    + LEGACY_M_ROW + LEGACY_Y_ROW + LEGACY_R_ROW + LEGACY_W_ROW + LEGACY_N_FINAL

  /** Row by row, the legacy entries give the same character and its primary romanisation. */
  predicate PrimaryOf(legacy: seq<LegacyEntry>, rows: seq<KatakanaDeck.KanaEntry>)
  {
    && |legacy| == |rows|
    && forall i :: 0 <= i < |rows| ==>
      && legacy[i].character == rows[i].character
      && rows[i].romaji != []
      && legacy[i].romaji == rows[i].romaji[0]
  }

  lemma JoinPrimary(a: seq<LegacyEntry>, b: seq<KatakanaDeck.KanaEntry>, c: seq<LegacyEntry>, d: seq<KatakanaDeck.KanaEntry>)
    requires PrimaryOf(a, b) && PrimaryOf(c, d)
    ensures PrimaryOf(a + c, b + d)
  {
    forall i | 0 <= i < |b + d|
      ensures (a + c)[i].character == (b + d)[i].character && (b + d)[i].romaji != []
        && (a + c)[i].romaji == (b + d)[i].romaji[0]
    {
      if i < |b| {
        assert (a + c)[i] == a[i] && (b + d)[i] == b[i];
      } else {
        assert (a + c)[i] == c[i - |b|] && (b + d)[i] == d[i - |b|];
      }
    }
  }

  lemma VowelsPrimary() ensures PrimaryOf(LEGACY_VOWELS, KatakanaDeck.VOWELS) {}
  lemma KRowPrimary() ensures PrimaryOf(LEGACY_K_ROW, KatakanaDeck.K_ROW) {}
  lemma SRowPrimary() ensures PrimaryOf(LEGACY_S_ROW, KatakanaDeck.S_ROW) {}
  lemma TRowPrimary() ensures PrimaryOf(LEGACY_T_ROW, KatakanaDeck.T_ROW) {}
  lemma NRowPrimary() ensures PrimaryOf(LEGACY_N_ROW, KatakanaDeck.N_ROW) {}
  lemma HRowPrimary() ensures PrimaryOf(LEGACY_H_ROW, KatakanaDeck.H_ROW) {}
  lemma MRowPrimary() ensures PrimaryOf(LEGACY_M_ROW, KatakanaDeck.M_ROW) {}
  lemma YRowPrimary() ensures PrimaryOf(LEGACY_Y_ROW, KatakanaDeck.Y_ROW) {}
  lemma RRowPrimary() ensures PrimaryOf(LEGACY_R_ROW, KatakanaDeck.R_ROW) {}
  lemma WRowPrimary() ensures PrimaryOf(LEGACY_W_ROW, KatakanaDeck.W_ROW) {}
  lemma NFinalPrimary() ensures PrimaryOf(LEGACY_N_FINAL, KatakanaDeck.N_FINAL) {}

  /**
   * The legacy table is the deck table with each row cut down to its primary
   * romanisation: same 46 characters in the same order.
   */
  lemma LegacyTableIsPrimarySpellings()
    ensures |LEGACY_DATA| == 46
    ensures PrimaryOf(LEGACY_DATA, KatakanaDeck.KATAKANA_DATA)
  {
    VowelsPrimary(); KRowPrimary(); SRowPrimary(); TRowPrimary(); NRowPrimary(); HRowPrimary();
    MRowPrimary(); YRowPrimary(); RRowPrimary(); WRowPrimary(); NFinalPrimary();
    JoinPrimary(LEGACY_VOWELS, KatakanaDeck.VOWELS, LEGACY_K_ROW, KatakanaDeck.K_ROW);
    var l, k := LEGACY_VOWELS + LEGACY_K_ROW, KatakanaDeck.VOWELS + KatakanaDeck.K_ROW;
    JoinPrimary(l, k, LEGACY_S_ROW, KatakanaDeck.S_ROW);
    l, k := l + LEGACY_S_ROW, k + KatakanaDeck.S_ROW;
    JoinPrimary(l, k, LEGACY_T_ROW, KatakanaDeck.T_ROW);
    l, k := l + LEGACY_T_ROW, k + KatakanaDeck.T_ROW;
    JoinPrimary(l, k, LEGACY_N_ROW, KatakanaDeck.N_ROW);
    l, k := l + LEGACY_N_ROW, k + KatakanaDeck.N_ROW;
    JoinPrimary(l, k, LEGACY_H_ROW, KatakanaDeck.H_ROW);
    l, k := l + LEGACY_H_ROW, k + KatakanaDeck.H_ROW;
    JoinPrimary(l, k, LEGACY_M_ROW, KatakanaDeck.M_ROW);
    l, k := l + LEGACY_M_ROW, k + KatakanaDeck.M_ROW;
    JoinPrimary(l, k, LEGACY_Y_ROW, KatakanaDeck.Y_ROW);
    l, k := l + LEGACY_Y_ROW, k + KatakanaDeck.Y_ROW;
    JoinPrimary(l, k, LEGACY_R_ROW, KatakanaDeck.R_ROW);
    l, k := l + LEGACY_R_ROW, k + KatakanaDeck.R_ROW;
    JoinPrimary(l, k, LEGACY_W_ROW, KatakanaDeck.W_ROW);
    l, k := l + LEGACY_W_ROW, k + KatakanaDeck.W_ROW;
    JoinPrimary(l, k, LEGACY_N_FINAL, KatakanaDeck.N_FINAL);
    KatakanaDeck.TableWellFormed();
  }

  /** Every legacy romanisation is a lower-case word. */
  lemma LegacyRomajiAreLowerWords(i: nat)
    requires i < |LEGACY_DATA|
    ensures KatakanaDeck.IsLowerWord(LEGACY_DATA[i].romaji)
  {
    LegacyTableIsPrimarySpellings();
    KatakanaDeck.TableWellFormed();
    assert KatakanaDeck.WellFormedEntry(KatakanaDeck.KATAKANA_DATA[i]);
  }

  /** The card `map` makes from a table row: the character is the id, the state fresh at `now`. */
  function LegacyCardOf(e: LegacyEntry, now: int): LegacyCard
  {
    LegacyCard(e.character, e.character, e.romaji, EmptyFsrsCard(now))
  }

  /** The mapped list before the shuffle, in table order. */
  function MappedCards(now: int): seq<LegacyCard>
  {
    seq(|LEGACY_DATA|, i requires 0 <= i < |LEGACY_DATA| => LegacyCardOf(LEGACY_DATA[i], now))
  }

  /** A card built from some row of the legacy table. */
  predicate IsTableCard(c: LegacyCard, now: int)
  {
    exists i :: 0 <= i < |LEGACY_DATA| && c == LegacyCardOf(LEGACY_DATA[i], now)
  }

  /**
   * `generateKatakanaCards`: the table mapped to cards (id = character), then shuffled.
   * The result is a reordering of the 46 mapped cards.
   */
  method GenerateKatakanaCards(now: int) returns (cards: seq<LegacyCard>)
    ensures |cards| == 46
    ensures multiset(cards) == multiset(MappedCards(now))
    ensures forall c :: c in cards <==> IsTableCard(c, now)
    ensures forall c :: c in cards ==> c.id == c.character
  {
    LegacyTableIsPrimarySpellings();
    var mapped := MappedCards(now);
    cards := ShuffleArray(mapped);
    forall c ensures c in cards <==> IsTableCard(c, now) {
      assert c in cards <==> c in multiset(cards);
      assert c in mapped <==> c in multiset(mapped);
      if IsTableCard(c, now) {
        var i :| 0 <= i < |LEGACY_DATA| && c == LegacyCardOf(LEGACY_DATA[i], now);
        assert mapped[i] == c;
      }
    }
  }

  /** `getAnswer`: the card's romanisation. */
  function GetAnswer(card: LegacyCard): string
  {
    card.romaji
  }

  /** `isCorrect`: the answer lower-cased then trimmed equals the lower-cased romanisation. */
  predicate IsCorrect(card: LegacyCard, answer: string)
  {
    Trim(Lower(answer)) == Lower(card.romaji)
  }

  /** `formatQuestion`: the character itself. */
  function FormatQuestion(card: LegacyCard): string
  {
    card.character
  }

  /**
   * Every card of the table accepts its own answer, and the same answer in any letter
   * case with any white space around it.
   */
  lemma GeneratedCardAcceptsItsAnswer(c: LegacyCard, now: int, before: string, typed: string, after: string)
    requires IsTableCard(c, now)
    requires AllWhitespace(before) && AllWhitespace(after)
    requires Lower(typed) == GetAnswer(c)
    ensures IsCorrect(c, GetAnswer(c))
    ensures IsCorrect(c, before + typed + after)
  {
    var i :| 0 <= i < |LEGACY_DATA| && c == LegacyCardOf(LEGACY_DATA[i], now);
    LegacyRomajiAreLowerWords(i);
    var word := c.romaji;
    KatakanaDeck.LowerWord(word);
    TrimDropsPadding([], word, []);
    assert [] + word + [] == word;
    KatakanaDeck.LowerConcat(before + typed, after);
    KatakanaDeck.LowerConcat(before, typed);
    KatakanaDeck.LowerOfWhitespace(before);
    KatakanaDeck.LowerOfWhitespace(after);
    TrimDropsPadding(Lower(before), word, Lower(after));
  }

  /** No two cards of the table show the same question. */
  lemma QuestionsDistinct(now: int)
    ensures forall i, j :: 0 <= i < j < |MappedCards(now)| ==>
      FormatQuestion(MappedCards(now)[i]) != FormatQuestion(MappedCards(now)[j])
  {
    LegacyTableIsPrimarySpellings();
    var cards := KatakanaDeck.GenerateCards(now);
    KatakanaDeck.GeneratedCardsDistinct(now);
    forall i, j | 0 <= i < j < |MappedCards(now)|
      ensures FormatQuestion(MappedCards(now)[i]) != FormatQuestion(MappedCards(now)[j])
    {
      assert cards[i].content.character == LEGACY_DATA[i].character;
      assert cards[j].content.character == LEGACY_DATA[j].character;
    }
  }
}
