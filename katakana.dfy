/**
 * The katakana deck: one card per basic katakana character, in gojūon order and not
 * shuffled, answered by typing a romanisation; some characters accept two spellings.
 */
module KatakanaDeck {
  import opened Builtins
  import opened DeckTypes

  /** A row of the character table: the character and its accepted romanisations, primary first. */
  datatype KanaEntry = KanaEntry(character: string, romaji: seq<string>)

  /** The vowels a, i, u, e, o. */
  const VOWELS: seq<KanaEntry> := [
    KanaEntry("ア", ["a"]),
    KanaEntry("イ", ["i"]),
    KanaEntry("ウ", ["u"]),
    KanaEntry("エ", ["e"]),
    KanaEntry("オ", ["o"])
  ]

  /** The k-row. */
  const K_ROW: seq<KanaEntry> := [
    KanaEntry("カ", ["ka"]),
    KanaEntry("キ", ["ki"]),
    KanaEntry("ク", ["ku"]),
    KanaEntry("ケ", ["ke"]),
    KanaEntry("コ", ["ko"])
  ]

  /** The s-row; シ also accepts "si". */
  const S_ROW: seq<KanaEntry> := [
    KanaEntry("サ", ["sa"]),
    KanaEntry("シ", ["shi", "si"]),
    KanaEntry("ス", ["su"]),
    KanaEntry("セ", ["se"]),
    KanaEntry("ソ", ["so"])
  ]

  /** The t-row; チ also accepts "ti" and ツ "tu". */
  const T_ROW: seq<KanaEntry> := [
    KanaEntry("タ", ["ta"]),
    KanaEntry("チ", ["chi", "ti"]),
    KanaEntry("ツ", ["tsu", "tu"]),
    KanaEntry("テ", ["te"]),
    KanaEntry("ト", ["to"])
  ]

  /** The n-row. */
  const N_ROW: seq<KanaEntry> := [
    KanaEntry("ナ", ["na"]),
    KanaEntry("ニ", ["ni"]),
    KanaEntry("ヌ", ["nu"]),
    KanaEntry("ネ", ["ne"]),
    KanaEntry("ノ", ["no"])
  ]

  /** The h-row; フ also accepts "hu". */
  const H_ROW: seq<KanaEntry> := [
    KanaEntry("ハ", ["ha"]),
    KanaEntry("ヒ", ["hi"]),
    KanaEntry("フ", ["fu", "hu"]),
    KanaEntry("ヘ", ["he"]),
    KanaEntry("ホ", ["ho"])
  ]

  /** The m-row. */
  const M_ROW: seq<KanaEntry> := [
    KanaEntry("マ", ["ma"]),
    KanaEntry("ミ", ["mi"]),
    KanaEntry("ム", ["mu"]),
    KanaEntry("メ", ["me"]),
    KanaEntry("モ", ["mo"])
  ]

  /** The y-row. */
  const Y_ROW: seq<KanaEntry> := [
    KanaEntry("ヤ", ["ya"]),
    KanaEntry("ユ", ["yu"]),
    KanaEntry("ヨ", ["yo"])
  ]

  /** The r-row. */
  const R_ROW: seq<KanaEntry> := [
    KanaEntry("ラ", ["ra"]),
    KanaEntry("リ", ["ri"]),
    KanaEntry("ル", ["ru"]),
    KanaEntry("レ", ["re"]),
    KanaEntry("ロ", ["ro"])
  ]

  /** The w-row; ヲ also accepts "o". */
  const W_ROW: seq<KanaEntry> := [
    KanaEntry("ワ", ["wa"]),
    KanaEntry("ヲ", ["wo", "o"])
  ]

  /** The syllabic n. */
  const N_FINAL: seq<KanaEntry> := [
    KanaEntry("ン", ["n"])
  ]

  /** The 46 basic katakana in gojūon order. */
  const KATAKANA_DATA: seq<KanaEntry> :=
    VOWELS + K_ROW + S_ROW + T_ROW + N_ROW + H_ROW
    + M_ROW + Y_ROW + R_ROW + W_ROW + N_FINAL

  function Definition(): DeckDefinition
  {
    DeckDefinition(KATAKANA, "Katakana", "Learn to read basic Katakana characters (46 cards)", TextInput)
  }

  /** A non-empty word of lower-case ASCII letters. */
  predicate IsLowerWord(s: string)
  {
    |s| > 0 && forall i :: 0 <= i < |s| ==> 'a' <= s[i] <= 'z'
  }

  /** One character, and at least one romanisation, each a lower-case word. */
  predicate WellFormedEntry(e: KanaEntry)
  {
    && |e.character| == 1
    && |e.romaji| >= 1
    && forall k :: 0 <= k < |e.romaji| ==> IsLowerWord(e.romaji[k])
  }

  /** The code point of an entry's character. */
  function Code(e: KanaEntry): int
  {
    if |e.character| > 0 then e.character[0] as int else -1
  }

  /** Well-formed rows in strictly increasing code-point order. */
  predicate RowsWellFormed(rows: seq<KanaEntry>)
  {
    && (forall i :: 0 <= i < |rows| ==> WellFormedEntry(rows[i]))
    && (forall i :: 0 <= i < |rows| - 1 ==> Code(rows[i]) < Code(rows[i + 1]))
  }

  /** Two runs of rows join into one when the first ends below where the second starts. */
  lemma JoinRows(a: seq<KanaEntry>, b: seq<KanaEntry>)
    requires RowsWellFormed(a) && RowsWellFormed(b) && a != [] && b != []
    requires Code(a[|a| - 1]) < Code(b[0])
    ensures RowsWellFormed(a + b)
  {
    var ab := a + b;
    forall i | 0 <= i < |ab| - 1 ensures Code(ab[i]) < Code(ab[i + 1]) {
      if i < |a| - 1 {
        assert ab[i] == a[i] && ab[i + 1] == a[i + 1];
      } else if i == |a| - 1 {
        assert ab[i] == a[|a| - 1] && ab[i + 1] == b[0];
      } else {
        assert ab[i] == b[i - |a|] && ab[i + 1] == b[i + 1 - |a|];
      }
    }
  }

  /**
   * The same check as `RowsWellFormed`, written by recursion over an index so that it
   * evaluates on a literal row: rows `i` onwards are well formed and ordered.
   */
  predicate RowsCheckedFrom(rows: seq<KanaEntry>, i: nat)
    requires i <= |rows|
    decreases |rows| - i
  {
    i == |rows| ||
    (&& |rows[i].character| == 1 && rows[i].romaji != [] && WordsCheckedFrom(rows[i].romaji, 0)
     && (i + 1 == |rows| || Code(rows[i]) < Code(rows[i + 1]))
     && RowsCheckedFrom(rows, i + 1))
  }

  predicate WordsCheckedFrom(words: seq<string>, k: nat)
    requires k <= |words|
    decreases |words| - k
  {
    k == |words| || (words[k] != [] && LettersCheckedFrom(words[k], 0) && WordsCheckedFrom(words, k + 1))
  }

  predicate LettersCheckedFrom(s: string, j: nat)
    requires j <= |s|
    decreases |s| - j
  {
    j == |s| || ('a' <= s[j] <= 'z' && LettersCheckedFrom(s, j + 1))
  }

  lemma {:induction false} LettersCheckedSound(s: string, j: nat)
    requires j <= |s| && LettersCheckedFrom(s, j)
    ensures forall i :: j <= i < |s| ==> 'a' <= s[i] <= 'z'
    decreases |s| - j
  {
    if j < |s| {
      LettersCheckedSound(s, j + 1);
    }
  }

  lemma {:induction false} WordsCheckedSound(words: seq<string>, k: nat)
    requires k <= |words| && WordsCheckedFrom(words, k)
    ensures forall m :: k <= m < |words| ==> IsLowerWord(words[m])
    decreases |words| - k
  {
    if k < |words| {
      WordsCheckedSound(words, k + 1);
      LettersCheckedSound(words[k], 0);
    }
  }

  /** Rows that pass the recursive check from the start are well formed. */
  lemma {:induction false} RowsCheckedSound(rows: seq<KanaEntry>, i: nat)
    requires i <= |rows| && RowsCheckedFrom(rows, i)
    ensures forall m :: i <= m < |rows| ==> WellFormedEntry(rows[m])
    ensures forall m :: i <= m < |rows| - 1 ==> Code(rows[m]) < Code(rows[m + 1])
    decreases |rows| - i
  {
    if i < |rows| {
      RowsCheckedSound(rows, i + 1);
      WordsCheckedSound(rows[i].romaji, 0);
    }
  }

  // Each gojūon row on its own is well formed and ordered.

  lemma VowelsWellFormed()
    ensures RowsWellFormed(VOWELS)
  {
    RowsCheckedSound(VOWELS, 0);
  }

  lemma KRowWellFormed()
    ensures RowsWellFormed(K_ROW)
  {
    RowsCheckedSound(K_ROW, 0);
  }

  lemma SRowWellFormed()
    ensures RowsWellFormed(S_ROW)
  {
    RowsCheckedSound(S_ROW, 0);
  }

  lemma TRowWellFormed()
    ensures RowsWellFormed(T_ROW)
  {
    RowsCheckedSound(T_ROW, 0);
  }

  lemma NRowWellFormed()
    ensures RowsWellFormed(N_ROW)
  {
    RowsCheckedSound(N_ROW, 0);
  }

  lemma HRowWellFormed()
    ensures RowsWellFormed(H_ROW)
  {
    RowsCheckedSound(H_ROW, 0);
  }

  lemma MRowWellFormed()
    ensures RowsWellFormed(M_ROW)
  {
    RowsCheckedSound(M_ROW, 0);
  }

  lemma YRowWellFormed()
    ensures RowsWellFormed(Y_ROW)
  {
    RowsCheckedSound(Y_ROW, 0);
  }

  lemma RRowWellFormed()
    ensures RowsWellFormed(R_ROW)
  {
    RowsCheckedSound(R_ROW, 0);
  }

  lemma WRowWellFormed()
    ensures RowsWellFormed(W_ROW)
  {
    RowsCheckedSound(W_ROW, 0);
  }

  lemma NFinalWellFormed()
    ensures RowsWellFormed(N_FINAL)
  {
    RowsCheckedSound(N_FINAL, 0);
  }

  /**
   * The table has 46 well-formed rows whose characters have strictly increasing code
   * points, so `romaji[0]` always exists and no character repeats.
   */
  lemma TableWellFormed()
    ensures |KATAKANA_DATA| == 46
    ensures RowsWellFormed(KATAKANA_DATA)
  {
    VowelsWellFormed();
    KRowWellFormed();
    SRowWellFormed();
    TRowWellFormed();
    NRowWellFormed();
    HRowWellFormed();
    MRowWellFormed();
    YRowWellFormed();
    RRowWellFormed();
    WRowWellFormed();
    NFinalWellFormed();
    JoinRows(VOWELS, K_ROW);
    JoinRows(VOWELS + K_ROW, S_ROW);
    JoinRows(VOWELS + K_ROW + S_ROW, T_ROW);
    JoinRows(VOWELS + K_ROW + S_ROW + T_ROW, N_ROW);
    JoinRows(VOWELS + K_ROW + S_ROW + T_ROW + N_ROW, H_ROW);
    JoinRows(VOWELS + K_ROW + S_ROW + T_ROW + N_ROW + H_ROW, M_ROW);
    JoinRows(VOWELS + K_ROW + S_ROW + T_ROW + N_ROW + H_ROW + M_ROW, Y_ROW);
    JoinRows(VOWELS + K_ROW + S_ROW + T_ROW + N_ROW + H_ROW + M_ROW + Y_ROW, R_ROW);
    JoinRows(VOWELS + K_ROW + S_ROW + T_ROW + N_ROW + H_ROW + M_ROW + Y_ROW + R_ROW, W_ROW);
    JoinRows(VOWELS + K_ROW + S_ROW + T_ROW + N_ROW + H_ROW + M_ROW + Y_ROW + R_ROW + W_ROW, N_FINAL);
  }

  /** Strictly increasing neighbours make the whole table strictly increasing. */
  lemma {:induction false} CodesIncrease(rows: seq<KanaEntry>, i: nat, j: nat)
    requires RowsWellFormed(rows) && i < j < |rows|
    ensures Code(rows[i]) < Code(rows[j])
    decreases j - i
  {
    if j > i + 1 {
      CodesIncrease(rows, i, j - 1);
    }
  }

  /** The card `generateCards` makes from a table row, with a fresh FSRS state created at `now`. */
  function KanaCard(e: KanaEntry, now: int): Card
  {
    Card("katakana-" + e.character, KATAKANA, KatakanaContent(e.character, e.romaji), EmptyFsrsCard(now))
  }

  /**
   * `generateCards`: one card per table row, in table order and not shuffled, with id
   * `katakana-{character}` and the row's character and romanisations as content.
   */
  function GenerateCards(now: int): (cards: seq<Card>)
    ensures |cards| == |KATAKANA_DATA|
    ensures forall i :: 0 <= i < |cards| ==>
      && cards[i].id == "katakana-" + KATAKANA_DATA[i].character
      && cards[i].deckId == KATAKANA
      && cards[i].content == KatakanaContent(KATAKANA_DATA[i].character, KATAKANA_DATA[i].romaji)
      && cards[i].fsrsCard == EmptyFsrsCard(now)
  {
    seq(|KATAKANA_DATA|, i requires 0 <= i < |KATAKANA_DATA| => KanaCard(KATAKANA_DATA[i], now))
  }

  /** The 46 generated cards have distinct ids and distinct characters. */
  lemma GeneratedCardsDistinct(now: int)
    ensures |GenerateCards(now)| == 46
    ensures DistinctIds(GenerateCards(now))
    ensures forall i, j :: 0 <= i < j < 46 ==>
      GenerateCards(now)[i].content.character != GenerateCards(now)[j].content.character
  {
    TableWellFormed();
    var cards := GenerateCards(now);
    forall i, j | 0 <= i < j < 46
      ensures cards[i].id != cards[j].id && cards[i].content.character != cards[j].content.character
    {
      CodesIncrease(KATAKANA_DATA, i, j);
      assert cards[i].id[9] == KATAKANA_DATA[i].character[0];
      assert cards[j].id[9] == KATAKANA_DATA[j].character[0];
    }
  }

  /** What the romanisations are compared with: a string lower-cased then trimmed, a number printed. */
  function NormalizedAnswer(answer: Answer): string
  {
    match answer
    case TextAnswer(s) => Trim(Lower(s))
    case NumberAnswer(n) => IntToString(n)
  }

  /** `romaji.some((r) => r.toLowerCase() === userAnswer)`. */
  function SomeRomajiMatches(romaji: seq<string>, userAnswer: string): (b: bool)
    ensures b <==> exists k :: 0 <= k < |romaji| && Lower(romaji[k]) == userAnswer
  {
    if romaji == [] then false
    else if Lower(romaji[0]) == userAnswer then true
    else
      var b := SomeRomajiMatches(romaji[1..], userAnswer);
      assert b ==> exists k :: 0 <= k < |romaji| && Lower(romaji[k]) == userAnswer by {
        if b {
          var k :| 0 <= k < |romaji| - 1 && Lower(romaji[1..][k]) == userAnswer;
          assert romaji[k + 1] == romaji[1..][k];
        }
      }
      b
  }

  /**
   * `checkAnswer`: correct when the normalised answer equals the lower-cased form of some
   * accepted romanisation; reports the primary romanisation and the answer as typed.
   */
  function CheckAnswer(card: Card, answer: Answer): (r: AnswerCheckResult)
    requires card.content.KatakanaContent? && card.content.romaji != []
    ensures r.isCorrect <==>
      (exists k :: 0 <= k < |card.content.romaji| && Lower(card.content.romaji[k]) == NormalizedAnswer(answer))
    ensures r.correctAnswer == card.content.romaji[0]
    ensures r.userAnswer == AnswerText(answer)
  {
    var userAnswer := NormalizedAnswer(answer);
    var isCorrect := SomeRomajiMatches(card.content.romaji, userAnswer);
    AnswerCheckResult(isCorrect, card.content.romaji[0], AnswerText(answer))
  }

  /** Content whose romanisations are all lower-case words, as every table row has. */
  predicate WellFormedContent(c: Content)
  {
    c.KatakanaContent? && WellFormedEntry(KanaEntry(c.character, c.romaji))
  }

  lemma LowerConcat(a: string, b: string)
    ensures Lower(a + b) == Lower(a) + Lower(b)
  {
  }

  lemma LowerOfWhitespace(s: string)
    requires AllWhitespace(s)
    ensures AllWhitespace(Lower(s))
  {
    forall i | 0 <= i < |s| ensures IsWhitespace(Lower(s)[i]) {
      LowerKeepsWhitespace(s[i]);
    }
  }

  lemma LowerWord(s: string)
    requires IsLowerWord(s)
    ensures Lower(s) == s && NoWhitespace(s)
  {
  }

  /**
   * On a well-formed card a typed string is correct exactly when, lower-cased and trimmed,
   * it is one of the accepted romanisations.
   */
  lemma CorrectIffAccepted(card: Card, typed: string)
    requires WellFormedContent(card.content)
    ensures CheckAnswer(card, TextAnswer(typed)).isCorrect <==> Trim(Lower(typed)) in card.content.romaji
  {
    var romaji := card.content.romaji;
    forall k | 0 <= k < |romaji| ensures Lower(romaji[k]) == romaji[k] {
      LowerWord(romaji[k]);
    }
  }

  /**
   * Every accepted romanisation is judged correct, typed in any letter case and with any
   * white space around it.
   */
  lemma AcceptedSpellingIsCorrect(card: Card, k: nat, before: string, typed: string, after: string)
    requires WellFormedContent(card.content) && k < |card.content.romaji|
    requires AllWhitespace(before) && AllWhitespace(after)
    requires Lower(typed) == card.content.romaji[k]
    ensures CheckAnswer(card, TextAnswer(before + typed + after)).isCorrect
  {
    var word := card.content.romaji[k];
    LowerConcat(before + typed, after);
    LowerConcat(before, typed);
    LowerOfWhitespace(before);
    LowerOfWhitespace(after);
    LowerWord(word);
    TrimDropsPadding(Lower(before), word, Lower(after));
    CorrectIffAccepted(card, before + typed + after);
  }

  /** When the primary romanisation is a lower-case word, typing it as it is is accepted. */
  lemma PrimarySpellingIsAccepted(card: Card)
    requires card.content.KatakanaContent? && card.content.romaji != []
    requires IsLowerWord(card.content.romaji[0])
    ensures CheckAnswer(card, TextAnswer(card.content.romaji[0])).isCorrect
  {
    LowerWordNormalizes(card.content.romaji[0]);
    MatchingSpellingIsCorrect(card, TextAnswer(card.content.romaji[0]), 0);
  }

  /** A lower-case word typed as it is normalises to itself. */
  lemma LowerWordNormalizes(word: string)
    requires IsLowerWord(word)
    ensures Lower(word) == word
    ensures NormalizedAnswer(TextAnswer(word)) == word
  {
    LowerWord(word);
    TrimOfWord(word);
  }


  /** A romanisation that lower-cases to the normalised answer makes the answer correct. */
  lemma MatchingSpellingIsCorrect(card: Card, answer: Answer, k: nat)
    requires card.content.KatakanaContent? && k < |card.content.romaji|
    requires Lower(card.content.romaji[k]) == NormalizedAnswer(answer)
    ensures CheckAnswer(card, answer).isCorrect
  {
  }


  /** Every generated card has well-formed content. */
  lemma GeneratedContentWellFormed(now: int, i: nat)
    requires i < |GenerateCards(now)|
    ensures WellFormedContent(GenerateCards(now)[i].content)
  {
    TableWellFormed();
  }

  /** The rows with two romanisations: シ, チ, ツ, フ and ヲ. */
  lemma TwoSpellingRows()
    ensures KATAKANA_DATA[11] == KanaEntry("シ", ["shi", "si"])
    ensures KATAKANA_DATA[16] == KanaEntry("チ", ["chi", "ti"])
    ensures KATAKANA_DATA[17] == KanaEntry("ツ", ["tsu", "tu"])
    ensures KATAKANA_DATA[27] == KanaEntry("フ", ["fu", "hu"])
    ensures KATAKANA_DATA[44] == KanaEntry("ヲ", ["wo", "o"])
  {
  }

  /** The generated cards of シ and ツ carry both spellings. */
  lemma GeneratedTwoSpellingCards(now: int)
    ensures GenerateCards(now)[11].content == KatakanaContent("シ", ["shi", "si"])
    ensures GenerateCards(now)[17].content == KatakanaContent("ツ", ["tsu", "tu"])
    ensures GenerateCards(now)[44].content == KatakanaContent("ヲ", ["wo", "o"])
  {
    TwoSpellingRows();
  }

  /** シ accepts "si" besides "shi", and still reports "shi" as the answer. */
  lemma ShiAcceptsSi(card: Card)
    requires card.content == KatakanaContent("シ", ["shi", "si"])
    ensures CheckAnswer(card, TextAnswer("si")).isCorrect
    ensures CheckAnswer(card, TextAnswer("si")).correctAnswer == "shi"
  {
    var si := card.content.romaji[1];
    LowerWordNormalizes(si);
    MatchingSpellingIsCorrect(card, TextAnswer(si), 1);
  }


  /** ツ accepts " TU " (upper case, padded) besides "tsu". */
  lemma TsuAcceptsPaddedTu(card: Card)
    requires card.content == KatakanaContent("ツ", ["tsu", "tu"])
    ensures CheckAnswer(card, TextAnswer(" TU ")).isCorrect
  {
    var tu := card.content.romaji[1];
    assert Lower(tu) == tu;
    assert Lower(" TU ") == " " + tu + " ";
    assert NoWhitespace(tu);
    TrimDropsPadding(" ", tu, " ");
    assert NormalizedAnswer(TextAnswer(" TU ")) == Lower(tu);
  }

  /**
   * `getCorrectAnswerString`: the primary romanisation alone, or followed by
   * ` (or {the others joined by ", "})` when there are alternatives.
   */
  function GetCorrectAnswerString(card: Card): (s: string)
    requires card.content.KatakanaContent? && card.content.romaji != []
    ensures card.content.romaji[0] <= s
    ensures s == card.content.romaji[0] <==> |card.content.romaji| == 1
    ensures forall k :: 0 <= k < |card.content.romaji| ==> OccursIn(card.content.romaji[k], s)
  {
    var romaji := card.content.romaji;
    if |romaji| > 1 then
      AllSpellingsShown(romaji);
      romaji[0] + " (or " + Join(romaji[1..], ", ") + ")"
    else
      OccursInMiddle("", romaji[0], "");
      assert "" + romaji[0] + "" == romaji[0];
      romaji[0]
  }

  /** The display with alternatives shows every spelling. */
  lemma AllSpellingsShown(romaji: seq<string>)
    requires |romaji| > 1
    ensures forall k :: 0 <= k < |romaji| ==>
      OccursIn(romaji[k], romaji[0] + " (or " + Join(romaji[1..], ", ") + ")")
  {
    var rest := Join(romaji[1..], ", ");
    var s := romaji[0] + " (or " + rest + ")";
    forall k | 0 <= k < |romaji| ensures OccursIn(romaji[k], s) {
      if k == 0 {
        OccursInMiddle("", romaji[0], " (or " + rest + ")");
        assert "" + romaji[0] + (" (or " + rest + ")") == s;
      } else {
        JoinShowsParts(romaji[1..], ", ", k - 1);
        assert romaji[1..][k - 1] == romaji[k];
        OccursInWider(romaji[k], rest, romaji[0] + " (or ", ")");
      }
    }
  }

  /** The two-spelling rows show both: "shi (or si)" and "wo (or o)". */
  lemma CorrectAnswerStringExamples(shi: Card, wo: Card)
    requires shi.content == KatakanaContent("シ", ["shi", "si"])
    requires wo.content == KatakanaContent("ヲ", ["wo", "o"])
    ensures GetCorrectAnswerString(shi) == "shi (or si)"
    ensures GetCorrectAnswerString(wo) == "wo (or o)"
  {
    assert shi.content.romaji[1..] == ["si"];
    assert wo.content.romaji[1..] == ["o"];
  }


  /** `formatQuestion`: the character itself. */
  function FormatQuestion(card: Card): string
    requires card.content.KatakanaContent?
  {
    card.content.character
  }

  /** Each generated card asks a single character, and no two ask the same. */
  lemma GeneratedQuestionsDistinct(now: int, i: nat, j: nat)
    requires i < j < |GenerateCards(now)|
    ensures |FormatQuestion(GenerateCards(now)[i])| == 1
    ensures FormatQuestion(GenerateCards(now)[i]) != FormatQuestion(GenerateCards(now)[j])
  {
    GeneratedCardsDistinct(now);
    GeneratedContentWellFormed(now, i);
  }
}
