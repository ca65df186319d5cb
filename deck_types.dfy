/**
 * The shapes every deck shares: the deck identifiers, the generic card with its
 * spaced-repetition memory state, the deck definition and the two typing helpers.
 */
module DeckTypes {
  import opened Wrappers
  import opened Builtins

  /**
   * The deck identifiers. `SUBTRACTION` is used by the subtraction deck although the
   * source's enum declares only the first two; the model declares all three.
   */
  datatype DeckType = MULTIPLICATION | KATAKANA | SUBTRACTION

  /** The enum's string value, which is what the persisted documents hold. */
  function DeckTypeName(t: DeckType): string
  {
    match t
    case MULTIPLICATION => "multiplication"
    case KATAKANA => "katakana"
    case SUBTRACTION => "subtraction"
  }

  lemma DeckTypeNameInjective(a: DeckType, b: DeckType)
    requires DeckTypeName(a) == DeckTypeName(b)
    ensures a == b
  {
  }

  /** FSRS memory states as the spaced-repetition library numbers them. */
  const STATE_NEW := 0
  const STATE_LEARNING := 1
  const STATE_REVIEW := 2
  const STATE_RELEARNING := 3

  /**
   * The part of the spaced-repetition library's card the core reads: its state, its due
   * time in milliseconds since the epoch, and the days elapsed since the last review.
   * The state is an integer because the scheduler also ranks values outside 0..3.
   */
  datatype FsrsCard = FsrsCard(state: int, due: int, elapsedDays: int)

  /** What the library's `createEmptyCard(now)` gives: a New card, due now, never reviewed. */
  function EmptyFsrsCard(now: int): (c: FsrsCard)
    ensures c.state == STATE_NEW && c.due == now && c.elapsedDays == 0
  {
    FsrsCard(STATE_NEW, now, 0)
  }

  /** Deck-specific payloads, one variant per deck. */
  datatype Content =
    | MultiplicationContent(multiplicand: int, multiplier: int)
    | SubtractionContent(minuend: int, subtrahend: int)
    | KatakanaContent(character: string, romaji: seq<string>)

  datatype Card = Card(id: string, deckId: DeckType, content: Content, fsrsCard: FsrsCard)

  datatype InputType = NumberInput | TextInput

  datatype AnswerCheckResult = AnswerCheckResult(isCorrect: bool, correctAnswer: string, userAnswer: string)

  /** A raw answer: `string | number`. */
  datatype Answer = NumberAnswer(n: int) | TextAnswer(s: string)

  /** `answer.toString()`. */
  function AnswerText(a: Answer): string
  {
    match a
    case NumberAnswer(n) => IntToString(n)
    case TextAnswer(s) => s
  }

  /** `typeof answer === "number" ? answer : parseInt(answer, 10)`, with NaN as `None`. */
  function NumericAnswer(answer: Answer): Option<int>
  {
    match answer
    case NumberAnswer(n) => Some(n)
    case TextAnswer(s) => ParseInt(s)
  }

  /** `typeof a === typeof b`. */
  predicate SameKind(a: Answer, b: Answer)
  {
    a.NumberAnswer? == b.NumberAnswer?
  }

  /**
   * A deck's identity and display data. Its capabilities (generating, formatting and
   * checking cards) are the functions of the deck's own module, selected by `id`.
   */
  datatype DeckDefinition = DeckDefinition(id: DeckType, name: string, description: string, inputType: InputType)

  /** Ids of distinct positions differ. */
  ghost predicate DistinctIds(cards: seq<Card>)
  {
    forall i, j :: 0 <= i < j < |cards| ==> cards[i].id != cards[j].id
  }

  /** `isCardOfDeck`: the type guard that a card belongs to a deck. */
  predicate IsCardOfDeck(card: Card, deckType: DeckType)
  {
    card.deckId == deckType
  }

  /** `getCardContent`: the card's content, or the error thrown for a card of another deck. */
  function GetCardContent(card: Card, deckType: DeckType): (r: Result<Content>)
    ensures r.Success? <==> IsCardOfDeck(card, deckType)
    ensures r.Success? ==> r.value == card.content
  {
    if card.deckId != deckType then
      Failure("Card " + card.id + " does not belong to deck " + DeckTypeName(deckType))
    else
      Success(card.content)
  }

  /** Pushing the next card of a list extends the prefix built so far by that card. */
  lemma PrefixExtend(s: seq<Card>, k: nat)
    requires k < |s|
    ensures s[..k + 1] == s[..k] + [s[k]]
  {
  }

  /** Joining two lists with distinct ids and no id in common keeps the ids distinct. */
  lemma ConcatDistinctIds(a: seq<Card>, b: seq<Card>)
    requires DistinctIds(a) && DistinctIds(b)
    requires forall x, y :: x in a && y in b ==> x.id != y.id
    ensures DistinctIds(a + b)
  {
    var all := a + b;
    forall i, j | 0 <= i < j < |all| ensures all[i].id != all[j].id {
      if j < |a| {
        assert all[i] == a[i] && all[j] == a[j];
      } else if i < |a| {
        assert all[i] == a[i] && all[j] == b[j - |a|];
      } else {
        assert all[i] == b[i - |a|] && all[j] == b[j - |a|];
      }
    }
  }

  /** An element that occurs twice in a list occurs at two positions. */
  lemma TwoOccurrences(t: seq<Card>, x: Card) returns (i: nat, j: nat)
    requires multiset(t)[x] >= 2
    ensures i < |t| && j < |t| && i != j && t[i] == x && t[j] == x
  {
    assert x in multiset(t);
    i :| 0 <= i < |t| && t[i] == x;
    assert t == t[..i] + [t[i]] + t[i + 1..];
    if x in multiset(t[..i]) {
      j :| 0 <= j < i && t[..i][j] == x;
    } else {
      assert x in multiset(t[i + 1..]);
      var k :| 0 <= k < |t| - i - 1 && t[i + 1..][k] == x;
      j := i + 1 + k;
    }
  }

  /** An element at two positions of a list occurs there at least twice. */
  lemma RepeatedCounts(s: seq<Card>, i: nat, j: nat)
    requires i < j < |s| && s[i] == s[j]
    ensures multiset(s)[s[i]] >= 2
  {
    assert s == s[..j] + [s[j]] + s[j + 1..];
    assert s[..j][i] == s[i];
    assert s[i] in multiset(s[..j]);
  }

  /** Reordering a list of cards with distinct ids keeps the ids distinct. */
  lemma PermutationKeepsDistinctIds(s: seq<Card>, t: seq<Card>)
    requires multiset(s) == multiset(t) && DistinctIds(t)
    ensures DistinctIds(s)
  {
    forall i, j | 0 <= i < j < |s| ensures s[i].id != s[j].id {
      if s[i] == s[j] {
        RepeatedCounts(s, i, j);
        var i', j' := TwoOccurrences(t, s[i]);
        assert false;
      } else {
        assert s[i] in multiset(t) && s[j] in multiset(t);
        var i' :| 0 <= i' < |t| && t[i'] == s[i];
        var j' :| 0 <= j' < |t| && t[j'] == s[j];
        assert i' != j';
      }
    }
  }
}
