# Review engine of times-table-fsrs

A Dafny model of the review engine of times-table-fsrs, a flashcard trainer that schedules cards with FSRS spaced repetition. The model covers these parts:

- **Grading.** Per-deck response-time statistics, their percentiles, the warm-up flag, the grade an answer earns, and the response record that is logged.
- **Scheduler.** The due / not-due split, the two card orders, the choice of the next card, the collection statistics, and the upcoming-review histogram.
- **Decks.** Three decks: multiplication (784 cards), subtraction (4851 cards) and katakana (46 cards). Each deck generates its cards, shuffles them where the source does, formats questions, checks answers and displays the correct answer.
- **Legacy katakana module.** The module that predates decks.
- **Registry.** The deck registry (a class over a map) and its start-up contents.
- **Storage.** The pure rules of storage: default settings, settings and speed-statistics migration, old-card migration, and validation of imported backups.

Modelling choices:

- **Clock and randomness.** Both become parameters. `now` is an integer in milliseconds.
  - The Fisher–Yates swap index is a nondeterministic choice in `0..i`, so what the shuffle promises holds for every sequence of draws.
  - The draw in `getNextCard` is a real `rand` in `[0, 1)`.
- **Library calls.** `parseInt`, `Number.prototype.toString`, `toLowerCase` (ASCII letters) and `trim` (ECMAScript white space) are written out in `Builtins`.
- **JSON.** A JSON document is the `Storage.Json` datatype.
- **Deck identifiers.** `DeckType` has the variant `SUBTRACTION`. The source's enum declares only two members, yet its subtraction deck uses a third. The code is followed here.
- **State priorities.** The scheduler's priorities are doubled to integers: New 0, Learning 2, Relearning 3, Review 4, and 1998 for any other state. This follows the table at `src/lib/scheduler.ts:47` and not the comment on line 42, which lists Review before Relearning.
- **Shuffle.** The three copies of `shuffleArray` are the same Fisher–Yates loop. They are in `src/lib/decks/multiplication.ts:20-27`, `src/lib/decks/subtraction.ts:16-23` and `src/lib/cards.ts:70-77`. All three are modelled once, as `Shuffle.ShuffleArray`.
- **Deck capabilities.** A deck definition's functions are selected by deck identifier in `DeckCatalog`.

## Model

| member | source | states |
|---|---|---|
| Grading.SortedTimes | src/lib/grading.ts:17 | the sorted copy is a permutation of the samples, in ascending order |
| Grading.SortedAscendingUnique | src/lib/grading.ts:17 | two ascending lists with the same elements are equal, so the sorted copy depends only on the multiset of samples |
| Grading.PercentileRanks | src/lib/grading.ts:20-25 | for n ≥ 1 the ranks n/4 ≤ n/2 ≤ 3n/4 ≤ 9n/10 are valid indices |
| Grading.CalculatePercentiles | src/lib/grading.ts:7-26 | no samples give all zeros; otherwise each percentile is a sample at the truncated rank of its fraction: for rank k = n/4, n/2, 3n/4, 9n/10, at most k samples lie below it and more than k at or below it; every percentile is one of the samples and p25 ≤ p50 ≤ p75 ≤ p90 |
| Grading.PercentilesIgnoreOrder | src/lib/grading.ts:17-25 | percentiles depend only on the multiset of samples |
| Grading.PercentilesOfFourSamples | src/lib/grading.ts:17-25 | samples 100, 200, 300, 400 in any order give (200, 300, 400, 400) |
| Grading.CreateDefaultSpeedStats | src/lib/grading.ts:31-37 | no samples, not warmed up, consistent for every warm-up target |
| Grading.UpdateSpeedStats | src/lib/grading.ts:42-55 | appends the time to the samples; percentiles are those of the new samples; warmed up iff the count reaches the target |
| Grading.RecordAllAppends | src/lib/grading.ts:47 | a run of updates appends the times in order |
| Grading.RecordAllKeepsConsistent | src/lib/grading.ts:47-53 | a run of updates keeps the statistics consistent with their samples |
| Grading.WarmUpLength | src/lib/grading.ts:31-48 | from the defaults, k updates are warmed up iff k ≥ 1 and k ≥ the target |
| Grading.WarmUpIsPermanent | src/lib/grading.ts:48 | once warmed up, a further update stays warmed up |
| Grading.CalculateGrade | src/lib/grading.ts:60-75 | wrong gives Again; correct before warm-up gives Good; after warm-up the ladder ≤p25 Easy, ≤p50 Good, ≤p75 Hard, else Again |
| Grading.GradeMonotoneInTime | src/lib/grading.ts:71-74 | a slower answer never earns a better grade |
| Grading.GradeAgainstSamples | src/lib/grading.ts:71-74 | after warm-up, an answer no slower than every sample is Easy and one slower than every sample is Again |
| Grading.AnswerTextInjective | src/lib/grading.ts:86-88 | answers of one type that print the same are equal |
| Grading.CreateResponseRecord | src/lib/grading.ts:80-97 | correct iff both answers have the same type and print the same, i.e. are the same answer; the other fields are copied |
| Grading.RecordCheckedResponse | src/app/page.tsx:298-322 | the logged verdict is the deck check's verdict |
| Scheduler.GetDueCards | src/lib/scheduler.ts:14-19 | an order-preserving subsequence holding exactly the cards with due ≤ now, each as many times as in the input |
| Scheduler.GetNotDueCards | src/lib/scheduler.ts:24-29 | an order-preserving subsequence holding exactly the cards with due > now, each as many times as in the input |
| Scheduler.IsCardDue | src/lib/scheduler.ts:7-9 | the definition: a card is due when its due time is at or before now; GetDueCards and GetNotDueCards split by it |
| Scheduler.DueSplitPartitions | src/lib/scheduler.ts:14-29 | every card is in exactly one of the two lists |
| Scheduler.StatePriorityOrder | src/lib/scheduler.ts:47-53 | New < Learning < Relearning < Review < any other state |
| Scheduler.DueComparatorIsConsistent | src/lib/scheduler.ts:35-37 | the due-date comparator is a consistent total preorder |
| Scheduler.PriorityComparatorIsConsistent | src/lib/scheduler.ts:49-61 | the priority comparator is a consistent total preorder ordering by (priority, due) |
| Scheduler.SortCardsByDueDate | src/lib/scheduler.ts:34-38 | a permutation of the cards, ascending by due date |
| Scheduler.SortCardsByStatePriority | src/lib/scheduler.ts:44-62 | a permutation of the cards, ascending by (state priority, due) |
| Scheduler.EarliestDueFirst | src/lib/scheduler.ts:94-95 | the head of the due-date order is the first card, in input order, with the least due date |
| Scheduler.HighestPriorityFirst | src/lib/scheduler.ts:79-80 | the head of the priority order is the first card, in input order, with the least (priority, due) key |
| Collections.SortByHeadIsFirstLeast | src/lib/scheduler.ts:34-38 | the sort is stable: the head of the sorted copy is the first input element that comes before or with every element, and every earlier element comes strictly after it |
| Scheduler.NewNotDueCards | src/lib/scheduler.ts:84 | an order-preserving subsequence of the cards holding exactly the not-due cards in state New, each as many times as in the input |
| Scheduler.NewCardWindow | src/lib/scheduler.ts:88 | `Math.min(5, n)`: at most 5 and at most n, and equal to one of them |
| Scheduler.GetNextCard | src/lib/scheduler.ts:68-96 | none iff no cards; otherwise a card of the list. With due cards: the first due card, in input order, with the least (priority, due) key. With none due but New cards: one of the first min(5, #new) New cards in input order. Otherwise: the first card, in input order, with the least due date |
| Scheduler.EveryEarlyNewCardCanBePicked | src/lib/scheduler.ts:87-90 | each of the first min(5, #new) New cards is the pick for some draw |
| Scheduler.StateCountsBounded | src/lib/scheduler.ts:115-142 | the four state counts add up to at most the card count, and to exactly it when every state is 0..3 |
| Scheduler.GetCardStats | src/lib/scheduler.ts:101-153 | total and due counts, per-state counts, and mean elapsed days (0 with no cards) |
| Scheduler.GetUpcomingReviews | src/lib/scheduler.ts:158-177 | `days` buckets; bucket i counts the cards with floor((due − now)/86400000) = i |
| Scheduler.BucketSumCountsHorizon | src/lib/scheduler.ts:171-173 | the buckets add up to the cards due within the horizon, at most the card count |
| Scheduler.BucketSumOfNoCards | src/lib/scheduler.ts:163 | no cards give all-zero buckets |
| Shuffle.ShuffleArray | src/lib/decks/multiplication.ts:20-27 | a permutation of the input; inputs of length ≤ 1 are returned as they are |
| DeckTypes.GetCardContent | src/lib/deck-types.ts:95-103 | fails exactly when the card is of another deck (`isCardOfDeck` is false); otherwise returns the content unchanged |
| DeckTypes.IsCardOfDeck | src/lib/deck-types.ts:85-90 | the definition: the card belongs to the deck when its deck id is that deck; GetCardContent succeeds exactly when it holds |
| DeckTypes.EmptyFsrsCard | src/lib/decks/multiplication.ts:54 | the card every generator creates: state New, due at the creation time, no elapsed days |
| DeckTypes.PermutationKeepsDistinctIds | src/lib/decks/multiplication.ts:60 | shuffling cards with distinct ids keeps the ids distinct |
| MultiplicationDeck.CardIdInjective | src/lib/decks/multiplication.ts:45 | `mult-{a}x{b}` determines a and b |
| MultiplicationDeck.RowsUpToLength | src/lib/decks/multiplication.ts:43-44 | the loops push 98 cards per multiplicand |
| MultiplicationDeck.RowsUpToMembers | src/lib/decks/multiplication.ts:43-56 | the pushed cards are exactly the facts with multiplicand up to the bound |
| MultiplicationDeck.RowsUpToDistinctIds | src/lib/decks/multiplication.ts:45 | the pushed ids are distinct |
| MultiplicationDeck.OrderedCardsFacts | src/lib/decks/multiplication.ts:39-57 | 784 cards, exactly the facts 2..9 × 2..99, distinct ids |
| MultiplicationDeck.GenerateCards | src/lib/decks/multiplication.ts:39-61 | a permutation of the pushed cards: 784 cards, each fact once, distinct ids |
| MultiplicationDeck.FormatQuestionInjective | src/lib/decks/multiplication.ts:63-65 | different facts show different questions |
| MultiplicationDeck.FormatQuestion | src/lib/decks/multiplication.ts:63-65 | the text `{a} × {b}`; FormatQuestionInjective shows it names the fact |
| MultiplicationDeck.GetCorrectAnswerString | src/lib/decks/multiplication.ts:83-85 | `parseInt` reads the string back as the product |
| MultiplicationDeck.CheckAnswer | src/lib/decks/multiplication.ts:67-81 | correct iff the answer read as a number is the product; reports the displayed answer and echoes the answer as typed |
| MultiplicationDeck.CheckAnswerReadsTypedNumber | src/lib/decks/multiplication.ts:73-74 | leading white space and trailing non-digits are ignored; a number answer is judged by its value |
| MultiplicationDeck.CorrectAnswerIsAccepted | src/lib/decks/multiplication.ts:74-78 | the reported answer, typed back, is accepted |
| SubtractionDeck.CardIdInjective | src/lib/decks/subtraction.ts:41 | `sub-{m}-{s}` determines m and s |
| SubtractionDeck.RowsUpToLength | src/lib/decks/subtraction.ts:39-40 | the loops push (m − 1) cards per minuend |
| SubtractionDeck.OrderedCardsProblems | src/lib/decks/subtraction.ts:35-53 | 4851 cards, exactly the pairs 2 ≤ m ≤ 99, 1 ≤ s < m, distinct ids |
| SubtractionDeck.GenerateCards | src/lib/decks/subtraction.ts:35-57 | a permutation of the pushed cards: 4851 cards, each pair once, differences ≥ 1, distinct ids |
| SubtractionDeck.FormatQuestionInjective | src/lib/decks/subtraction.ts:59-61 | different problems show different questions |
| SubtractionDeck.FormatQuestion | src/lib/decks/subtraction.ts:59-61 | the text `{m} − {s}` with the minus sign U+2212; FormatQuestionInjective shows it names the problem |
| SubtractionDeck.GetCorrectAnswerString | src/lib/decks/subtraction.ts:80-82 | `parseInt` reads the string back as the difference |
| SubtractionDeck.CheckAnswer | src/lib/decks/subtraction.ts:63-78 | correct iff the answer read as a number is the difference; reports the displayed answer and echoes the answer as typed |
| SubtractionDeck.CheckAnswerReadsTypedNumber | src/lib/decks/subtraction.ts:68-71 | leading white space and trailing non-digits are ignored |
| SubtractionDeck.CorrectAnswerIsAccepted | src/lib/decks/subtraction.ts:71-75 | the reported answer, typed back, is accepted |
| KatakanaDeck.TableWellFormed | src/lib/decks/katakana.ts:17-85 | 46 rows, each one character with at least one lower-case romanisation, characters strictly increasing |
| KatakanaDeck.CodesIncrease | src/lib/decks/katakana.ts:17-85 | no character occurs twice in the table |
| KatakanaDeck.GenerateCards | src/lib/decks/katakana.ts:97-107 | one card per row, in table order: id `katakana-{char}`, the katakana deck, the row's content |
| KatakanaDeck.GeneratedCardsDistinct | src/lib/decks/katakana.ts:97-107 | 46 cards with distinct ids and distinct characters |
| KatakanaDeck.SomeRomajiMatches | src/lib/decks/katakana.ts:124-126 | true iff some accepted romanisation, lower-cased, equals the answer |
| KatakanaDeck.CheckAnswer | src/lib/decks/katakana.ts:113-133 | correct iff the normalised answer equals some lower-cased romanisation; reports `romaji[0]` and the answer as typed |
| KatakanaDeck.CorrectIffAccepted | src/lib/decks/katakana.ts:118-126 | on well-formed content, a typed answer is correct iff lower-cased and trimmed it is an accepted romanisation |
| KatakanaDeck.AcceptedSpellingIsCorrect | src/lib/decks/katakana.ts:118-126 | every accepted romanisation is correct in any case, with any white space around it |
| KatakanaDeck.GeneratedContentWellFormed | src/lib/decks/katakana.ts:97-107 | every generated card's romanisations are non-empty lower-case words |
| KatakanaDeck.TwoSpellingRows | src/lib/decks/katakana.ts:34-81 | シ, チ, ツ, フ and ヲ accept two spellings |
| KatakanaDeck.GeneratedTwoSpellingCards | src/lib/decks/katakana.ts:97-107 | the generated cards of シ, ツ and ヲ carry both of their spellings |
| KatakanaDeck.MatchingSpellingIsCorrect | src/lib/decks/katakana.ts:124-126 | an answer is correct as soon as one romanisation, lower-cased, equals it normalised |
| KatakanaDeck.LowerWordNormalizes | src/lib/decks/katakana.ts:120 | a lower-case word typed as it is normalises to itself |
| KatakanaDeck.PrimarySpellingIsAccepted | src/lib/decks/katakana.ts:118-130 | the reported answer `romaji[0]`, typed as it is, is accepted when it is a lower-case word |
| KatakanaDeck.ShiAcceptsSi | src/lib/decks/katakana.ts:34 | on a シ card, "si" is correct and "shi" is reported |
| KatakanaDeck.TsuAcceptsPaddedTu | src/lib/decks/katakana.ts:42 | on a ツ card, " TU " is correct |
| KatakanaDeck.GetCorrectAnswerString | src/lib/decks/katakana.ts:135-141 | begins with `romaji[0]`, is exactly it iff there is one romanisation, and shows every accepted romanisation |
| KatakanaDeck.CorrectAnswerStringExamples | src/lib/decks/katakana.ts:137-138 | a シ card shows "shi (or si)" and a ヲ card "wo (or o)" |
| KatakanaDeck.GeneratedQuestionsDistinct | src/lib/decks/katakana.ts:109-111 | each question is one character and no two cards ask the same |
| KatakanaDeck.FormatQuestion | src/lib/decks/katakana.ts:109-111 | the card's character; GeneratedQuestionsDistinct shows no two cards ask the same |
| LegacyCards.LegacyTableIsPrimarySpellings | src/lib/cards.ts:7-65 | the legacy table is the deck table cut to the primary romanisation, row by row |
| LegacyCards.LegacyRomajiAreLowerWords | src/lib/cards.ts:7-65 | every legacy romanisation is a non-empty lower-case word |
| LegacyCards.GenerateKatakanaCards | src/lib/cards.ts:83-93 | a permutation of the 46 mapped cards; exactly the table's cards; id = character |
| LegacyCards.GeneratedCardAcceptsItsAnswer | src/lib/cards.ts:98-107 | every table card accepts its own answer, in any case and with any white space around it |
| LegacyCards.QuestionsDistinct | src/lib/cards.ts:112-114 | no two legacy cards ask the same question |
| LegacyCards.FormatQuestion | src/lib/cards.ts:112-114 | the card's character; QuestionsDistinct shows no two cards ask the same |
| LegacyCards.GetAnswer | src/lib/cards.ts:98-100 | the card's romanisation; GeneratedCardAcceptsItsAnswer shows every table card accepts it |
| LegacyCards.IsCorrect | src/lib/cards.ts:105-107 | the answer, lower-cased and trimmed, equals the lower-cased romanisation; GeneratedCardAcceptsItsAnswer shows what it accepts |
| DeckCatalog.Definition | src/lib/decks/multiplication.ts:33-37 | each deck's definition carries its own id; katakana takes text, the others numbers (the subtraction and katakana definitions are at src/lib/decks/subtraction.ts:29-33 and src/lib/decks/katakana.ts:91-95) |
| DeckCatalog.GenerateCards | src/lib/deck-types.ts:53-57 | a reordering of the deck's cards, as many as announced, all of the deck, well typed, distinct ids |
| DeckCatalog.CheckAnswer | src/lib/deck-types.ts:66-72 | every deck echoes the answer as typed |
| DeckCatalog.FormatQuestion | src/lib/deck-types.ts:64 | the question of the card's own deck |
| DeckCatalog.GetCorrectAnswerString | src/lib/deck-types.ts:79 | a number deck shows a string `parseInt` reads as the product or difference; the katakana deck shows every accepted romanisation |
| DeckCatalog.ReportedAnswerMatchesDisplay | src/lib/decks/katakana.ts:130-140 | the reported answer is a prefix of the displayed one, equal to it except on two-spelling katakana cards |
| Registry.DeckRegistry.constructor | src/lib/deck-registry.ts:8 | an empty registry |
| Registry.DeckRegistry.Register | src/lib/deck-registry.ts:13-19 | a new id is added with its definition at the end of the order; a present id changes nothing; other ids unaffected |
| Registry.DeckRegistry.GetDeck | src/lib/deck-registry.ts:25-31 | fails exactly when the id is not registered; otherwise the registered definition, which has that id |
| Registry.DeckRegistry.HasDeck | src/lib/deck-registry.ts:43-45 | the definition: the id is registered; GetDeck fails exactly when it is false |
| Registry.DeckRegistry.GetAllDecks | src/lib/deck-registry.ts:36-38 | one definition per registered id, in registration order, no duplicates |
| Registry.DeckRegistry.GetDeckForCard | src/lib/deck-registry.ts:50-52 | fails exactly when the card's deck is not registered; otherwise that deck |
| Registry.DeckRegistry.GenerateCardsForDecks | src/lib/deck-registry.ts:57-73 | a reordering of the concatenated cards of the enabled registered decks; each card of an enabled, registered deck and well typed |
| Registry.DeckRegistry.CardsForUnregistered | src/lib/deck-registry.ts:61-69 | unregistered ids contribute no cards |
| Registry.DeckRegistry.FilterCardsByDecks | src/lib/deck-registry.ts:78-84 | an order-preserving subsequence holding exactly the cards of enabled decks, each as many times as in the input |
| Registry.DeckRegistry.FilterCardsByDecksIdempotent | src/lib/deck-registry.ts:78-84 | filtering twice equals filtering once |
| DecksIndex.InitRegistry | src/lib/decks/index.ts:13-14 | the registry holds multiplication then katakana, and not subtraction |
| Storage.CreateDefaultSettings | src/lib/storage.ts:38-45 | warm-up target 50, sound and upcoming reviews on, multiplication only |
| Storage.MergeSettings | src/lib/storage.ts:414-419 | the keys are exactly the settings keys and the stored ones; stored fields override defaults; a falsy or missing deck list becomes multiplication only |
| Storage.LoadSettings | src/lib/storage.ts:235-264 | nothing stored gives the defaults; a missing or falsy deck list gives the merge; otherwise the stored settings unchanged |
| Storage.MergeKeepsCompleteSettings | src/lib/storage.ts:244-255 | a complete stored document is kept by both loading and merging |
| Storage.DefaultSettingsRoundTrip | src/lib/storage.ts:244-255 | stored defaults load back unchanged |
| Storage.PerDeckSpeedStatsCases | src/lib/storage.ts:205-217 | per deck iff an object or array without both `responses` and `percentiles`; a record wrapped under "multiplication" is per deck |
| Storage.IsPerDeckSpeedStats | src/lib/storage.ts:205-217 | the detector: false for non-objects and null, false for a record with both `responses` and `percentiles`, true otherwise |
| Storage.MigrateSpeedStats | src/lib/storage.ts:177-189 | any truthy value that is not per deck (the legacy flat record, or a stray primitive) becomes `{"multiplication": old}`; per-deck values are kept; missing or falsy values become `{}`; the result is per deck |
| Storage.MigrateSpeedStatsIdempotent | src/lib/storage.ts:177-189 | migrating again changes nothing |
| Storage.MigrateOldCards | src/lib/storage.ts:57-75 | same length and order; each card keeps id, operands and state and becomes a multiplication card |
| Storage.MigratedCardsDistinct | src/lib/storage.ts:57-75 | distinct old ids give distinct migrated ids, all multiplication content |
| Storage.MigrateOldCardsAppend | src/lib/storage.ts:60 | migration distributes over concatenation |
| Storage.ValidateImportData | src/lib/storage.ts:323-360 | valid iff the top level, the first card and the session all pass; throws iff the first card is a value `in` cannot search |
| Storage.ImportData | src/lib/storage.ts:365-434 | invalid data fails with "Invalid data format"; success needs validity and every card and response convertible; the old path iff the first card has `multiplicand` and no `deckId`; settings are merged |
| Storage.LaterCardIsNotValidated | src/lib/storage.ts:337-395 | a valid bundle with a later card lacking a state makes the import throw |
| AnswerLog.LogAsWritten | src/app/page.tsx:317-322 | the logged verdict is whether the typed text is exactly the reported answer |
| AnswerLog.AlternativeSpellingLoggedIncorrect | src/app/page.tsx:317-322 | "si" for シ is accepted by the deck but logged as incorrect |
| AnswerLog.LeadingZeroLoggedIncorrect | src/app/page.tsx:317-322 | "056" for 7 × 8, which the digits-only number input lets through, is accepted by the deck but logged as incorrect |
| AnswerLog.AsWrittenOnlyUndercounts | src/app/page.tsx:298-322 | text logged as correct is always accepted by the deck |
| AnswerLog.LogResponse | src/app/page.tsx:298-322 | the logged verdict is the deck's own |
| Builtins.ParseIntReadsLeadingNumber | src/lib/decks/multiplication.ts:73 | `parseInt` skips leading white space and reads a signed decimal up to the first non-digit |
| Builtins.ParseIntOfIntToString | src/lib/decks/multiplication.ts:73-78 | `parseInt` inverts `toString` on integers |
| Builtins.ParseIntKeepsLeadingNumber | src/lib/decks/multiplication.ts:73 | "12abc" reads as 12: the number at the start is kept, the text after it dropped |
| Builtins.ParseIntWithoutDigitsIsNaN | src/lib/decks/multiplication.ts:73 | "abc" reads as NaN |
| Builtins.ParseIntIgnoresLeadingZeros | src/lib/decks/multiplication.ts:73 | zeros before a number do not change what `parseInt` reads: "056" reads as 56 |
| Builtins.RandomIndexCovers | src/lib/scheduler.ts:87-89 | every index below m is floor(u·m) for some u in [0, 1) |
| Builtins.TrimDropsPadding | src/lib/decks/katakana.ts:120 | trimming removes white space around a word and keeps the word |
| Builtins.TrimOfWord | src/lib/decks/katakana.ts:120 | a word without white space is its own trim |

## Left out

- **I/O.** Browser storage, JSON text parsing and printing, console output, the React pages and components, and the ts-fsrs library. From ts-fsrs the model keeps only the state, due time and elapsed days of a card. It keeps `createEmptyCard` as a New card due `now`.
- **Dates.** Dates are integer milliseconds. The conversions of date strings on load and import are not modelled.
- **Clock.** Each call takes a single `now`. The source reads the clock separately for each card it creates.
- **Floating point.** Response times and due times are integers. Percentile ranks use integer division, which equals the source's floating-point `Math.floor(len * 0.9)` and the like for every realistic sample count.
- **Deck definitions.** `DeckDefinition` holds identity and display data. Its functions are reached by identifier through `DeckCatalog`, not stored in the record.
- **Questions.** `formatQuestion` is modelled as returning a string, which is what every deck returns.
- **Json.** The model's arrays have no named fields. A JavaScript array has index and `length` properties, none of which the rules read. A spread of anything but an object is modelled as adding no keys; the source would add a string's character indices.
- **Storage.ImportData.** It reports the outcome and the import path. It does not build the converted cards and session. `ImportThrew` does not model the JavaScript engine's error text.
- **Storage.MigrateSpeedStats.** It models only the `speedStats` rules of `loadSessionData`. The fallbacks for `sessionStartTime` and `totalSessionTime` are not modelled.
- **Registry.DeckRegistry.GenerateCardsForDecks.** It states the result up to reordering (a multiset), not the per-deck blocks in order, because each deck shuffles its own cards.
- **Other parts of `storage.ts`.** The export and download functions and `loadCards` are not part of this model.

## Findings

| source | as written | input that shows it | evidently intended | confidence | as-written member | corrected member |
|---|---|---|---|---|---|---|
| src/app/page.tsx:317-322 | the response record's `correct` is computed again by `createResponseRecord` as a literal comparison of the typed text with `answerCheck.correctAnswer`, so it can disagree with the deck's verdict that the progress dashboard's accuracy (src/components/ProgressDashboard.tsx:26-27) is meant to count | katakana シ answered "si", or 7 × 8 answered "056" (the number input accepts digits only): accepted by the deck, logged as incorrect | log the deck's verdict `answerCheck.isCorrect` | high; not executed | AnswerLog.LogAsWritten | AnswerLog.LogResponse |
