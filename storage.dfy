/**
 * The pure rules of persistence: default settings, the upgrade of stored data written by
 * older versions, and the checks an imported backup must pass. Storage itself and JSON
 * text are outside the model; documents are `Json` values.
 */
module Storage {
  import opened Wrappers
  import opened DeckTypes
  import Grading

  /** A parsed JSON document. */
  datatype Json =
    | JNull
    | JBool(b: bool)
    | JNumber(n: real)
    | JString(s: string)
    | JArray(items: seq<Json>)
    | JObject(fields: map<string, Json>)

  /** JavaScript truthiness: null, false, 0 and "" are falsy; arrays and objects, even empty, are truthy. */
  predicate Truthy(j: Json)
  {
    match j
    case JNull => false
    case JBool(b) => b
    case JNumber(n) => n != 0.0
    case JString(s) => s != []
    case JArray(_) => true
    case JObject(_) => true
  }

  /** `typeof j === "object"`, which holds for null as well. */
  predicate IsObjectType(j: Json)
  {
    j.JNull? || j.JArray? || j.JObject?
  }

  /** A value the `in` operator accepts; on any other value `key in j` throws a TypeError. */
  predicate AcceptsIn(j: Json)
  {
    j.JArray? || j.JObject?
  }

  /** `key in j` for the named keys used here, which no array has. */
  predicate HasKey(j: Json, key: string)
  {
    j.JObject? && key in j.fields
  }

  /** The property read `j[key]`, with `undefined` as `None`. */
  function Field(j: Json, key: string): (r: Option<Json>)
    ensures r.Some? <==> HasKey(j, key)
  {
    if j.JObject? && key in j.fields then Some(j.fields[key]) else None
  }

  /** `!!j[key]`: the property is present and truthy. */
  predicate TruthyField(j: Json, key: string)
  {
    Field(j, key).Some? && Truthy(Field(j, key).value)
  }

  /** The keys an object spread (`...j`) copies: an object's own fields, nothing for anything else. */
  function SpreadFields(j: Json): map<string, Json>
  {
    if j.JObject? then j.fields else map[]
  }

  // ----- Settings -----

  datatype AppSettings = AppSettings(
    warmupTarget: int,
    soundEnabled: bool,
    showUpcomingReviews: bool,
    enabledDecks: seq<DeckType>)

  /** `createDefaultSettings`: warm-up after 50 answers, sound on, upcoming reviews shown, multiplication only. */
  function CreateDefaultSettings(): (s: AppSettings)
    ensures s.warmupTarget == Grading.DEFAULT_WARMUP_TARGET
    ensures s.soundEnabled && s.showUpcomingReviews
    ensures s.enabledDecks == [MULTIPLICATION]
  {
    AppSettings(50, true, true, [MULTIPLICATION])
  }

  /** A list of deck identifiers as stored: the enum's string values. */
  function DeckListJson(decks: seq<DeckType>): Json
  {
    JArray(seq(|decks|, i requires 0 <= i < |decks| => JString(DeckTypeName(decks[i]))))
  }

  /** Settings as stored. */
  function SettingsJson(s: AppSettings): Json
  {
    JObject(map[
      "warmupTarget" := JNumber(s.warmupTarget as real),
      "soundEnabled" := JBool(s.soundEnabled),
      "showUpcomingReviews" := JBool(s.showUpcomingReviews),
      "enabledDecks" := DeckListJson(s.enabledDecks)])
  }

  /** The keys every settings document has. */
  const SETTINGS_KEYS: set<string> := {"warmupTarget", "soundEnabled", "showUpcomingReviews", "enabledDecks"}

  /**
   * `{...createDefaultSettings(), ...settings, enabledDecks: settings.enabledDecks || [MULTIPLICATION]}`:
   * the defaults, overridden by every stored field, and a falsy or missing deck list
   * replaced by the multiplication deck alone.
   */
  function MergeSettings(stored: Json): (r: Json)
    ensures r.JObject? && r.fields.Keys == SETTINGS_KEYS + SpreadFields(stored).Keys
    ensures TruthyField(r, "enabledDecks")
    ensures forall k :: k in SETTINGS_KEYS && !HasKey(stored, k) ==>
      r.fields[k] == SettingsJson(CreateDefaultSettings()).fields[k]
    ensures forall k :: k != "enabledDecks" && HasKey(stored, k) ==> k in r.fields && r.fields[k] == stored.fields[k]
    ensures TruthyField(stored, "enabledDecks") ==> r.fields["enabledDecks"] == stored.fields["enabledDecks"]
    ensures !TruthyField(stored, "enabledDecks") ==> r.fields["enabledDecks"] == DeckListJson([MULTIPLICATION])
  {
    var enabled := if TruthyField(stored, "enabledDecks") then Field(stored, "enabledDecks").value
      else DeckListJson([MULTIPLICATION]);
    JObject(SettingsJson(CreateDefaultSettings()).fields + SpreadFields(stored) + map["enabledDecks" := enabled])
  }

  /**
   * `loadSettings`, given what storage holds (`None` when nothing is stored or it does
   * not parse): the defaults when there is nothing usable, the merged settings when the
   * deck list is missing or falsy, and the stored document unchanged otherwise.
   */
  function LoadSettings(stored: Option<Json>): (r: Json)
    ensures r.JObject? && TruthyField(r, "enabledDecks")
    ensures stored.Some? && TruthyField(stored.value, "enabledDecks") ==> r == stored.value
    ensures stored.Some? && !stored.value.JNull? && !TruthyField(stored.value, "enabledDecks") ==>
      r == MergeSettings(stored.value)
    ensures (stored.None? || stored == Some(JNull)) ==> r == SettingsJson(CreateDefaultSettings())
  {
    if stored.None? then SettingsJson(CreateDefaultSettings())
    else
      var settings := stored.value;
      // Reading a property of null throws, and the error falls back to the defaults.
      if settings.JNull? then SettingsJson(CreateDefaultSettings())
      else if !TruthyField(settings, "enabledDecks") then MergeSettings(settings)
      else settings
  }

  /**
   * Loading and importing agree on a complete settings document: merging it with the
   * defaults gives it back.
   */
  lemma MergeKeepsCompleteSettings(stored: Json)
    requires stored.JObject? && SETTINGS_KEYS <= stored.fields.Keys
    requires TruthyField(stored, "enabledDecks")
    ensures MergeSettings(stored) == stored
    ensures LoadSettings(Some(stored)) == MergeSettings(stored)
  {
    var r := MergeSettings(stored);
    assert r.fields.Keys == stored.fields.Keys;
    forall k | k in r.fields ensures r.fields[k] == stored.fields[k] {
    }
  }

  /** The default settings survive a store-and-load round trip. */
  lemma DefaultSettingsRoundTrip()
    ensures LoadSettings(Some(SettingsJson(CreateDefaultSettings()))) == SettingsJson(CreateDefaultSettings())
  {
    var j := SettingsJson(CreateDefaultSettings());
    assert Field(j, "enabledDecks") == Some(DeckListJson([MULTIPLICATION]));
  }

  // ----- Session speed statistics -----

  /**
   * `isPerDeckSpeedStats`: an object (or array) is taken to be keyed by deck unless it
   * has both `responses` and `percentiles`, the fields of the single pre-deck record.
   */
  predicate IsPerDeckSpeedStats(speedStats: Json)
  {
    if !IsObjectType(speedStats) || speedStats.JNull? then false
    else if HasKey(speedStats, "responses") && HasKey(speedStats, "percentiles") then false
    else true
  }

  /** The shape of the statistics record of a version before decks: both of its fields at the top. */
  predicate IsFlatSpeedStats(j: Json)
  {
    HasKey(j, "responses") && HasKey(j, "percentiles")
  }

  /**
   * The detector is exactly the `in` tests on a value `in` accepts, and the record that
   * the migration builds around an old flat record passes it.
   */
  lemma PerDeckSpeedStatsCases(j: Json)
    ensures IsPerDeckSpeedStats(j) <==> AcceptsIn(j) && !IsFlatSpeedStats(j)
    ensures IsPerDeckSpeedStats(JObject(map[DeckTypeName(MULTIPLICATION) := j]))
  {
    assert "responses" != DeckTypeName(MULTIPLICATION);
  }

  /**
   * The `speedStats` rules of `loadSessionData`: a truthy value that is not per deck is
   * the old single record and becomes the multiplication deck's entry; a missing or
   * falsy value becomes an empty object; a per-deck object is kept.
   */
  function MigrateSpeedStats(speedStats: Option<Json>): (r: Json)
    ensures IsPerDeckSpeedStats(r)
    ensures speedStats.Some? && IsPerDeckSpeedStats(speedStats.value) ==> r == speedStats.value
    ensures speedStats.Some? && Truthy(speedStats.value) && !IsPerDeckSpeedStats(speedStats.value) ==>
      r == JObject(map["multiplication" := speedStats.value])
    ensures speedStats.Some? && IsFlatSpeedStats(speedStats.value) ==>
      r == JObject(map["multiplication" := speedStats.value])
    ensures speedStats.None? || !Truthy(speedStats.value) ==> r == JObject(map[])
  {
    var migrated :=
      if speedStats.Some? && Truthy(speedStats.value) && !IsPerDeckSpeedStats(speedStats.value)
      then Some(JObject(map[DeckTypeName(MULTIPLICATION) := speedStats.value]))
      else speedStats;
    if migrated.None? || !Truthy(migrated.value) then JObject(map[]) else migrated.value
  }

  /** A migrated value is migrated again to itself. */
  lemma MigrateSpeedStatsIdempotent(speedStats: Option<Json>)
    ensures MigrateSpeedStats(Some(MigrateSpeedStats(speedStats))) == MigrateSpeedStats(speedStats)
  {
  }

  // ----- Old cards -----

  /** A card of the version before decks: a multiplication fact with its FSRS state. */
  datatype OldMultiplicationCard = OldMultiplicationCard(id: string, multiplicand: int, multiplier: int, fsrsCard: FsrsCard)

  /** `migrateOldCards`: each old card becomes a multiplication-deck card with the same id, operands and state. */
  function MigrateOldCards(oldCards: seq<OldMultiplicationCard>): (cards: seq<Card>)
    ensures |cards| == |oldCards|
    ensures forall i :: 0 <= i < |cards| ==>
      && cards[i].id == oldCards[i].id
      && cards[i].deckId == MULTIPLICATION
      && cards[i].content == MultiplicationContent(oldCards[i].multiplicand, oldCards[i].multiplier)
      && cards[i].fsrsCard == oldCards[i].fsrsCard
  {
    if oldCards == [] then []
    else
      var c := oldCards[0];
      [Card(c.id, MULTIPLICATION, MultiplicationContent(c.multiplicand, c.multiplier), c.fsrsCard)]
      + MigrateOldCards(oldCards[1..])
  }

  /** Old cards with distinct ids migrate to cards with distinct ids, all multiplication facts. */
  lemma MigratedCardsDistinct(oldCards: seq<OldMultiplicationCard>)
    requires forall i, j :: 0 <= i < j < |oldCards| ==> oldCards[i].id != oldCards[j].id
    ensures DistinctIds(MigrateOldCards(oldCards))
    ensures forall c :: c in MigrateOldCards(oldCards) ==> c.content.MultiplicationContent?
  {
    var cards := MigrateOldCards(oldCards);
    forall i, j | 0 <= i < j < |cards| ensures cards[i].id != cards[j].id {
      assert cards[i].id == oldCards[i].id && cards[j].id == oldCards[j].id;
    }
  }

  /** Migrating a concatenation migrates each part. */
  lemma {:induction false} MigrateOldCardsAppend(a: seq<OldMultiplicationCard>, b: seq<OldMultiplicationCard>)
    ensures MigrateOldCards(a + b) == MigrateOldCards(a) + MigrateOldCards(b)
  {
    if a != [] {
      assert (a + b)[1..] == a[1..] + b;
      MigrateOldCardsAppend(a[1..], b);
    }
  }

  // ----- Import -----

  /** `validateImportData` can accept, reject, or throw where it applies `in` to a card that is not an object. */
  datatype Validation = Valid | Invalid | Throws

  /** A non-empty string. */
  predicate NonEmptyString(j: Option<Json>)
  {
    j.Some? && j.value.JString? && j.value.s != []
  }

  /** A truthy value of object type: an object or an array. */
  predicate ObjectValue(j: Option<Json>)
  {
    j.Some? && Truthy(j.value) && IsObjectType(j.value)
  }

  /** The checks on the bundle's top level, before any card is looked at. */
  predicate BundleShape(data: Json)
  {
    && Truthy(data) && IsObjectType(data)
    && NonEmptyString(Field(data, "version"))
    && NonEmptyString(Field(data, "exportDate"))
    && Field(data, "cards").Some? && Field(data, "cards").value.JArray?
    && ObjectValue(Field(data, "sessionData"))
    && ObjectValue(Field(data, "settings"))
    && Field(data, "cards").value.items != []
  }

  /** The first card of a bundle of that shape. */
  function SampleCard(data: Json): Json
    requires BundleShape(data)
  {
    Field(data, "cards").value.items[0]
  }

  /** A card in the new format (`deckId` and `content`) or the old (`multiplicand` and `multiplier`), with an id and a state. */
  predicate CardShape(card: Json)
  {
    && TruthyField(card, "id") && TruthyField(card, "fsrsCard")
    && ((HasKey(card, "deckId") && HasKey(card, "content"))
        || (HasKey(card, "multiplicand") && HasKey(card, "multiplier")))
  }

  /** The session has a list of responses, statistics and a last review date. */
  predicate SessionShape(session: Json)
  {
    && Field(session, "responses").Some? && Field(session, "responses").value.JArray?
    && TruthyField(session, "speedStats") && TruthyField(session, "lastReviewDate")
  }

  /**
   * `validateImportData`: the bundle's fields in order, the first card only, then the
   * session. Valid exactly when all the checks pass; it throws exactly when the top level
   * passes and the first card is a value `in` cannot search.
   */
  function ValidateImportData(data: Json): (r: Validation)
    ensures r == Valid <==>
      BundleShape(data) && AcceptsIn(SampleCard(data)) && CardShape(SampleCard(data))
      && SessionShape(Field(data, "sessionData").value)
    ensures r == Throws <==> BundleShape(data) && !AcceptsIn(SampleCard(data))
  {
    if !Truthy(data) || !IsObjectType(data) then Invalid
    else if !NonEmptyString(Field(data, "version")) then Invalid
    else if !NonEmptyString(Field(data, "exportDate")) then Invalid
    else if !(Field(data, "cards").Some? && Field(data, "cards").value.JArray?) then Invalid
    else if !ObjectValue(Field(data, "sessionData")) then Invalid
    else if !ObjectValue(Field(data, "settings")) then Invalid
    else if Field(data, "cards").value.items == [] then Invalid
    else
      var sampleCard := Field(data, "cards").value.items[0];
      if !AcceptsIn(sampleCard) then Throws
      else if !CardShape(sampleCard) then Invalid
      else if !SessionShape(Field(data, "sessionData").value) then Invalid
      else Valid
  }

  /**
   * What `importData` does with a parsed bundle: it fails with "Invalid data format" and
   * writes nothing, fails with the thrown error's message, or writes the cards (migrated
   * when in the old format), the session and the merged settings.
   */
  datatype ImportOutcome =
    | ImportFailed(error: string)
    | ImportThrew
    | Imported(oldFormat: bool, settings: Json)

  /** Converting a card's dates reads `card.fsrsCard.due`, which throws when the state is missing or null. */
  predicate CardConvertible(card: Json)
  {
    Field(card, "fsrsCard").Some? && !Field(card, "fsrsCard").value.JNull?
  }

  /** Converting a response spreads it and reads its timestamp, which throws on null. */
  predicate ResponseConvertible(response: Json)
  {
    !response.JNull?
  }

  /** The old-format path: the first card has `multiplicand` and no `deckId`. */
  predicate IsOldFormat(sampleCard: Json)
  {
    HasKey(sampleCard, "multiplicand") && !HasKey(sampleCard, "deckId")
  }

  /**
   * `importData` on a parsed bundle: validation first; then every card (not only the
   * first) and every response must convert, or the thrown error ends the import before
   * anything is written.
   */
  function ImportData(data: Json): (r: ImportOutcome)
    ensures ValidateImportData(data) == Invalid ==> r == ImportFailed("Invalid data format")
    ensures ValidateImportData(data) == Throws ==> r == ImportThrew
    ensures r.Imported? ==> ValidateImportData(data) == Valid
    ensures r.Imported? ==> (r.oldFormat <==> IsOldFormat(SampleCard(data)))
    ensures r.Imported? ==> r.settings == MergeSettings(Field(data, "settings").value)
    ensures r.Imported? <==>
      (&& ValidateImportData(data) == Valid
       && (forall c :: c in Field(data, "cards").value.items ==> CardConvertible(c))
       && (forall x :: x in Field(Field(data, "sessionData").value, "responses").value.items ==> ResponseConvertible(x)))
  {
    var v := ValidateImportData(data);
    if v == Invalid then ImportFailed("Invalid data format")
    else if v == Throws then ImportThrew
    else
      var cards := Field(data, "cards").value.items;
      var session := Field(data, "sessionData").value;
      var responses := Field(session, "responses").value.items;
      if exists c :: c in cards && !CardConvertible(c) then ImportThrew
      else if exists x :: x in responses && !ResponseConvertible(x) then ImportThrew
      else Imported(IsOldFormat(cards[0]), MergeSettings(Field(data, "settings").value))
  }

  /** Only the first card is validated: a later card without a state passes validation but makes the import throw. */
  lemma LaterCardIsNotValidated(data: Json, k: nat)
    requires ValidateImportData(data) == Valid
    requires 0 < k < |Field(data, "cards").value.items|
    requires !CardConvertible(Field(data, "cards").value.items[k])
    ensures ImportData(data) == ImportThrew
  {
    var cards := Field(data, "cards").value.items;
    assert cards[k] in cards;
  }
}
