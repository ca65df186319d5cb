/**
 * The deck registry: a map from deck identifier to definition, filled once at start-up,
 * through which the application reaches each deck's capabilities.
 */
module Registry {
  import opened Wrappers
  import opened Collections
  import opened DeckTypes
  import DeckCatalog

  class DeckRegistry {
    /** The registered definitions, by identifier. */
    var decks: map<DeckType, DeckDefinition>
    /** The identifiers in registration order, the order a JavaScript `Map` iterates in. */
    var order: seq<DeckType>

    /** Every key is listed once, in registration order, and keys its own definition. */
    ghost predicate Valid()
      reads this
    {
      && (forall id :: id in decks <==> id in order)
      && (forall i, j :: 0 <= i < j < |order| ==> order[i] != order[j])
      && (forall id :: id in decks ==> decks[id].id == id)
    }

    constructor()
      ensures Valid()
      ensures decks == map[] && order == []
    {
      decks := map[];
      order := [];
    }

    /** `hasDeck`. */
    predicate HasDeck(deckId: DeckType)
      reads this
    {
      deckId in decks
    }

    /**
     * `register`: a new identifier is added with its definition; an identifier already
     * present keeps its first definition and nothing changes (the source only warns).
     */
    method Register(definition: DeckDefinition)
      requires Valid()
      modifies this
      ensures Valid()
      ensures old(HasDeck(definition.id)) ==> decks == old(decks) && order == old(order)
      ensures !old(HasDeck(definition.id)) ==>
        decks == old(decks)[definition.id := definition] && order == old(order) + [definition.id]
      ensures HasDeck(definition.id)
      ensures forall id :: id != definition.id ==> (HasDeck(id) <==> old(HasDeck(id)))
    {
      if definition.id in decks {
        return;
      }
      decks := decks[definition.id := definition];
      order := order + [definition.id];
    }

    /** `getDeck`: the registered definition, or the error thrown for an unknown identifier. */
    function GetDeck(deckId: DeckType): (r: Result<DeckDefinition>)
      requires Valid()
      reads this
      ensures r.Success? <==> HasDeck(deckId)
      ensures r.Success? ==> r.value.id == deckId && r.value == decks[deckId]
    {
      if deckId in decks then Success(decks[deckId])
      else Failure("Deck " + DeckTypeName(deckId) + " is not registered")
    }

    /** `getAllDecks`: each registered definition once, in registration order. */
    function GetAllDecks(): (r: seq<DeckDefinition>)
      requires Valid()
      reads this
      ensures |r| == |order|
      ensures forall i :: 0 <= i < |r| ==> order[i] in decks && r[i] == decks[order[i]]
      ensures forall i :: 0 <= i < |r| ==> r[i].id == order[i]
      ensures forall i, j :: 0 <= i < j < |r| ==> r[i].id != r[j].id
      ensures forall id :: HasDeck(id) <==> exists i :: 0 <= i < |r| && r[i].id == id
    {
      var ids, defs := order, decks;
      var r := seq(|ids|, i requires 0 <= i < |ids| && ids[i] in defs => defs[ids[i]]);
      assert forall id :: HasDeck(id) ==> exists i :: 0 <= i < |r| && r[i].id == id by {
        forall id | HasDeck(id) ensures exists i :: 0 <= i < |r| && r[i].id == id {
          var i :| 0 <= i < |order| && order[i] == id;
          assert r[i].id == id;
        }
      }
      r
    }

    /** `getDeckForCard`: the deck the card names, failing exactly when it is not registered. */
    function GetDeckForCard(card: Card): (r: Result<DeckDefinition>)
      requires Valid()
      reads this
      ensures r.Success? <==> HasDeck(card.deckId)
      ensures r.Success? ==> r.value.id == card.deckId
    {
      GetDeck(card.deckId)
    }

    /**
     * What `generateCardsForDecks` concatenates, each deck's cards in generation order:
     * the registered identifiers of `enabled` contribute their deck's cards in turn, the
     * others nothing.
     */
    ghost function CardsFor(enabled: seq<DeckType>, now: int): seq<Card>
      reads this
    {
      if enabled == [] then []
      else
        var last := enabled[|enabled| - 1];
        CardsFor(enabled[..|enabled| - 1], now)
        + (if last in decks then DeckCatalog.OrderedCards(last, now) else [])
    }

    /**
     * `generateCardsForDecks`: the cards of every enabled, registered deck, each deck
     * generating (and shuffling) its own; identifiers that are not registered are skipped.
     */
    method GenerateCardsForDecks(enabledDecks: seq<DeckType>, now: int) returns (allCards: seq<Card>)
      requires Valid()
      ensures multiset(allCards) == multiset(CardsFor(enabledDecks, now))
      ensures forall c :: c in allCards ==>
        c.deckId in enabledDecks && HasDeck(c.deckId) && DeckCatalog.WellTyped(c)
    {
      allCards := [];
      for k := 0 to |enabledDecks|
        invariant multiset(allCards) == multiset(CardsFor(enabledDecks[..k], now))
        invariant forall c :: c in allCards ==>
          c.deckId in enabledDecks[..k] && HasDeck(c.deckId) && DeckCatalog.WellTyped(c)
      {
        var deckId := enabledDecks[k];
        assert enabledDecks[..k + 1][..k] == enabledDecks[..k];
        if HasDeck(deckId) {
          var cards := DeckCatalog.GenerateCards(deckId, now);
          allCards := allCards + cards;
        }
      }
      assert enabledDecks[..|enabledDecks|] == enabledDecks;
    }

    /** Identifiers that are not registered contribute no cards. */
    lemma {:induction false} CardsForUnregistered(enabled: seq<DeckType>, now: int)
      requires forall k :: 0 <= k < |enabled| ==> !HasDeck(enabled[k])
      ensures CardsFor(enabled, now) == []
    {
      if enabled != [] {
        CardsForUnregistered(enabled[..|enabled| - 1], now);
      }
    }

    /**
     * `filterCardsByDecks`: the cards whose deck is enabled, in their original order.
     * It reads no registry state.
     */
    function FilterCardsByDecks(cards: seq<Card>, enabledDecks: seq<DeckType>): (r: seq<Card>)
      ensures IsSubsequence(r, cards)
      ensures forall c :: c in r <==> c in cards && c.deckId in enabledDecks
      ensures forall c :: multiset(r)[c] == if c.deckId in enabledDecks then multiset(cards)[c] else 0
    {
      var p := (c: Card) => c.deckId in enabledDecks;
      forall c ensures multiset(Filter(cards, p))[c] == if p(c) then multiset(cards)[c] else 0 {
        FilterMultiplicity(cards, p, c);
      }
      Filter(cards, p)
    }

    /** Filtering an already filtered list changes nothing. */
    lemma FilterCardsByDecksIdempotent(cards: seq<Card>, enabledDecks: seq<DeckType>)
      ensures FilterCardsByDecks(FilterCardsByDecks(cards, enabledDecks), enabledDecks)
        == FilterCardsByDecks(cards, enabledDecks)
    {
      FilterIdempotent(cards, (c: Card) => c.deckId in enabledDecks);
    }
  }
}
