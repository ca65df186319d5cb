/** Start-up: the application's registry with the decks it offers. */
module DecksIndex {
  import opened DeckTypes
  import DeckCatalog
  import opened Registry

  /**
   * The global registry after start-up: the multiplication deck, then the katakana deck.
   * The subtraction deck is defined but not registered, so enabling it yields no cards.
   */
  method InitRegistry() returns (registry: DeckRegistry)
    ensures fresh(registry) && registry.Valid()
    ensures registry.order == [MULTIPLICATION, KATAKANA]
    ensures registry.HasDeck(MULTIPLICATION) && registry.HasDeck(KATAKANA)
    ensures !registry.HasDeck(SUBTRACTION)
    ensures registry.GetAllDecks() == [DeckCatalog.Definition(MULTIPLICATION), DeckCatalog.Definition(KATAKANA)]
  {
    var multiplication := DeckCatalog.Definition(MULTIPLICATION);
    var katakana := DeckCatalog.Definition(KATAKANA);
    registry := new DeckRegistry();
    registry.Register(multiplication);
    assert registry.decks == map[MULTIPLICATION := multiplication];
    registry.Register(katakana);
    assert registry.decks == map[MULTIPLICATION := multiplication, KATAKANA := katakana];
    assert registry.order == [MULTIPLICATION, KATAKANA];
    var all := registry.GetAllDecks();
    assert all[0] == multiplication && all[1] == katakana;
  }
}
