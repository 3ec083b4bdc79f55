/**
 * The lists endpoints (ListsController): the cards of one list, and a card created directly on
 * a list. These act on the store without ownership checks.
 */
module ListsController {
  import opened Rows
  import opened Models
  import opened Data

  /** GET api/lists/{id}/cards: NotFound when no list has the id; otherwise exactly its cards, taken in rowid order (the Include has no ORDER BY). */
  function GetListCards(db: ApplicationDbContext, id: int): (r: Outcome<seq<Card>>)
    reads db
    ensures r.NotFound? <==> id !in KeySet(db.lists, ListKey)
    ensures !r.Rejected?
    ensures r.Ok? ==> forall c :: c in r.value <==> c in db.cards && c.listId == id
    ensures r.Ok? && StrictlyIncreasing(db.cards, CardKey) ==> StrictlyIncreasing(r.value, CardKey)
  {
    var list := FindByKey(db.lists, ListKey, id);
    if list.None? then NotFound
    else
      var cards := CardsOf(db.cards, id);
      assert StrictlyIncreasing(db.cards, CardKey) ==> StrictlyIncreasing(cards, CardKey) by {
        if StrictlyIncreasing(db.cards, CardKey) { FilterIncreasing(db.cards, CardKey, (c: Card) => c.listId == id); }
      }
      Ok(cards)
  }

  /** A card appended to the cards table comes last in the rowid order of its list's cards, and no other list's cards change. */
  lemma {:induction false} CardsOfAppend(cards: seq<Card>, c: Card, listId: int)
    ensures CardsOf(cards + [c], listId) == if c.listId == listId then CardsOf(cards, listId) + [c] else CardsOf(cards, listId)
  {
    FilterAppend(cards, [c], (x: Card) => x.listId == listId);
    assert [c][1..] == [];
  }

  /**
   * POST api/lists/{id}/cards: NotFound, with nothing written, when no list has the id;
   * otherwise the card is placed on that list whatever list it named, saved with the next card
   * id, and becomes the last card, in the model's rowid order, that the list endpoint returns.
   * The store cannot refuse it, since
   * the list exists.
   */
  method CreateCard(db: ApplicationDbContext, id: int, card: Card) returns (r: Outcome<Card>)
    requires db.Valid()
    modifies db
    ensures db.Valid()
    ensures r.NotFound? <==> id !in KeySet(old(db.lists), ListKey)
    ensures !r.Rejected?
    ensures r.NotFound? ==> unchanged(db)
    ensures r.Ok? ==>
      && r.value == card.(listId := id, id := old(db.nextCardId))
      && db.cards == old(db.cards) + [r.value]
      && db.users == old(db.users) && db.boards == old(db.boards) && db.lists == old(db.lists)
      && db.cardHistories == old(db.cardHistories)
      && db.nextCardId == old(db.nextCardId) + 1
      && db.nextBoardId == old(db.nextBoardId) && db.nextListId == old(db.nextListId)
      && db.nextHistoryId == old(db.nextHistoryId)
    ensures r.Ok? ==> GetListCards(db, id) == Ok(old(GetListCards(db, id)).value + [r.value])
  {
    var list := FindByKey(db.lists, ListKey, id);
    if list.None? {
      r := NotFound;
      return;
    }
    ghost var before := db.cards;
    r := db.AddCard(card.(listId := id));
    CardsOfAppend(before, r.value, id);
  }
}
