/**
 * The relational store behind the services (ApplicationDbContext): its five tables, the
 * foreign keys and delete behaviours configured in OnModelCreating, and the context whose
 * `SaveChangesAsync` commits pending rows as one atomic step.
 */
module Data {
  import opened Rows
  import opened Models

  /** The contents of the five tables, each in rowid order. */
  datatype Tables = Tables(
    users: seq<User>,
    boards: seq<Board>,
    lists: seq<List>,
    cards: seq<Card>,
    histories: seq<CardHistory>)

  function UserIds(t: Tables): set<int> { KeySet(t.users, UserKey) }
  function BoardIds(t: Tables): set<int> { KeySet(t.boards, BoardKey) }
  function ListIds(t: Tables): set<int> { KeySet(t.lists, ListKey) }
  function CardIds(t: Tables): set<int> { KeySet(t.cards, CardKey) }

  ghost predicate UniqueKeys(t: Tables)
  {
    && StrictlyIncreasing(t.users, UserKey)
    && StrictlyIncreasing(t.boards, BoardKey)
    && StrictlyIncreasing(t.lists, ListKey)
    && StrictlyIncreasing(t.cards, CardKey)
    && StrictlyIncreasing(t.histories, HistoryKey)
  }

  /** Every foreign key of the model resolves: Board.UserId, List.BoardId, Card.ListId, CardHistory.CardId and CardHistory.UserId. */
  ghost predicate ForeignKeysHold(t: Tables)
  {
    && (forall b :: b in t.boards ==> b.userId in UserIds(t))
    && (forall l :: l in t.lists ==> l.boardId in BoardIds(t))
    && (forall c :: c in t.cards ==> c.listId in ListIds(t))
    && (forall h :: h in t.histories ==> h.cardId in CardIds(t) && h.userId in UserIds(t))
  }

  /**
   * Under the foreign keys, looking up the row a key names always finds it: a board's owner,
   * a list's board, a card's list, and a history row's card and user.
   */
  lemma ForeignKeysResolve(t: Tables)
    requires ForeignKeysHold(t)
    ensures forall b :: b in t.boards ==> FindByKey(t.users, UserKey, b.userId).Some?
    ensures forall l :: l in t.lists ==> FindByKey(t.boards, BoardKey, l.boardId).Some?
    ensures forall c :: c in t.cards ==> FindByKey(t.lists, ListKey, c.listId).Some?
    ensures forall h :: h in t.histories ==>
      FindByKey(t.cards, CardKey, h.cardId).Some? && FindByKey(t.users, UserKey, h.userId).Some?
  {
  }

  ghost predicate WellFormed(t: Tables)
  {
    UniqueKeys(t) && ForeignKeysHold(t)
  }

  /** The navigation collection Board.Lists: the lists of a board, in rowid order. */
  function ListsOf(lists: seq<List>, boardId: int): (r: seq<List>)
    ensures forall l :: l in r <==> l in lists && l.boardId == boardId
  {
    Filter(lists, (l: List) => l.boardId == boardId)
  }

  /** The navigation collection List.Cards: the cards on a list, in rowid order. */
  function CardsOf(cards: seq<Card>, listId: int): (r: seq<Card>)
    ensures forall c :: c in r <==> c in cards && c.listId == listId
  {
    Filter(cards, (c: Card) => c.listId == listId)
  }

  /** Every row of `r` is a row of `t`: deletion never invents or rewrites a row. */
  ghost predicate Within(r: Tables, t: Tables)
  {
    && (forall u :: u in r.users ==> u in t.users)
    && (forall b :: b in r.boards ==> b in t.boards)
    && (forall l :: l in r.lists ==> l in t.lists)
    && (forall c :: c in r.cards ==> c in t.cards)
    && (forall h :: h in r.histories ==> h in t.histories)
  }

  /** The ids of the cards that sit on one of the given lists. */
  function CardsOnLists(cards: seq<Card>, listIds: set<int>): set<int>
  {
    set c | c in cards && c.listId in listIds :: c.id
  }

  /** The ids of the lists that belong to one of the given boards. */
  function ListsOnBoards(lists: seq<List>, boardIds: set<int>): set<int>
  {
    set l | l in lists && l.boardId in boardIds :: l.id
  }

  /** The ids of the boards owned by a user. */
  function BoardsOfUser(boards: seq<Board>, userId: int): set<int>
  {
    set b | b in boards && b.userId == userId :: b.id
  }

  /** Deleting cards cascades to the history rows that reference them (CardHistory.CardId, Cascade). */
  function RemoveCards(t: Tables, ids: set<int>): (r: Tables)
    ensures r.users == t.users && r.boards == t.boards && r.lists == t.lists
    ensures Within(r, t)
    ensures forall c :: c in r.cards <==> c in t.cards && c.id !in ids
    ensures forall h :: h in r.histories <==> h in t.histories && h.cardId !in ids
  {
    t.(cards := Filter(t.cards, (c: Card) => c.id !in ids),
       histories := Filter(t.histories, (h: CardHistory) => h.cardId !in ids))
  }

  /** Deleting lists cascades to their cards (Card.ListId, Cascade), and so on to those cards' history. */
  function RemoveLists(t: Tables, ids: set<int>): (r: Tables)
    ensures r.users == t.users && r.boards == t.boards
    ensures Within(r, t)
    ensures forall l :: l in r.lists <==> l in t.lists && l.id !in ids
  {
    RemoveCards(t.(lists := Filter(t.lists, (l: List) => l.id !in ids)), CardsOnLists(t.cards, ids))
  }

  /** Deleting boards cascades to their lists (List.BoardId, Cascade), and so on down. */
  function RemoveBoards(t: Tables, ids: set<int>): (r: Tables)
    ensures r.users == t.users
    ensures Within(r, t)
    ensures forall b :: b in r.boards <==> b in t.boards && b.id !in ids
  {
    RemoveLists(t.(boards := Filter(t.boards, (b: Board) => b.id !in ids)), ListsOnBoards(t.lists, ids))
  }

  /**
   * Deleting a user cascades to the boards it owns (Board.UserId, Cascade), but is refused
   * while any history row names the user as the mover (CardHistory.UserId, Restrict).
   */
  function RemoveUser(t: Tables, userId: int): (r: Option<Tables>)
    ensures r.None? <==> exists h :: h in t.histories && h.userId == userId
    ensures r.Some? ==> Within(r.value, t)
    ensures r.Some? ==> forall u :: u in r.value.users <==> u in t.users && u.id != userId
  {
    if exists h :: h in t.histories && h.userId == userId then None
    else Some(RemoveBoards(t.(users := Filter(t.users, (u: User) => u.id != userId)), BoardsOfUser(t.boards, userId)))
  }

  /** Card deletion keeps every remaining reference resolvable. */
  lemma RemoveCardsWellFormed(t: Tables, ids: set<int>)
    requires WellFormed(t)
    ensures WellFormed(RemoveCards(t, ids))
  {
    var r := RemoveCards(t, ids);
    FilterIncreasing(t.cards, CardKey, (c: Card) => c.id !in ids);
    FilterIncreasing(t.histories, HistoryKey, (h: CardHistory) => h.cardId !in ids);
    forall h | h in r.histories ensures h.cardId in CardIds(r) {
      var c :| c in t.cards && c.id == h.cardId;
      assert c in r.cards;
    }
  }

  /**
   * List deletion keeps every remaining reference resolvable; it even repairs a store whose
   * only dangling references are the board keys of the lists it removes.
   */
  lemma RemoveListsWellFormed(t: Tables, ids: set<int>)
    requires UniqueKeys(t)
    requires forall l :: l in t.lists && l.id !in ids ==> l.boardId in BoardIds(t)
    requires forall b :: b in t.boards ==> b.userId in UserIds(t)
    requires forall c :: c in t.cards ==> c.listId in ListIds(t)
    requires forall h :: h in t.histories ==> h.cardId in CardIds(t) && h.userId in UserIds(t)
    ensures WellFormed(RemoveLists(t, ids))
  {
    var t1 := t.(lists := Filter(t.lists, (l: List) => l.id !in ids));
    var gone := CardsOnLists(t.cards, ids);
    FilterIncreasing(t.lists, ListKey, (l: List) => l.id !in ids);
    FilterIncreasing(t.cards, CardKey, (c: Card) => c.id !in gone);
    FilterIncreasing(t.histories, HistoryKey, (h: CardHistory) => h.cardId !in gone);
    var r := RemoveCards(t1, gone);
    forall c | c in r.cards ensures c.listId in ListIds(r) {
      assert c.id !in gone;
      var l :| l in t.lists && l.id == c.listId;
      assert l in r.lists;
    }
    forall h | h in r.histories ensures h.cardId in CardIds(r) {
      var c :| c in t.cards && c.id == h.cardId;
      assert c in r.cards;
    }
  }

  /** Board deletion keeps every remaining reference resolvable. */
  lemma RemoveBoardsWellFormed(t: Tables, ids: set<int>)
    requires WellFormed(t)
    ensures WellFormed(RemoveBoards(t, ids))
  {
    var t1 := t.(boards := Filter(t.boards, (b: Board) => b.id !in ids));
    var gone := ListsOnBoards(t.lists, ids);
    FilterIncreasing(t.boards, BoardKey, (b: Board) => b.id !in ids);
    forall l | l in t1.lists && l.id !in gone ensures l.boardId in BoardIds(t1) {
      var b :| b in t.boards && b.id == l.boardId;
      assert b in t1.boards;
    }
    RemoveListsWellFormed(t1, gone);
  }

  /** A permitted user deletion keeps every remaining reference resolvable. */
  lemma RemoveUserWellFormed(t: Tables, userId: int)
    requires WellFormed(t)
    requires RemoveUser(t, userId).Some?
    ensures WellFormed(RemoveUser(t, userId).value)
  {
    var t1 := t.(users := Filter(t.users, (u: User) => u.id != userId));
    var gone := BoardsOfUser(t.boards, userId);
    FilterIncreasing(t.users, UserKey, (u: User) => u.id != userId);
    var t2 := t1.(boards := Filter(t1.boards, (b: Board) => b.id !in gone));
    var lgone := ListsOnBoards(t1.lists, gone);
    FilterIncreasing(t1.boards, BoardKey, (b: Board) => b.id !in gone);
    forall b | b in t2.boards ensures b.userId in UserIds(t2) {
      var u :| u in t.users && u.id == b.userId;
      assert b.userId != userId;
      assert u in t2.users;
    }
    forall l | l in t2.lists && l.id !in lgone ensures l.boardId in BoardIds(t2) {
      var b :| b in t.boards && b.id == l.boardId;
      assert b in t2.boards;
    }
    forall h | h in t2.histories ensures h.userId in UserIds(t2) {
      var u :| u in t.users && u.id == h.userId;
      assert u in t2.users;
    }
    RemoveListsWellFormed(t2, lgone);
  }

  /** Deleting lists removes exactly their cards and exactly the history of those cards. */
  lemma RemoveListsExact(t: Tables, ids: set<int>)
    requires UniqueKeys(t)
    ensures forall c :: c in RemoveLists(t, ids).cards <==> c in t.cards && c.listId !in ids
    ensures forall h :: h in RemoveLists(t, ids).histories <==>
      h in t.histories && h.cardId !in CardsOnLists(t.cards, ids)
  {
    var gone := CardsOnLists(t.cards, ids);
    forall c | c in t.cards ensures c.id in gone <==> c.listId in ids {
      if c.id in gone {
        var c' :| c' in t.cards && c'.listId in ids && c'.id == c.id;
        KeyDetermines(t.cards, CardKey, c, c');
      }
    }
  }

  /**
   * Deleting boards removes exactly their lists, the cards on those lists and the history
   * of those cards, and no other row.
   */
  lemma RemoveBoardsExact(t: Tables, ids: set<int>)
    requires UniqueKeys(t)
    ensures forall l :: l in RemoveBoards(t, ids).lists <==> l in t.lists && l.boardId !in ids
    ensures forall c :: c in RemoveBoards(t, ids).cards <==>
      c in t.cards && c.listId !in ListsOnBoards(t.lists, ids)
    ensures forall h :: h in RemoveBoards(t, ids).histories <==>
      h in t.histories && h.cardId !in CardsOnLists(t.cards, ListsOnBoards(t.lists, ids))
  {
    var t1 := t.(boards := Filter(t.boards, (b: Board) => b.id !in ids));
    var gone := ListsOnBoards(t.lists, ids);
    FilterIncreasing(t.boards, BoardKey, (b: Board) => b.id !in ids);
    RemoveListsExact(t1, gone);
    forall l | l in t.lists ensures l.id in gone <==> l.boardId in ids {
      if l.id in gone {
        var l' :| l' in t.lists && l'.boardId in ids && l'.id == l.id;
        KeyDetermines(t.lists, ListKey, l, l');
      }
    }
  }

  /**
   * A permitted user deletion removes exactly the user, the boards it owns, their lists, the
   * cards on those lists and the history of those cards.
   */
  lemma RemoveUserExact(t: Tables, userId: int)
    requires UniqueKeys(t)
    requires RemoveUser(t, userId).Some?
    ensures forall b :: b in RemoveUser(t, userId).value.boards <==> b in t.boards && b.userId != userId
    ensures forall l :: l in RemoveUser(t, userId).value.lists <==>
      l in t.lists && l.boardId !in BoardsOfUser(t.boards, userId)
    ensures forall c :: c in RemoveUser(t, userId).value.cards <==>
      c in t.cards && c.listId !in ListsOnBoards(t.lists, BoardsOfUser(t.boards, userId))
    ensures forall h :: h in RemoveUser(t, userId).value.histories <==>
      h in t.histories && h.cardId !in CardsOnLists(t.cards, ListsOnBoards(t.lists, BoardsOfUser(t.boards, userId)))
  {
    var gone := BoardsOfUser(t.boards, userId);
    var t1 := t.(users := Filter(t.users, (u: User) => u.id != userId));
    FilterIncreasing(t.users, UserKey, (u: User) => u.id != userId);
    RemoveBoardsExact(t1, gone);
    forall b | b in t.boards ensures b.id in gone <==> b.userId == userId {
      if b.id in gone {
        var b' :| b' in t.boards && b'.userId == userId && b'.id == b.id;
        KeyDetermines(t.boards, BoardKey, b, b');
      }
    }
  }

  /** The store's invariant: well-formed tables whose keys lie below their AUTOINCREMENT sequences. */
  ghost predicate Consistent(t: Tables, nextBoard: int, nextList: int, nextCard: int, nextHistory: int)
  {
    && WellFormed(t)
    && KeysBelow(t.boards, BoardKey, nextBoard)
    && KeysBelow(t.lists, ListKey, nextList)
    && KeysBelow(t.cards, CardKey, nextCard)
    && KeysBelow(t.histories, HistoryKey, nextHistory)
  }

  /** Well-formed rows taken from a consistent store form a consistent store. */
  lemma WithinConsistent(r: Tables, t: Tables, nextBoard: int, nextList: int, nextCard: int, nextHistory: int)
    requires Consistent(t, nextBoard, nextList, nextCard, nextHistory)
    requires Within(r, t) && WellFormed(r)
    ensures Consistent(r, nextBoard, nextList, nextCard, nextHistory)
  {
  }

  /** Rewriting one card in place, keeping its id and pointing it at an existing list, keeps the store consistent. */
  lemma ReplaceCardConsistent(t: Tables, nextBoard: int, nextList: int, nextCard: int, nextHistory: int, i: nat, c: Card)
    requires Consistent(t, nextBoard, nextList, nextCard, nextHistory)
    requires i < |t.cards| && c.id == t.cards[i].id && c.listId in ListIds(t)
    ensures Consistent(t.(cards := t.cards[i := c]), nextBoard, nextList, nextCard, nextHistory)
  {
    UpdateSameKey(t.cards, CardKey, i, c, nextCard);
    var r := t.(cards := t.cards[i := c]);
    assert CardIds(r) == CardIds(t);
    forall x | x in r.cards ensures x.listId in ListIds(r) {
      var j :| 0 <= j < |r.cards| && r.cards[j] == x;
      if j != i { assert x == t.cards[j]; }
    }
  }

  /** Appending a history row with the next history id and resolvable keys keeps the store consistent. */
  lemma AppendHistoryConsistent(t: Tables, nextBoard: int, nextList: int, nextCard: int, nextHistory: int, h: CardHistory)
    requires Consistent(t, nextBoard, nextList, nextCard, nextHistory)
    requires h.id == nextHistory && h.cardId in CardIds(t) && h.userId in UserIds(t)
    ensures Consistent(t.(histories := t.histories + [h]), nextBoard, nextList, nextCard, nextHistory + 1)
  {
    AppendFresh(t.histories, HistoryKey, h, nextHistory);
  }

  /** Appending a board with the next board id and an existing owner keeps the store consistent. */
  lemma AppendBoardConsistent(t: Tables, nextBoard: int, nextList: int, nextCard: int, nextHistory: int, b: Board)
    requires Consistent(t, nextBoard, nextList, nextCard, nextHistory)
    requires b.id == nextBoard && b.userId in UserIds(t)
    ensures Consistent(t.(boards := t.boards + [b]), nextBoard + 1, nextList, nextCard, nextHistory)
  {
    AppendFresh(t.boards, BoardKey, b, nextBoard);
  }

  /** Appending a list with the next list id on an existing board keeps the store consistent. */
  lemma AppendListConsistent(t: Tables, nextBoard: int, nextList: int, nextCard: int, nextHistory: int, l: List)
    requires Consistent(t, nextBoard, nextList, nextCard, nextHistory)
    requires l.id == nextList && l.boardId in BoardIds(t)
    ensures Consistent(t.(lists := t.lists + [l]), nextBoard, nextList + 1, nextCard, nextHistory)
  {
    AppendFresh(t.lists, ListKey, l, nextList);
  }

  /**
   * Appending lists with consecutive ids from the next list id, each on an existing board,
   * keeps the store consistent (an `AddRange` saved at once).
   */
  lemma {:induction false} AppendListsConsistent(t: Tables, nextBoard: int, nextList: int, nextCard: int, nextHistory: int, ls: seq<List>)
    requires Consistent(t, nextBoard, nextList, nextCard, nextHistory)
    requires forall k :: 0 <= k < |ls| ==> ls[k].id == nextList + k && ls[k].boardId in BoardIds(t)
    ensures Consistent(t.(lists := t.lists + ls), nextBoard, nextList + |ls|, nextCard, nextHistory)
    decreases |ls|
  {
    if ls != [] {
      AppendListConsistent(t, nextBoard, nextList, nextCard, nextHistory, ls[0]);
      var t1 := t.(lists := t.lists + [ls[0]]);
      assert BoardIds(t1) == BoardIds(t);
      forall k | 0 <= k < |ls[1..]| ensures ls[1..][k].id == nextList + 1 + k && ls[1..][k].boardId in BoardIds(t1) {
        assert ls[1..][k] == ls[k + 1];
      }
      AppendListsConsistent(t1, nextBoard, nextList + 1, nextCard, nextHistory, ls[1..]);
      assert t.lists + ls == t1.lists + ls[1..];
    }
  }

  /**
   * The context: the tables as fields that the services reassign, and the next value of each
   * table's AUTOINCREMENT sequence. Users are registered outside the modelled services, so
   * their table is given to the constructor.
   */
  class ApplicationDbContext {
    var users: seq<User>
    var boards: seq<Board>
    var lists: seq<List>
    var cards: seq<Card>
    var cardHistories: seq<CardHistory>
    var nextBoardId: int
    var nextListId: int
    var nextCardId: int
    var nextHistoryId: int

    function Snapshot(): Tables
      reads this
    {
      Tables(users, boards, lists, cards, cardHistories)
    }

    ghost predicate Valid()
      reads this
    {
      Consistent(Snapshot(), nextBoardId, nextListId, nextCardId, nextHistoryId)
    }

    constructor (users: seq<User>)
      requires StrictlyIncreasing(users, UserKey)
      ensures Valid()
      ensures Snapshot() == Tables(users, [], [], [], [])
      ensures nextBoardId == 1 && nextListId == 1 && nextCardId == 1 && nextHistoryId == 1
    {
      this.users := users;
      boards, lists, cards, cardHistories := [], [], [], [];
      nextBoardId, nextListId, nextCardId, nextHistoryId := 1, 1, 1, 1;
    }

    /** Writes a consistent set of tables back, keeping the sequences. */
    method Commit(t: Tables)
      requires Consistent(t, nextBoardId, nextListId, nextCardId, nextHistoryId)
      modifies this
      ensures Valid() && Snapshot() == t
      ensures nextBoardId == old(nextBoardId) && nextListId == old(nextListId)
      ensures nextCardId == old(nextCardId) && nextHistoryId == old(nextHistoryId)
    {
      users, boards, lists, cards, cardHistories := t.users, t.boards, t.lists, t.cards, t.histories;
    }

    /**
     * `Cards.Add(card)` and `SaveChangesAsync()`: the card receives the next card id; the
     * insert is refused when its list does not exist.
     */
    method AddCard(card: Card) returns (r: Outcome<Card>)
      requires Valid()
      modifies this
      ensures Valid()
      ensures r.Rejected? <==> card.listId !in old(ListIds(Snapshot()))
      ensures !r.NotFound?
      ensures r.Rejected? ==> unchanged(this)
      ensures r.Ok? ==>
        && r.value == card.(id := old(nextCardId))
        && cards == old(cards) + [r.value]
        && nextCardId == old(nextCardId) + 1
        && users == old(users) && boards == old(boards) && lists == old(lists)
        && cardHistories == old(cardHistories)
        && nextBoardId == old(nextBoardId) && nextListId == old(nextListId)
        && nextHistoryId == old(nextHistoryId)
    {
      if card.listId !in ListIds(Snapshot()) {
        r := Rejected;
        return;
      }
      var stored := card.(id := nextCardId);
      AppendFresh(cards, CardKey, stored, nextCardId);
      cards := cards + [stored];
      nextCardId := nextCardId + 1;
      r := Ok(stored);
    }

    /** `Cards.Remove(card)` and `SaveChangesAsync()`, with the configured cascade. */
    method RemoveCard(cardId: int)
      requires Valid()
      modifies this
      ensures Valid()
      ensures Snapshot() == RemoveCards(old(Snapshot()), {cardId})
      ensures nextBoardId == old(nextBoardId) && nextListId == old(nextListId)
      ensures nextCardId == old(nextCardId) && nextHistoryId == old(nextHistoryId)
    {
      var t := RemoveCards(Snapshot(), {cardId});
      RemoveCardsWellFormed(Snapshot(), {cardId});
      WithinConsistent(t, Snapshot(), nextBoardId, nextListId, nextCardId, nextHistoryId);
      Commit(t);
    }

    /** `Boards.Remove(board)` and `SaveChangesAsync()`, with the configured cascades. */
    method RemoveBoard(boardId: int)
      requires Valid()
      modifies this
      ensures Valid()
      ensures Snapshot() == RemoveBoards(old(Snapshot()), {boardId})
      ensures nextBoardId == old(nextBoardId) && nextListId == old(nextListId)
      ensures nextCardId == old(nextCardId) && nextHistoryId == old(nextHistoryId)
    {
      var t := RemoveBoards(Snapshot(), {boardId});
      RemoveBoardsWellFormed(Snapshot(), {boardId});
      WithinConsistent(t, Snapshot(), nextBoardId, nextListId, nextCardId, nextHistoryId);
      Commit(t);
    }

    /** `Users.Remove(user)` and `SaveChangesAsync()`: cascades to boards, refused by the history restriction. */
    method RemoveUserRow(userId: int) returns (ok: bool)
      requires Valid()
      modifies this
      ensures Valid()
      ensures ok <==> RemoveUser(old(Snapshot()), userId).Some?
      ensures ok ==> Snapshot() == RemoveUser(old(Snapshot()), userId).value
      ensures !ok ==> unchanged(this)
      ensures nextBoardId == old(nextBoardId) && nextListId == old(nextListId)
      ensures nextCardId == old(nextCardId) && nextHistoryId == old(nextHistoryId)
    {
      var t := RemoveUser(Snapshot(), userId);
      if t.None? {
        ok := false;
        return;
      }
      RemoveUserWellFormed(Snapshot(), userId);
      WithinConsistent(t.value, Snapshot(), nextBoardId, nextListId, nextCardId, nextHistoryId);
      Commit(t.value);
      ok := true;
    }
  }
}
