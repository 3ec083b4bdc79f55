/**
 * Boards and their ownership (BoardService): the boards of a user, one board with its lists
 * and their cards, creation with the four fixed lists, and deletion by the owner.
 */
module BoardService {
  import opened Rows
  import opened Models
  import opened Data
  import opened CardService

  /** A list together with its loaded Cards collection. */
  datatype ListWithCards = ListWithCards(list: List, cards: seq<Card>)

  /** A board together with its loaded Lists collection, each with its Cards (`Include(...).ThenInclude(...)`). */
  datatype BoardWithLists = BoardWithLists(board: Board, lists: seq<ListWithCards>)

  /** GetUserBoardsAsync: exactly the boards the user owns, taken in rowid order (the query has no ORDER BY). */
  function GetUserBoardsAsync(db: ApplicationDbContext, userId: int): (r: seq<Board>)
    reads db
    ensures forall b :: b in r <==> b in db.boards && b.userId == userId
    ensures StrictlyIncreasing(db.boards, BoardKey) ==> StrictlyIncreasing(r, BoardKey)
  {
    var r := Filter(db.boards, (b: Board) => b.userId == userId);
    assert StrictlyIncreasing(db.boards, BoardKey) ==> StrictlyIncreasing(r, BoardKey) by {
      if StrictlyIncreasing(db.boards, BoardKey) { FilterIncreasing(db.boards, BoardKey, (b: Board) => b.userId == userId); }
    }
    r
  }

  /** The board with the given id when the given user owns it (`FirstOrDefault(b => b.Id == id && b.UserId == user)`). */
  function OwnedBoard(boards: seq<Board>, boardId: int, userId: int): (r: Option<Board>)
    ensures r.Some? <==> exists b :: b in boards && b.id == boardId && b.userId == userId
    ensures r.Some? ==> r.value in boards && r.value.id == boardId && r.value.userId == userId
  {
    First(boards, (b: Board) => b.id == boardId && b.userId == userId)
  }

  /**
   * GetBoardByIdAsync: nothing unless a board has the id and belongs to the user; otherwise
   * that board with its lists, each with its cards.
   */
  function GetBoardByIdAsync(db: ApplicationDbContext, boardId: int, userId: int): (r: Option<BoardWithLists>)
    reads db
    ensures r.Some? <==> exists b :: b in db.boards && b.id == boardId && b.userId == userId
    ensures r.Some? ==> r.value.board in db.boards && r.value.board.id == boardId && r.value.board.userId == userId
    ensures r.Some? ==> forall lc :: lc in r.value.lists ==>
      && lc.list in db.lists && lc.list.boardId == boardId
      && forall c :: c in lc.cards <==> c in db.cards && c.listId == lc.list.id
    ensures r.Some? ==> forall l :: l in db.lists && l.boardId == boardId ==>
      ListWithCards(l, CardsOf(db.cards, l.id)) in r.value.lists
  {
    var board := OwnedBoard(db.boards, boardId, userId);
    if board.None? then None
    else
      var ls := ListsOf(db.lists, boardId);
      var cards := db.cards;
      var loaded := seq(|ls|, k requires 0 <= k < |ls| => ListWithCards(ls[k], CardsOf(cards, ls[k].id)));
      assert forall l :: l in ls ==> ListWithCards(l, CardsOf(cards, l.id)) in loaded by {
        forall l | l in ls ensures ListWithCards(l, CardsOf(cards, l.id)) in loaded {
          var k :| 0 <= k < |ls| && ls[k] == l;
          assert loaded[k] == ListWithCards(l, CardsOf(cards, l.id));
        }
      }
      Some(BoardWithLists(board.value, loaded))
  }

  /** The four lists every new board starts with, saved in this order with consecutive ids. */
  function SeedLists(boardId: int, firstId: int): (r: seq<List>)
    ensures |r| == 4
    ensures forall k :: 0 <= k < |r| ==> r[k].id == firstId + k && r[k].boardId == boardId
    ensures r[0].name == "Backlog" && r[1].name == "Priorized" && r[2].name == "Doing" && r[3].name == DoneName
  {
    [ List(firstId, "Backlog", boardId),
      List(firstId + 1, "Priorized", boardId),
      List(firstId + 2, "Doing", boardId),
      List(firstId + 3, DoneName, boardId) ]
  }

  /** Of the four seeded lists only the last is named "Done". */
  lemma SeedDoneList(boardId: int, firstId: int, l: List)
    requires l in SeedLists(boardId, firstId) && IsDoneListOf(l, boardId)
    ensures l == List(firstId + 3, DoneName, boardId)
  {
    var seed := SeedLists(boardId, firstId);
    assert seed[0].name != DoneName by { assert seed[0].name[0] != DoneName[0]; }
    assert seed[1].name != DoneName by { assert seed[1].name[0] != DoneName[0]; }
    assert seed[2].name != DoneName by { assert |seed[2].name| != |DoneName|; }
  }

  /**
   * For a board that had no lists, adding the seeded lists gives it exactly the four lists
   * "Backlog", "Priorized", "Doing" and "Done", in that order.
   */
  lemma {:induction false} SeededBoardLists(lists: seq<List>, boardId: int, firstId: int)
    requires forall l :: l in lists ==> l.boardId != boardId
    ensures ListsOf(lists + SeedLists(boardId, firstId), boardId) == SeedLists(boardId, firstId)
  {
    var seed := SeedLists(boardId, firstId);
    FilterAppend(lists, seed, (l: List) => l.boardId == boardId);
    FilterAllOrNone(lists, (l: List) => l.boardId == boardId);
    FilterAllOrNone(seed, (l: List) => l.boardId == boardId);
  }

  /**
   * ... and its single "Done" list is the seeded one, which is the list its cards'
   * completion rule uses.
   */
  lemma SeededBoardDone(lists: seq<List>, boardId: int, firstId: int)
    requires forall l :: l in lists ==> l.boardId != boardId
    ensures SingleDoneList(lists + SeedLists(boardId, firstId), boardId)
    ensures DoneListOf(lists + SeedLists(boardId, firstId), boardId) == Some(List(firstId + 3, DoneName, boardId))
  {
    var seed := SeedLists(boardId, firstId);
    var all := lists + seed;
    assert seed[3] in all && IsDoneListOf(seed[3], boardId);
    forall l | l in all && IsDoneListOf(l, boardId) ensures l == seed[3] {
      assert l in seed;
      SeedDoneList(boardId, firstId, l);
    }
  }

  /**
   * CreateBoardAsync: saves the board with the next board id, then its four lists; the store
   * refuses a board whose owner does not exist. The controller sets the owner to the caller.
   */
  method CreateBoardAsync(db: ApplicationDbContext, board: Board) returns (r: Outcome<Board>)
    requires db.Valid()
    modifies db
    ensures db.Valid()
    ensures r.Rejected? <==> board.userId !in UserIds(old(db.Snapshot()))
    ensures !r.NotFound?
    ensures r.Rejected? ==> unchanged(db)
    ensures r.Ok? ==>
      && r.value == board.(id := old(db.nextBoardId))
      && db.Snapshot() == old(db.Snapshot()).(
           boards := old(db.boards) + [r.value],
           lists := old(db.lists) + SeedLists(r.value.id, old(db.nextListId)))
      && db.nextBoardId == old(db.nextBoardId) + 1 && db.nextListId == old(db.nextListId) + 4
      && db.nextCardId == old(db.nextCardId) && db.nextHistoryId == old(db.nextHistoryId)
    ensures r.Ok? ==>
      && ListsOf(db.lists, r.value.id) == SeedLists(r.value.id, old(db.nextListId))
      && SingleDoneList(db.lists, r.value.id)
  {
    if board.userId !in UserIds(db.Snapshot()) {
      r := Rejected;
      return;
    }
    // First SaveChangesAsync: the board receives its id.
    var stored := board.(id := db.nextBoardId);
    var t := db.Snapshot();
    AppendBoardConsistent(t, db.nextBoardId, db.nextListId, db.nextCardId, db.nextHistoryId, stored);
    forall l | l in t.lists ensures l.boardId != stored.id {
      var b :| b in t.boards && b.id == l.boardId;
    }
    db.nextBoardId := db.nextBoardId + 1;
    db.Commit(t.(boards := t.boards + [stored]));
    // Second SaveChangesAsync: the four fixed lists.
    var seed := SeedLists(stored.id, db.nextListId);
    var t1 := db.Snapshot();
    assert stored.id in BoardIds(t1) by { assert stored in t1.boards; }
    AppendListsConsistent(t1, db.nextBoardId, db.nextListId, db.nextCardId, db.nextHistoryId, seed);
    SeededBoardLists(t1.lists, stored.id, db.nextListId);
    SeededBoardDone(t1.lists, stored.id, db.nextListId);
    db.nextListId := db.nextListId + 4;
    db.Commit(t1.(lists := t1.lists + seed));
    r := Ok(stored);
  }

  /**
   * DeleteBoardAsync: false, with nothing written, when no board has the id and the owner;
   * otherwise the board is deleted with its lists, their cards and those cards' history.
   */
  method DeleteBoardAsync(db: ApplicationDbContext, boardId: int, userId: int) returns (deleted: bool)
    requires db.Valid()
    modifies db
    ensures db.Valid()
    ensures deleted <==> exists b :: b in old(db.boards) && b.id == boardId && b.userId == userId
    ensures !deleted ==> unchanged(db)
    ensures deleted ==> db.Snapshot() == RemoveBoards(old(db.Snapshot()), {boardId})
    ensures deleted ==>
      && (forall b :: b in db.boards <==> b in old(db.boards) && b.id != boardId)
      && (forall l :: l in db.lists <==> l in old(db.lists) && l.boardId != boardId)
      && (forall c :: c in db.cards <==> c in old(db.cards) && c.listId !in ListsOnBoards(old(db.lists), {boardId}))
      && (forall h :: h in db.cardHistories <==>
            h in old(db.cardHistories) && h.cardId !in CardsOnLists(old(db.cards), ListsOnBoards(old(db.lists), {boardId})))
    ensures db.nextBoardId == old(db.nextBoardId) && db.nextListId == old(db.nextListId)
    ensures db.nextCardId == old(db.nextCardId) && db.nextHistoryId == old(db.nextHistoryId)
  {
    var board := OwnedBoard(db.boards, boardId, userId);
    if board.None? {
      deleted := false;
      return;
    }
    RemoveBoardsExact(db.Snapshot(), {boardId});
    db.RemoveBoard(boardId);
    deleted := true;
  }
}
