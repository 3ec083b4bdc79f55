/**
 * The card lifecycle (CardService): lookups, creation, field updates, moves between lists
 * with the completion-timestamp rule, deletion, and the movement history of a card.
 * Each service call is one atomic step on the context; the clock is the `now` parameter.
 */
module CardService {
  import opened Rows
  import opened Models
  import opened Data

  // ---------------------------------------------------------------------------------------
  // The completion rule
  // ---------------------------------------------------------------------------------------

  /** A list named "Done" on the given board. */
  predicate IsDoneListOf(l: List, boardId: int)
  {
    l.boardId == boardId && l.name == DoneName
  }

  /**
   * The list the services take as a board's completion list: the first list of the board
   * named "Done" in rowid order, which is what `FirstOrDefault` without ORDER BY returns on
   * a table scan.
   */
  function DoneListOf(lists: seq<List>, boardId: int): (r: Option<List>)
    ensures r.None? <==> forall l :: l in lists ==> !IsDoneListOf(l, boardId)
    ensures r.Some? ==> r.value in lists && IsDoneListOf(r.value, boardId)
  {
    First(lists, (l: List) => IsDoneListOf(l, boardId))
  }

  /** The board has exactly one list named "Done". */
  ghost predicate SingleDoneList(lists: seq<List>, boardId: int)
  {
    var d := DoneListOf(lists, boardId);
    d.Some? && forall l :: l in lists && IsDoneListOf(l, boardId) ==> l == d.value
  }

  /** The list a card sits on, by its foreign key. */
  function ListOf(lists: seq<List>, card: Card): Option<List>
  {
    FindByKey(lists, ListKey, card.listId)
  }

  /** The card sits on a list named "Done". */
  predicate InDoneList(lists: seq<List>, card: Card)
  {
    var l := ListOf(lists, card);
    l.Some? && l.value.name == DoneName
  }

  /** The intended completion invariant: a card has a completion time exactly when it sits on a "Done" list. */
  predicate CompletionConsistent(lists: seq<List>, card: Card)
  {
    card.completedAt.Some? <==> InDoneList(lists, card)
  }

  ghost predicate AllCompletionConsistent(lists: seq<List>, cards: seq<Card>)
  {
    forall c :: c in cards ==> CompletionConsistent(lists, c)
  }

  /**
   * The card as MoveCardAsync leaves it: on the target list, with the completion rule of the
   * target list's board applied. The rule compares the card's former list with the target
   * board's "Done" list.
   */
  function MovedCard(lists: seq<List>, card: Card, toList: List, now: Time): (r: Card)
    ensures r.id == card.id && r.title == card.title && r.description == card.description
    ensures r.createdAt == card.createdAt && r.dueDate == card.dueDate
    ensures r.listId == toList.id
    ensures var done := DoneListOf(lists, toList.boardId);
      && (done.Some? && toList.id == done.value.id ==> r.completedAt == Some(now))
      && (done.Some? && toList.id != done.value.id && card.listId == done.value.id ==> r.completedAt == None)
      && (done.None? || (toList.id != done.value.id && card.listId != done.value.id) ==>
            r.completedAt == card.completedAt)
  {
    var moved := card.(listId := toList.id);
    var done := DoneListOf(lists, toList.boardId);
    if done.Some? && toList.id == done.value.id then moved.(completedAt := Some(now))
    else if done.Some? && card.listId == done.value.id && toList.id != done.value.id then moved.(completedAt := None)
    else moved
  }

  /**
   * The card as UpdateCardAsync leaves it: title, description and due date copied from the
   * request, and the completion rule of the card's own board applied to the list id the
   * request carries, which need not be the list the card is on.
   */
  function UpdatedCard(lists: seq<List>, existing: Card, request: Card, now: Time): (r: Card)
    requires existing.listId in KeySet(lists, ListKey)
    ensures r.id == existing.id && r.listId == existing.listId && r.createdAt == existing.createdAt
    ensures r.title == request.title && r.description == request.description && r.dueDate == request.dueDate
    ensures var done := DoneListOf(lists, ListOf(lists, existing).value.boardId);
      && (done.None? ==> r.completedAt == existing.completedAt)
      && (done.Some? && request.listId == done.value.id && existing.completedAt.None? ==> r.completedAt == Some(now))
      && (done.Some? && request.listId == done.value.id && existing.completedAt.Some? ==>
            r.completedAt == existing.completedAt)
      && (done.Some? && request.listId != done.value.id ==> r.completedAt == None)
  {
    var copied := existing.(title := request.title, description := request.description, dueDate := request.dueDate);
    var done := DoneListOf(lists, ListOf(lists, existing).value.boardId);
    if done.Some? && request.listId == done.value.id && existing.completedAt.None? then copied.(completedAt := Some(now))
    else if done.Some? && request.listId != done.value.id then copied.(completedAt := None)
    else copied
  }

  /** On a board with a single "Done" list, a list of the board is named "Done" exactly when it is that board's Done list. */
  lemma OnlyDoneList(lists: seq<List>, boardId: int, l: List)
    requires SingleDoneList(lists, boardId)
    requires l in lists && l.boardId == boardId
    ensures l.name == DoneName <==> l == DoneListOf(lists, boardId).value
  {
  }

  /**
   * A move between two lists of one board that has a single "Done" list keeps the completion
   * invariant of the moved card.
   */
  lemma SameBoardMoveKeepsCompletion(lists: seq<List>, card: Card, toList: List, now: Time)
    requires StrictlyIncreasing(lists, ListKey)
    requires toList in lists
    requires ListOf(lists, card).Some? && ListOf(lists, card).value.boardId == toList.boardId
    requires SingleDoneList(lists, toList.boardId)
    requires CompletionConsistent(lists, card)
    ensures CompletionConsistent(lists, MovedCard(lists, card, toList, now))
  {
    var r := MovedCard(lists, card, toList, now);
    var from := ListOf(lists, card).value;
    var done := DoneListOf(lists, toList.boardId).value;
    FindMember(lists, ListKey, toList);
    assert ListOf(lists, r) == Some(toList);
    OnlyDoneList(lists, toList.boardId, toList);
    OnlyDoneList(lists, toList.boardId, from);
  }

  /** The same, for every card of the store: the other cards are untouched by the move. */
  lemma SameBoardMoveKeepsAllCompletion(lists: seq<List>, cards: seq<Card>, i: nat, toList: List, now: Time)
    requires StrictlyIncreasing(lists, ListKey)
    requires i < |cards| && toList in lists
    requires ListOf(lists, cards[i]).Some? && ListOf(lists, cards[i]).value.boardId == toList.boardId
    requires SingleDoneList(lists, toList.boardId)
    requires AllCompletionConsistent(lists, cards)
    ensures AllCompletionConsistent(lists, cards[i := MovedCard(lists, cards[i], toList, now)])
  {
    var moved := MovedCard(lists, cards[i], toList, now);
    SameBoardMoveKeepsCompletion(lists, cards[i], toList, now);
    forall c | c in cards[i := moved] ensures CompletionConsistent(lists, c) {
      var j :| 0 <= j < |cards[i := moved]| && cards[i := moved][j] == c;
      if j != i { assert c == cards[j]; }
    }
  }

  /**
   * Without the same-board condition the invariant can break: a completed card leaves board
   * 1's "Done" list for a plain list of board 2; its former list is not board 2's "Done"
   * list, so its completion time survives although it is no longer done.
   */
  lemma CrossBoardMoveKeepsStaleCompletion()
    ensures var lists := [List(1, DoneName, 1), List(2, "Doing", 2), List(3, DoneName, 2)];
      var card := Card(7, "t", None, 1, 0, None, Some(5));
      && CompletionConsistent(lists, card)
      && SingleDoneList(lists, 2)
      && !CompletionConsistent(lists, MovedCard(lists, card, lists[1], 9))
  {
    var lists := [List(1, DoneName, 1), List(2, "Doing", 2), List(3, DoneName, 2)];
    var card := Card(7, "t", None, 1, 0, None, Some(5));
    assert DoneListOf(lists, 2) == Some(lists[2]) by {
      assert lists[2] in lists && IsDoneListOf(lists[2], 2);
      assert !IsDoneListOf(lists[0], 2) && !IsDoneListOf(lists[1], 2);
    }
    assert ListOf(lists, card) == Some(lists[0]);
    assert ListOf(lists, MovedCard(lists, card, lists[1], 9)) == Some(lists[1]);
  }

  /**
   * An update whose request repeats the card's own list keeps the completion invariant on a
   * board with a single "Done" list.
   */
  lemma UpdateWithOwnListKeepsCompletion(lists: seq<List>, existing: Card, request: Card, now: Time)
    requires StrictlyIncreasing(lists, ListKey)
    requires existing.listId in KeySet(lists, ListKey)
    requires request.listId == existing.listId
    requires SingleDoneList(lists, ListOf(lists, existing).value.boardId)
    requires CompletionConsistent(lists, existing)
    ensures CompletionConsistent(lists, UpdatedCard(lists, existing, request, now))
  {
    var home := ListOf(lists, existing).value;
    OnlyDoneList(lists, home.boardId, home);
    FindMember(lists, ListKey, DoneListOf(lists, home.boardId).value);
  }

  /**
   * An update whose request names another list clears the completion time of a card that
   * stays on its "Done" list.
   */
  lemma UpdateWithOtherListClearsCompletion()
    ensures var lists := [List(1, "Doing", 1), List(2, DoneName, 1)];
      var existing := Card(7, "t", None, 2, 0, None, Some(5));
      var request := existing.(listId := 1);
      && CompletionConsistent(lists, existing)
      && UpdatedCard(lists, existing, request, 9).listId == 2
      && !CompletionConsistent(lists, UpdatedCard(lists, existing, request, 9))
  {
    var lists := [List(1, "Doing", 1), List(2, DoneName, 1)];
    var existing := Card(7, "t", None, 2, 0, None, Some(5));
    assert ListOf(lists, existing) == Some(lists[1]);
    assert DoneListOf(lists, 1) == Some(lists[1]) by {
      assert lists[1] in lists && IsDoneListOf(lists[1], 1);
      assert !IsDoneListOf(lists[0], 1);
    }
  }

  // ---------------------------------------------------------------------------------------
  // The history query
  // ---------------------------------------------------------------------------------------

  /** Non-increasing movement time: the newest move first. */
  ghost predicate NewestFirst(s: seq<CardHistory>)
  {
    forall i, j :: 0 <= i < j < |s| ==> s[i].movedAt >= s[j].movedAt
  }

  /**
   * Inserts a row into a newest-first sequence before the first row that is not newer, so
   * that rows with equal times keep their relative order.
   */
  function InsertNewestFirst(h: CardHistory, s: seq<CardHistory>): (r: seq<CardHistory>)
    requires NewestFirst(s)
    ensures NewestFirst(r)
    ensures multiset(r) == multiset(s) + multiset{h}
    ensures |r| == |s| + 1
  {
    if s == [] || s[0].movedAt <= h.movedAt then
      ConsNewestFirst(h, s);
      [h] + s
    else
      assert s == [s[0]] + s[1..];
      var rest := InsertNewestFirst(h, s[1..]);
      HeadNewerThanInserted(h, s, rest);
      ConsNewestFirst(s[0], rest);
      [s[0]] + rest
  }

  /** A row no older than any row of a newest-first sequence can go in front of it. */
  lemma ConsNewestFirst(x: CardHistory, s: seq<CardHistory>)
    requires NewestFirst(s)
    requires forall y :: y in s ==> x.movedAt >= y.movedAt
    ensures NewestFirst([x] + s)
  {
    var r := [x] + s;
    forall i, j | 0 <= i < j < |r| ensures r[i].movedAt >= r[j].movedAt {
      assert r[j] == s[j - 1];
      if i > 0 { assert r[i] == s[i - 1]; }
    }
  }

  /** The head of a newest-first sequence is no older than the rows of its tail or an older inserted row. */
  lemma HeadNewerThanInserted(h: CardHistory, s: seq<CardHistory>, rest: seq<CardHistory>)
    requires NewestFirst(s) && s != [] && s[0].movedAt > h.movedAt
    requires multiset(rest) == multiset(s[1..]) + multiset{h}
    ensures forall y :: y in rest ==> s[0].movedAt >= y.movedAt
  {
    forall y | y in rest ensures s[0].movedAt >= y.movedAt {
      assert y in multiset(rest);
      if y != h {
        assert y in multiset(s[1..]);
        var k :| 0 <= k < |s[1..]| && s[1..][k] == y;
        assert s[k + 1] == y;
      }
    }
  }

  /** `OrderByDescending(MovedAt)`: a newest-first permutation of its input. */
  function SortNewestFirst(s: seq<CardHistory>): (r: seq<CardHistory>)
    ensures NewestFirst(r)
    ensures multiset(r) == multiset(s)
  {
    if s == [] then []
    else
      assert s == [s[0]] + s[1..];
      InsertNewestFirst(s[0], SortNewestFirst(s[1..]))
  }

  /**
   * Rows with equal movement times appear in increasing id order. SQL leaves the order of
   * such ties open; the model's sort fixes this one.
   */
  ghost predicate TiesInIdOrder(s: seq<CardHistory>)
  {
    forall i, j :: 0 <= i < j < |s| && s[i].movedAt == s[j].movedAt ==> s[i].id < s[j].id
  }

  /** Dropping the first row keeps ties in id order. */
  lemma TailTiesInIdOrder(s: seq<CardHistory>)
    requires s != [] && TiesInIdOrder(s)
    ensures TiesInIdOrder(s[1..])
  {
    forall i, j | 0 <= i < j < |s[1..]| && s[1..][i].movedAt == s[1..][j].movedAt
      ensures s[1..][i].id < s[1..][j].id
    {
      assert s[1..][i] == s[i + 1] && s[1..][j] == s[j + 1];
    }
  }

  /** Putting in front a row whose id is below that of every later row with the same time keeps ties in id order. */
  lemma ConsTiesInIdOrder(x: CardHistory, s: seq<CardHistory>)
    requires TiesInIdOrder(s)
    requires forall y :: y in s && y.movedAt == x.movedAt ==> x.id < y.id
    ensures TiesInIdOrder([x] + s)
  {
    var r := [x] + s;
    forall i, j | 0 <= i < j < |r| && r[i].movedAt == r[j].movedAt ensures r[i].id < r[j].id {
      assert r[j] == s[j - 1];
      if i > 0 { assert r[i] == s[i - 1]; }
    }
  }

  /** Inserting a row whose id is below every id of the sequence keeps ties in id order. */
  lemma {:induction false} InsertKeepsTieOrder(h: CardHistory, s: seq<CardHistory>)
    requires NewestFirst(s) && TiesInIdOrder(s)
    requires forall x :: x in s ==> h.id < x.id
    ensures TiesInIdOrder(InsertNewestFirst(h, s))
  {
    if s == [] || s[0].movedAt <= h.movedAt {
      ConsTiesInIdOrder(h, s);
    } else {
      var rest := InsertNewestFirst(h, s[1..]);
      assert s == [s[0]] + s[1..];
      TailTiesInIdOrder(s);
      InsertKeepsTieOrder(h, s[1..]);
      forall y | y in rest && y.movedAt == s[0].movedAt ensures s[0].id < y.id {
        assert y in multiset(rest);
        if y != h {
          assert y in multiset(s[1..]);
          var k :| 0 <= k < |s[1..]| && s[1..][k] == y;
          assert s[k + 1] == y;
        }
      }
      ConsTiesInIdOrder(s[0], rest);
    }
  }

  /** On a history table whose ids grow with rowid, rows with equal times come out oldest row first. */
  lemma {:induction false} SortKeepsTieOrder(s: seq<CardHistory>)
    requires StrictlyIncreasing(s, HistoryKey)
    ensures TiesInIdOrder(SortNewestFirst(s))
  {
    if s != [] {
      var tail := s[1..];
      assert StrictlyIncreasing(tail, HistoryKey) by {
        forall i, j | 0 <= i < j < |tail| ensures tail[i].id < tail[j].id {
          assert tail[i] == s[i + 1] && tail[j] == s[j + 1];
        }
      }
      SortKeepsTieOrder(tail);
      var sorted := SortNewestFirst(tail);
      forall x | x in sorted ensures s[0].id < x.id {
        assert x in multiset(sorted);
        assert x in multiset(tail);
        var k :| 0 <= k < |tail| && tail[k] == x;
        assert s[k + 1] == x;
      }
      InsertKeepsTieOrder(s[0], sorted);
    }
  }

  /** The history rows of one card, in rowid order. */
  function HistoryOf(histories: seq<CardHistory>, cardId: int): (r: seq<CardHistory>)
    ensures forall h :: h in r <==> h in histories && h.cardId == cardId
  {
    Filter(histories, (h: CardHistory) => h.cardId == cardId)
  }

  // ---------------------------------------------------------------------------------------
  // The service
  // ---------------------------------------------------------------------------------------

  /** GetCardByIdAsync: the card with the given id, if any. */
  function GetCardByIdAsync(db: ApplicationDbContext, cardId: int): (r: Option<Card>)
    reads db
    ensures r.Some? <==> cardId in CardIds(db.Snapshot())
    ensures r.Some? ==> r.value in db.cards && r.value.id == cardId
  {
    FindByKey(db.cards, CardKey, cardId)
  }

  /**
   * GetCardHistoryAsync: exactly the history rows of the card, newest first; an empty
   * sequence for a card without history, including an unknown card. On a table whose ids
   * grow with rowid, rows moved at the same time come oldest row first.
   */
  function GetCardHistoryAsync(db: ApplicationDbContext, cardId: int): (r: seq<CardHistory>)
    reads db
    ensures NewestFirst(r)
    ensures multiset(r) == multiset(HistoryOf(db.cardHistories, cardId))
    ensures forall h :: h in r <==> h in db.cardHistories && h.cardId == cardId
    ensures (forall h :: h in db.cardHistories ==> h.cardId != cardId) ==> r == []
    ensures StrictlyIncreasing(db.cardHistories, HistoryKey) ==> TiesInIdOrder(r)
  {
    var hs := HistoryOf(db.cardHistories, cardId);
    var r := SortNewestFirst(hs);
    assert forall h :: h in r <==> h in hs by {
      forall h ensures h in r <==> h in hs {
        assert h in r <==> h in multiset(r);
        assert h in hs <==> h in multiset(hs);
      }
    }
    assert StrictlyIncreasing(db.cardHistories, HistoryKey) ==> TiesInIdOrder(r) by {
      if StrictlyIncreasing(db.cardHistories, HistoryKey) {
        FilterIncreasing(db.cardHistories, HistoryKey, (h: CardHistory) => h.cardId == cardId);
        SortKeepsTieOrder(hs);
      }
    }
    r
  }

  /** CreateCardAsync: inserts the card with the next card id; the store refuses a card whose list does not exist. */
  method CreateCardAsync(db: ApplicationDbContext, card: Card) returns (r: Outcome<Card>)
    requires db.Valid()
    modifies db
    ensures db.Valid()
    ensures r.Rejected? <==> card.listId !in ListIds(old(db.Snapshot()))
    ensures !r.NotFound?
    ensures r.Rejected? ==> unchanged(db)
    ensures r.Ok? ==>
      && r.value == card.(id := old(db.nextCardId))
      && db.Snapshot() == old(db.Snapshot()).(cards := old(db.cards) + [r.value])
      && db.nextCardId == old(db.nextCardId) + 1
      && db.nextBoardId == old(db.nextBoardId) && db.nextListId == old(db.nextListId)
      && db.nextHistoryId == old(db.nextHistoryId)
  {
    r := db.AddCard(card);
  }

  /**
   * UpdateCardAsync: NotFound for an unknown id; otherwise the card gets the request's
   * title, description and due date and the update rule's completion time, in place. The
   * card's list and the history are never written.
   */
  method UpdateCardAsync(db: ApplicationDbContext, card: Card, now: Time) returns (r: Outcome<Card>)
    requires db.Valid()
    modifies db
    ensures db.Valid()
    ensures r.NotFound? <==> card.id !in CardIds(old(db.Snapshot()))
    ensures !r.Rejected?
    ensures r.NotFound? ==> unchanged(db)
    ensures r.Ok? ==>
      var i := IndexOfKey(old(db.cards), CardKey, card.id);
      && i < |old(db.cards)|
      && r.value == UpdatedCard(old(db.lists), old(db.cards)[i], card, now)
      && db.Snapshot() == old(db.Snapshot()).(cards := old(db.cards)[i := r.value])
      && db.nextBoardId == old(db.nextBoardId) && db.nextListId == old(db.nextListId)
      && db.nextCardId == old(db.nextCardId) && db.nextHistoryId == old(db.nextHistoryId)
  {
    var i := IndexOfKey(db.cards, CardKey, card.id);
    if i == |db.cards| {
      r := NotFound;
      return;
    }
    var existing := db.cards[i];
    assert existing in db.cards;
    existing := existing.(title := card.title, description := card.description, dueDate := card.dueDate);
    var done := DoneListOf(db.lists, ListOf(db.lists, db.cards[i]).value.boardId);
    if done.Some? && card.listId == done.value.id && existing.completedAt.None? {
      existing := existing.(completedAt := Some(now));
    } else if done.Some? && card.listId != done.value.id {
      existing := existing.(completedAt := None);
    }
    ReplaceCardConsistent(db.Snapshot(), db.nextBoardId, db.nextListId, db.nextCardId, db.nextHistoryId, i, existing);
    db.Commit(db.Snapshot().(cards := db.cards[i := existing]));
    r := Ok(existing);
  }

  /**
   * MoveCardAsync: NotFound, with nothing written, when the card or the target list is
   * unknown. Otherwise one history row {card, former list, target list, now, user} is
   * appended, also for a move onto the card's own list, and the card is rewritten in place
   * by the move rule; the store refuses the step when the user does not exist. No check
   * ties the target list to the card's board.
   */
  method MoveCardAsync(db: ApplicationDbContext, cardId: int, toListId: int, userId: int, now: Time)
    returns (r: Outcome<Card>)
    requires db.Valid()
    modifies db
    ensures db.Valid()
    ensures r.NotFound? <==>
      cardId !in CardIds(old(db.Snapshot())) || toListId !in ListIds(old(db.Snapshot()))
    ensures r.Rejected? <==>
      && cardId in CardIds(old(db.Snapshot())) && toListId in ListIds(old(db.Snapshot()))
      && userId !in UserIds(old(db.Snapshot()))
    ensures r.NotFound? || r.Rejected? ==> unchanged(db)
    ensures r.Ok? ==>
      var i := IndexOfKey(old(db.cards), CardKey, cardId);
      var toList := FindByKey(old(db.lists), ListKey, toListId);
      && i < |old(db.cards)| && toList.Some?
      && r.value == MovedCard(old(db.lists), old(db.cards)[i], toList.value, now)
      && db.Snapshot() == old(db.Snapshot()).(
           cards := old(db.cards)[i := r.value],
           histories := old(db.cardHistories) +
             [CardHistory(old(db.nextHistoryId), cardId, old(db.cards)[i].listId, toListId, now, userId)])
      && db.nextHistoryId == old(db.nextHistoryId) + 1
      && db.nextBoardId == old(db.nextBoardId) && db.nextListId == old(db.nextListId)
      && db.nextCardId == old(db.nextCardId)
  {
    var i := IndexOfKey(db.cards, CardKey, cardId);
    if i == |db.cards| {
      r := NotFound;
      return;
    }
    var toList := FindByKey(db.lists, ListKey, toListId);
    if toList.None? {
      r := NotFound;
      return;
    }
    // SaveChangesAsync refuses a history row whose user does not exist.
    if userId !in UserIds(db.Snapshot()) {
      r := Rejected;
      return;
    }
    var card := db.cards[i];
    ghost var original := card;
    var fromListId := card.listId;
    var history := CardHistory(db.nextHistoryId, cardId, fromListId, toListId, now, userId);
    card := card.(listId := toListId);
    var done := DoneListOf(db.lists, toList.value.boardId);
    if done.Some? && toListId == done.value.id {
      card := card.(completedAt := Some(now));
    } else if done.Some? && fromListId == done.value.id && toListId != done.value.id {
      card := card.(completedAt := None);
    }
    assert card == MovedCard(db.lists, original, toList.value, now);
    var t := db.Snapshot();
    assert cardId in CardIds(t) by { assert db.cards[i] in db.cards; }
    ReplaceCardConsistent(t, db.nextBoardId, db.nextListId, db.nextCardId, db.nextHistoryId, i, card);
    var t1 := t.(cards := t.cards[i := card]);
    UpdateSameKey(t.cards, CardKey, i, card, db.nextCardId);
    AppendHistoryConsistent(t1, db.nextBoardId, db.nextListId, db.nextCardId, db.nextHistoryId, history);
    db.nextHistoryId := db.nextHistoryId + 1;
    db.Commit(t1.(histories := t1.histories + [history]));
    r := Ok(card);
  }

  /** DeleteCardAsync: false, with nothing written, for an unknown id; otherwise the card and its history are deleted. */
  method DeleteCardAsync(db: ApplicationDbContext, cardId: int) returns (deleted: bool)
    requires db.Valid()
    modifies db
    ensures db.Valid()
    ensures deleted <==> cardId in CardIds(old(db.Snapshot()))
    ensures !deleted ==> unchanged(db)
    ensures deleted ==> db.Snapshot() == RemoveCards(old(db.Snapshot()), {cardId})
    ensures deleted ==>
      && cardId !in CardIds(db.Snapshot())
      && (forall c :: c in db.cards <==> c in old(db.cards) && c.id != cardId)
      && (forall h :: h in db.cardHistories <==> h in old(db.cardHistories) && h.cardId != cardId)
      && db.users == old(db.users) && db.boards == old(db.boards) && db.lists == old(db.lists)
    ensures db.nextBoardId == old(db.nextBoardId) && db.nextListId == old(db.nextListId)
    ensures db.nextCardId == old(db.nextCardId) && db.nextHistoryId == old(db.nextHistoryId)
  {
    var card := FindByKey(db.cards, CardKey, cardId);
    if card.None? {
      deleted := false;
      return;
    }
    db.RemoveCard(cardId);
    deleted := true;
  }
}
