# TrelloClone card lifecycle and board store — a Dafny model

This project models the server core of TrelloClone, a Trello-style board application:

- the card lifecycle of `CardService`: lookup, creation, field updates with the completion rule,
  moves between lists with a history record and the completion rule, deletion, and the
  newest-first movement history;
- the board store logic of `BoardService`: a user's boards, one board with its lists and cards,
  creation seeding the four fixed lists, and deletion by the owner;
- the list endpoints of `ListsController`: the cards of a list, and a card created on a list;
- the relational rules configured in `ApplicationDbContext.OnModelCreating`: the foreign keys,
  the four cascading deletes and the restriction that keeps a user with history rows.

The database is the class `Data.ApplicationDbContext`. It has one sequence-valued field per table,
rows in rowid (insertion) order, and one AUTOINCREMENT counter per table the services insert into.
Each service call is one atomic step ending in `SaveChangesAsync`. A call with two
`SaveChangesAsync` steps is two commits. The current time `DateTime.UtcNow` is the `now`
parameter.

The store invariant `Valid()` says three things:

- primary keys grow with rowid;
- every key lies below its table's counter;
- every foreign key resolves.

Every method keeps this invariant. Each method is specified against pure functions on the tables,
and the properties of those functions are proved as lemmas beside them. Examples are the cascade
functions `RemoveCards`, `RemoveLists`, `RemoveBoards` and `RemoveUser`, and the card rules
`MovedCard` and `UpdatedCard`.

Modelling choices:

- **First "Done" list.** `FirstOrDefault` without ORDER BY is taken as "the first matching row in
  rowid order". This fixes which "Done" list counts when a board has several.
- **Unordered queries.** A `Where` result and an `Include` collection read without ORDER BY are
  taken in rowid order, as a table scan returns them. This concerns `GetUserBoardsAsync`, the
  lists and cards that `GetBoardByIdAsync` loads, and the cards that `GetListCards` returns. SQL
  promises no order there, so every statement below about the order of such a result is about the
  model's rowid order.
- **Ties in the history order.** `OrderByDescending(MovedAt)` becomes an SQL `ORDER BY` with no
  tie-breaker, so the source leaves the order of history rows with equal times open. The model's
  sort is one admissible order. On a table whose ids grow with rowid it puts equal-time rows in
  increasing id order, and `CardService.SortKeepsTieOrder` proves this.
- **Foreign keys.** SQLite enforces foreign keys. A `SaveChangesAsync` whose pending rows would
  leave a dangling key throws and writes nothing. This is the `Rejected` outcome. It concerns a
  card's list in `CreateCardAsync`, a board's owner in `CreateBoardAsync` and a history row's user
  in `MoveCardAsync`.
- **Service results.** A service's `null` is `NotFound`, and its `bool` results are kept as
  `bool`.

Behaviours of the code that a reader might not expect, all modelled as written:

- `MoveCardAsync` does not check that the target list is on the card's board. The completion
  rule then compares the card's former list with the *target* board's "Done" list, so a completed
  card moved off another board's "Done" list keeps its completion time.
  `CardService.CrossBoardMoveKeepsStaleCompletion` exhibits this, and
  `CardService.SameBoardMoveKeepsCompletion` proves the invariant for moves within one board
  that has a single "Done" list. On a board with two "Done" lists a completed card that leaves the
  second one keeps its completion time, because only the first counts as the board's "Done" list.
- **No-op moves.** A move onto the card's own list still appends a history row, and it sets
  `CompletedAt` again when that list is "Done".
- **Name-based "Done".** The completion list is recognised by its name "Done". Lists have no
  role attribute, so the rule depends on the display name of the list.
- **Order of checks.** The card is looked up before the target list. Both failures give the same
  `NotFound`, and neither writes anything.
- **`UpdateCardAsync`.** It applies the completion rule to the list id in the request, not to the
  card's actual list, and it never moves the card. So an update can clear the completion time of a
  card that stays on "Done"; `CardService.UpdateWithOtherListClearsCompletion` exhibits this.

## Model

| member | source | states |
|---|---|---|
| Data.RemoveCards | TrelloClone/Data/ApplicationDbContext.cs:42-46 | deleting cards keeps exactly the other cards and exactly the history rows of the other cards; users, boards and lists are untouched and no row is invented |
| Data.RemoveLists | TrelloClone/Data/ApplicationDbContext.cs:36-40 | deleting lists keeps exactly the other lists, leaves users and boards untouched and invents no row; which cards and history rows go is stated by `Data.RemoveListsExact` |
| Data.RemoveBoards | TrelloClone/Data/ApplicationDbContext.cs:30-34 | deleting boards keeps exactly the other boards, leaves users untouched and invents no row; which lists, cards and history rows go is stated by `Data.RemoveBoardsExact` |
| Data.RemoveUser | TrelloClone/Data/ApplicationDbContext.cs:48-52 | deleting a user is refused exactly when some history row names the user (Restrict); otherwise exactly the other users remain and no row is invented |
| Data.RemoveUserExact | TrelloClone/Data/ApplicationDbContext.cs:24-28 | a permitted user deletion removes exactly the user's boards, the lists of those boards and the cards on those lists |
| Data.RemoveListsExact | TrelloClone/Data/ApplicationDbContext.cs:36-46 | deleting lists removes exactly the cards whose list is deleted and exactly the history rows of those cards |
| Data.RemoveBoardsExact | TrelloClone/Data/ApplicationDbContext.cs:30-46 | deleting boards removes exactly their lists, the cards on those lists and those cards' history rows |
| Data.RemoveCardsWellFormed | TrelloClone/Data/ApplicationDbContext.cs:42-46 | after a card deletion every remaining foreign key still resolves and keys stay unique |
| Data.RemoveListsWellFormed | TrelloClone/Data/ApplicationDbContext.cs:36-46 | after a list deletion every remaining foreign key still resolves, provided the surviving lists' boards exist |
| Data.RemoveBoardsWellFormed | TrelloClone/Data/ApplicationDbContext.cs:30-46 | after a board deletion every remaining foreign key still resolves |
| Data.RemoveUserWellFormed | TrelloClone/Data/ApplicationDbContext.cs:24-52 | after a permitted user deletion every remaining foreign key, including the history rows' user, still resolves |
| Data.ForeignKeysResolve | TrelloClone/Data/ApplicationDbContext.cs:24-52 | under the foreign keys of `Data.ForeignKeysHold` (Board.UserId, List.BoardId, Card.ListId, CardHistory.CardId, CardHistory.UserId), looking up the row each key names always finds it |
| Data.ListsOf | TrelloClone/Data/ApplicationDbContext.cs:30-34 | the navigation collection Board.Lists holds exactly the lists whose BoardId is the board |
| Data.CardsOf | TrelloClone/Data/ApplicationDbContext.cs:36-40 | the navigation collection List.Cards holds exactly the cards whose ListId is the list |
| Data.ApplicationDbContext.Commit | TrelloClone/Services/CardService.cs:71 | one `SaveChangesAsync` writes a consistent set of pending tables as a single step: afterwards the store holds exactly those tables, is valid, and keeps its id sequences |
| Data.ApplicationDbContext.AddCard | TrelloClone/Services/CardService.cs:39-40 | the card is saved with the next card id as the last row and nothing else changes; the insert is refused, leaving the store unchanged, exactly when its list does not exist |
| Data.ApplicationDbContext.RemoveCard | TrelloClone/Services/CardService.cs:136-137 | the new tables are the card cascade of the old ones, and the store stays consistent |
| Data.ApplicationDbContext.RemoveBoard | TrelloClone/Services/BoardService.cs:72-73 | the new tables are the board cascade of the old ones, and the store stays consistent |
| Data.ApplicationDbContext.RemoveUserRow | TrelloClone/Data/ApplicationDbContext.cs:24-52 | a user deletion succeeds exactly when the restriction allows it, then leaves the user cascade of the old tables; when refused nothing changes |
| CardService.DoneListOf | TrelloClone/Services/CardService.cs:110-111 | the completion list of a board is a list of that board named "Done", and there is none exactly when the board has no such list |
| CardService.MovedCard | TrelloClone/Services/CardService.cs:92-121 | a moved card is on the target list with its other fields kept; it gets `now` as completion time when the target is the target board's "Done" list, even if already completed; it loses its completion time when it left that "Done" list for another list; otherwise the completion time is unchanged, including on a board without "Done" |
| CardService.UpdatedCard | TrelloClone/Services/CardService.cs:53-69 | an updated card takes title, description and due date from the request and keeps id, list and creation time; on a board with a "Done" list it gets `now` only when the requested list is "Done" and it was not completed, keeps its time when the requested list is "Done" and it was completed, and loses it whenever the requested list is not "Done"; on a board without one it is unchanged |
| CardService.OnlyDoneList | TrelloClone/Services/CardService.cs:110-111 | on a board with a single "Done" list, a list of the board is named "Done" exactly when it is the board's completion list |
| CardService.SameBoardMoveKeepsCompletion | TrelloClone/Services/CardService.cs:107-121 | a move within one board that has a single "Done" list keeps "completion time set iff on Done" for the moved card |
| CardService.SameBoardMoveKeepsAllCompletion | TrelloClone/Services/CardService.cs:104-121 | the same move keeps the completion invariant for every card of the table |
| CardService.CrossBoardMoveKeepsStaleCompletion | TrelloClone/Services/CardService.cs:110-121 | a completed card moved from board 1's "Done" list to a plain list of board 2 keeps its completion time, breaking the invariant |
| CardService.UpdateWithOwnListKeepsCompletion | TrelloClone/Services/CardService.cs:58-69 | an update whose request names the card's own list keeps the completion invariant on a board with a single "Done" list |
| CardService.UpdateWithOtherListClearsCompletion | TrelloClone/Services/CardService.cs:61-69 | an update naming another list clears the completion time of a card that stays on "Done" |
| CardService.InsertNewestFirst | TrelloClone/Services/CardService.cs:146 | inserting a row into a newest-first sequence gives a newest-first sequence holding exactly the old rows and the new one |
| CardService.SortNewestFirst | TrelloClone/Services/CardService.cs:146 | the sort yields a non-increasing order of movement time and a permutation of its input |
| CardService.InsertKeepsTieOrder | TrelloClone/Services/CardService.cs:146 | inserting a row whose id is below every id present keeps equal-time rows in increasing id order |
| CardService.SortKeepsTieOrder | TrelloClone/Services/CardService.cs:146 | on a history table whose ids grow with rowid, the sort puts equal-time rows in increasing id order, one of the orders the source admits |
| CardService.HistoryOf | TrelloClone/Services/CardService.cs:145 | the rows kept are exactly the history rows of the card |
| CardService.GetCardByIdAsync | TrelloClone/Services/CardService.cs:30-35 | a card is found exactly when its id is in the table, and the result is that table row |
| CardService.GetCardHistoryAsync | TrelloClone/Services/CardService.cs:141-148 | the result holds exactly the card's history rows, as a permutation of them in newest-first order, and is empty for a card without rows, including an unknown card; on a table whose ids grow with rowid, equal-time rows come in increasing id order |
| CardService.CreateCardAsync | TrelloClone/Services/CardService.cs:37-42 | the card is saved with the next card id and nothing else changes; refused with no change exactly when its list does not exist |
| CardService.UpdateCardAsync | TrelloClone/Services/CardService.cs:44-73 | NotFound with no change exactly for an unknown id; otherwise only that card's row is rewritten, to the update rule's card, and the lists, the history and all counters are untouched |
| CardService.MoveCardAsync | TrelloClone/Services/CardService.cs:75-125 | NotFound with no change exactly when the card or the target list is unknown; refused with no change when the user does not exist; otherwise only that card is rewritten, by the move rule, and exactly one history row {next id, card, former list, target list, now, user} is appended, also for a move onto the same list |
| CardService.DeleteCardAsync | TrelloClone/Services/CardService.cs:127-139 | false with no change exactly for an unknown id; otherwise the card and all its history rows are gone, every other card and history row remains, and users, boards and lists are untouched |
| BoardService.GetUserBoardsAsync | TrelloClone/Services/BoardService.cs:27-32 | exactly the boards whose owner is the user; in the model's rowid order, their ids increase |
| BoardService.OwnedBoard | TrelloClone/Services/BoardService.cs:64-65 | a board is found exactly when one has the id and belongs to the user, and it is such a board |
| BoardService.GetBoardByIdAsync | TrelloClone/Services/BoardService.cs:34-40 | nothing unless a board has the id and belongs to the user; otherwise that board, with every one of its lists and, for each, exactly the cards on it |
| BoardService.SeedLists | TrelloClone/Services/BoardService.cs:48-54 | the seeded lists are four, named "Backlog", "Priorized", "Doing" and "Done" in that order, all on the new board, with consecutive ids from the next list id |
| BoardService.SeedDoneList | TrelloClone/Services/BoardService.cs:48-54 | of the four seeded lists only the fourth is named "Done" |
| BoardService.SeededBoardLists | TrelloClone/Services/BoardService.cs:48-57 | a new board's lists are exactly "Backlog", "Priorized", "Doing" and "Done", in this order, all on that board |
| BoardService.SeededBoardDone | TrelloClone/Services/BoardService.cs:48-57 | a new board has exactly one "Done" list, the seeded one, which its cards' completion rule then uses |
| BoardService.CreateBoardAsync | TrelloClone/Services/BoardService.cs:42-60 | the board is saved with the next board id and its four lists with the next four list ids, nothing else changes, and the board has exactly those lists with a single "Done"; refused with no change exactly when its owner does not exist |
| BoardService.DeleteBoardAsync | TrelloClone/Services/BoardService.cs:62-75 | false with no change exactly when no board has the id and the owner; otherwise the board, its lists, their cards and those cards' history rows are gone and every other row remains |
| ListsController.GetListCards | TrelloClone/Controllers/ListsController.cs:24-37 | NotFound exactly for an unknown list id; otherwise exactly the cards on that list; in the model's rowid order, their ids increase |
| ListsController.CardsOfAppend | TrelloClone/Controllers/ListsController.cs:49-52 | a newly saved card comes last in the model's rowid order of its list's cards and changes no other list's cards |
| ListsController.CreateCard | TrelloClone/Controllers/ListsController.cs:39-55 | NotFound with no change exactly for an unknown list id; otherwise the card is placed on that list whatever it named, saved with the next card id as the only change, and is then the last card of the list's card query in the model's rowid order; never refused |

## Left out

- Real-time layer: the SignalR hub, group membership and broadcasts are library behaviour and concurrent delivery.
- Controllers other than ListsController: the authorization and HTTP glue. The owner that BoardsController sets on a new board is the caller's, so `CreateBoardAsync` takes the board with its owner set.
- Authentication: password hashing and tokens use foreign cryptographic libraries.
- Concurrency: requests run one at a time and each service call is one atomic step, so last-writer-wins races are not represented.
- Bootstrap and tools: the client, the seeding tools and logging are file, process and raw SQL I/O.
- Navigation loading: the `Include` of a card's list and of a history row's user is not modelled, and records carry foreign keys only. `UpdateCardAsync` dereferences `existingCard.List!`, but `FindAsync` loads no navigation and no lazy loading is configured. So on a fresh context the source would fail at that point with a null reference before any write; this was not executed. The model assumes the navigation is loaded, i.e. resolves to the card's own list, whose row the store invariant guarantees exists.
- Ids in request bodies: caller-supplied primary keys and navigation collections in request bodies are not modelled. Every inserted row gets the table's next AUTOINCREMENT value.
- Clock reads: `MoveCardAsync` reads `DateTime.UtcNow` twice, for the history row and for the completion time. The model uses the one `now` for both.
- Default creation time: the `CreatedAt` default of a new card is whatever the card passed in carries; it is not taken from `now`.
- Id width: ids are unbounded integers, so 32-bit overflow of the id columns is not modelled.
- Store errors: `SaveChangesAsync` failures other than a foreign-key violation (disk and connection errors) are not modelled.
- Deleting a list: no core operation deletes a list directly. List deletion appears only inside the board and user cascades (`Data.RemoveLists`).
- Deleting a user: `Data.ApplicationDbContext.RemoveUserRow` models the store's behaviour, but no core service deletes users.
- Query order: results of queries without ORDER BY (`GetUserBoardsAsync`, `GetListCards`, the collections `GetBoardByIdAsync` loads) are returned in rowid order only. The other orders SQL allows are not captured.
- History tie order: SQL `ORDER BY MovedAt DESC` may return equal-time history rows in any order. The model returns one of those orders, so it does not capture the others.
