/**
 * The persisted records of the board application (one datatype per entity class) and the
 * outcome of a store operation. Navigation properties are not fields: they are recovered
 * from the foreign keys by the queries that load them.
 */
module Models {
  import opened Rows

  /** A point in time, as the store records `DateTime.UtcNow`. */
  type Time = int

  datatype User = User(id: int, username: string, email: string, passwordHash: string)

  datatype Board = Board(id: int, name: string, description: Option<string>, userId: int)

  datatype List = List(id: int, name: string, boardId: int)

  datatype Card = Card(
    id: int,
    title: string,
    description: Option<string>,
    listId: int,
    createdAt: Time,
    dueDate: Option<Time>,
    completedAt: Option<Time>)

  datatype CardHistory = CardHistory(id: int, cardId: int, fromListId: int, toListId: int, movedAt: Time, userId: int)

  /** The list name that the card services treat as the completion list. */
  const DoneName: string := "Done"

  /** Primary keys, one per table. */
  function UserKey(u: User): int { u.id }
  function BoardKey(b: Board): int { b.id }
  function ListKey(l: List): int { l.id }
  function CardKey(c: Card): int { c.id }
  function HistoryKey(h: CardHistory): int { h.id }

  /**
   * The result of a service call: its value, the `null` the service returns when a looked-up
   * row is missing, or the exception `SaveChangesAsync` raises when the pending rows would
   * violate a foreign key (the store is then left as it was).
   */
  datatype Outcome<+T> = Ok(value: T) | NotFound | Rejected
}
