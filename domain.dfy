/**
 * The entities of the sharing service as values, and the exceptions its
 * services throw.
 */
module Domain {
  import opened Wrappers

  /** Instants (`LocalDateTime`) are modelled as integers on one time line. */
  type Instant = int

  /** The status stored on a booking. `CANCELED` exists but no operation sets it. */
  datatype Status = WAITING | APPROVED | REJECTED | CANCELED

  /** The state keyword a booking list is asked for (qualify WAITING and REJECTED: `State.WAITING`). */
  datatype State = ALL | CURRENT | PAST | FUTURE | WAITING | REJECTED | UNSUPPORTED_STATUS

  datatype User = User(id: nat, name: string, email: string)

  /** An item; `owner` is the owner's user id, `request` the id of the request it answers. */
  datatype Item = Item(id: nat, name: string, description: string, available: bool,
                       owner: nat, request: Option<nat>)

  /**
   * A booking. `id` is None until the store assigns one. The booked item and
   * the booker are held as the values they had when the booking was made.
   */
  datatype Booking = Booking(id: Option<nat>, start: Instant, end: Instant,
                             item: Item, booker: User, status: Status)

  datatype Comment = Comment(text: string, item: nat, author: nat, created: Instant)

  datatype ItemRequest = ItemRequest(id: nat, description: string, requestor: User, created: Instant)

  /** Which lookup a NotFoundException reports. */
  datatype Entity = UserEntity | ItemEntity | BookingEntity | RequestEntity | ItemOfUser

  /**
   * The exceptions of the services. The error handler answers 404 for
   * NotFound and Access, 400 for Availability, Time, SameStatus,
   * UnknownState and CommentAccess, and 500 for Server and NullReference.
   */
  datatype Error =
    | NotFound(entity: Entity)   // NotFoundException
    | Access                     // AccessException
    | Availability               // AvailabilityException
    | Time                       // TimeException
    | SameStatus                 // IllegalArgumentException("Same status")
    | UnknownState               // UnknownStateException
    | CommentAccess              // CommentAccessException
    | Server                     // ServerException (duplicate e-mail)
    | NullReference              // an unchecked NullPointerException
    | EmptyResult                // EmptyResultDataAccessException (deleteById of an absent id)
}
