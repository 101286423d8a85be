/** The booking mapper: input form to entity, entity to the output projections. */
module BookingConverter {
  import opened Wrappers
  import opened Domain

  /** The body of a booking request. */
  datatype BookingInput = BookingInput(start: Instant, end: Instant, itemId: nat)

  datatype ItemShort = ItemShort(id: nat, name: string)
  datatype UserShort = UserShort(id: nat, name: string)

  /** What the booking endpoints answer with. */
  datatype BookingOutput = BookingOutput(id: Option<nat>, start: Instant, end: Instant,
                                         item: ItemShort, booker: UserShort, status: Status)

  /** The last/next booking shown on an item. */
  datatype BookingShort = BookingShort(id: Option<nat>, bookerId: nat)

  /** `toOutputDto`: keeps id, times and status; item and booker shrink to id and name. */
  function ToOutputDto(b: Booking): (r: BookingOutput)
    ensures r.id == b.id && r.start == b.start && r.end == b.end && r.status == b.status
    ensures r.item.id == b.item.id && r.item.name == b.item.name
    ensures r.booker.id == b.booker.id && r.booker.name == b.booker.name
  {
    BookingOutput(b.id, b.start, b.end, ItemShort(b.item.id, b.item.name),
                  UserShort(b.booker.id, b.booker.name), b.status)
  }

  /** `fromInputDto`: a new, unsaved booking of `item` by `user`, waiting for a decision. */
  function FromInputDto(input: BookingInput, item: Item, user: User): (r: Booking)
    ensures r.id.None? && r.status == Status.WAITING
    ensures r.start == input.start && r.end == input.end
    ensures r.item == item && r.booker == user
  {
    Booking(None, input.start, input.end, item, user, Status.WAITING)
  }

  /** `toDtoOnlyIdAndBookerId`. */
  function ToDtoOnlyIdAndBookerId(b: Booking): (r: BookingShort)
    ensures r.id == b.id && r.bookerId == b.booker.id
  {
    BookingShort(b.id, b.booker.id)
  }

  /** The two projections agree on what they share. */
  lemma ShortAgreesWithOutput(b: Booking)
    ensures ToDtoOnlyIdAndBookerId(b).id == ToOutputDto(b).id
    ensures ToDtoOnlyIdAndBookerId(b).bookerId == ToOutputDto(b).booker.id
  {
  }

  /** The output of a booking made from a request echoes the request. */
  lemma OutputOfNewBooking(input: BookingInput, item: Item, user: User)
    ensures ToOutputDto(FromInputDto(input, item, user))
         == BookingOutput(None, input.start, input.end, ItemShort(item.id, item.name),
                          UserShort(user.id, user.name), Status.WAITING)
  {
  }

  /** Two bookings with the same output differ at most in what the output leaves out. */
  lemma OutputDeterminesProjectedFields(a: Booking, b: Booking)
    requires ToOutputDto(a) == ToOutputDto(b)
    ensures a.id == b.id && a.start == b.start && a.end == b.end && a.status == b.status
    ensures a.item.id == b.item.id && a.booker.id == b.booker.id
  {
  }
}
