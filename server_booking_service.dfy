/**
 * The booking service of the server application. The bookings table is the
 * state of `BookingService`; the users and items tables are read-only
 * inputs of its operations. `now` is the instant `LocalDateTime.now()`
 * returns.
 */
module ServerBookingService {
  import opened Wrappers
  import opened Domain
  import opened Sequences
  import opened Table
  import opened BookingQueries
  import opened BookingConverter
  import opened ServerBookingRepository

  /**
   * The checks of `create`, in the order they are made: the user, the item,
   * that the booker does not own the item, that the item is available. There
   * is no check on the time window. On success, the booking to save.
   */
  function CreateCheck(users: map<nat, User>, items: map<nat, Item>, userId: nat, input: BookingInput)
    : (r: Result<Booking, Error>)
    ensures r.Success? <==> userId in users && input.itemId in items
                            && items[input.itemId].owner != userId && items[input.itemId].available
    ensures userId !in users ==> r == Failure(NotFound(UserEntity))
    ensures userId in users && input.itemId !in items ==> r == Failure(NotFound(ItemEntity))
    ensures userId in users && input.itemId in items && items[input.itemId].owner == userId
            ==> r == Failure(Access)
    ensures (userId in users && input.itemId in items && items[input.itemId].owner != userId
             && !items[input.itemId].available) ==> r == Failure(Availability)
    ensures r.Success? ==> r.value.id.None? && r.value.status == Status.WAITING
                           && r.value.start == input.start && r.value.end == input.end
                           && r.value.item == items[input.itemId] && r.value.booker == users[userId]
  {
    if userId !in users then Failure(NotFound(UserEntity))
    else if input.itemId !in items then Failure(NotFound(ItemEntity))
    else
      var booking := FromInputDto(input, items[input.itemId], users[userId]);
      if booking.item.owner == userId then Failure(Access)
      else if !items[input.itemId].available then Failure(Availability)
      else Success(booking.(status := Status.WAITING))
  }

  /** The status an owner's decision sets. */
  function Target(approved: bool): (s: Status)
    ensures s == Status.APPROVED <==> approved
    ensures s == Status.REJECTED <==> !approved
  {
    if approved then Status.APPROVED else Status.REJECTED
  }

  /**
   * The checks of `updateStatus`, in order: the booking, the user, that the
   * user owns the booked item, that the status changes. On success, the
   * booking with its new status.
   */
  function Decide(bookings: map<nat, Booking>, users: map<nat, User>, sharerId: nat, id: nat, approved: bool)
    : (r: Result<Booking, Error>)
    ensures r.Success? <==> id in bookings && sharerId in users && bookings[id].item.owner == sharerId
                            && bookings[id].status != Target(approved)
    ensures id !in bookings ==> r == Failure(NotFound(BookingEntity))
    ensures id in bookings && sharerId !in users ==> r == Failure(NotFound(UserEntity))
    ensures id in bookings && sharerId in users && bookings[id].item.owner != sharerId ==> r == Failure(Access)
    ensures (id in bookings && sharerId in users && bookings[id].item.owner == sharerId
             && bookings[id].status == Target(approved)) ==> r == Failure(SameStatus)
    ensures r.Success? ==> r.value == bookings[id].(status := Target(approved))
  {
    if id !in bookings then Failure(NotFound(BookingEntity))
    else if sharerId !in users then Failure(NotFound(UserEntity))
    else if bookings[id].item.owner != sharerId then Failure(Access)
    else
      var status := Target(approved);
      if bookings[id].status == status then Failure(SameStatus)
      else Success(bookings[id].(status := status))
  }

  /**
   * `getById`: the booking, the user, and then only the booker or the owner
   * of the booked item may see the booking.
   */
  function GetById(bookings: map<nat, Booking>, users: map<nat, User>, userId: nat, id: nat)
    : (r: Result<BookingOutput, Error>)
    ensures r.Success? <==> id in bookings && userId in users
                            && (bookings[id].booker.id == userId || bookings[id].item.owner == userId)
    ensures id !in bookings ==> r == Failure(NotFound(BookingEntity))
    ensures id in bookings && userId !in users ==> r == Failure(NotFound(UserEntity))
    ensures r.Failure? && id in bookings && userId in users ==> r.error == Access
    ensures r.Success? ==> r.value == ToOutputDto(bookings[id])
  {
    if id !in bookings then Failure(NotFound(BookingEntity))
    else if userId !in users then Failure(NotFound(UserEntity))
    else if bookings[id].booker.id == userId || bookings[id].item.owner == userId then
      Success(ToOutputDto(bookings[id]))
    else Failure(Access)
  }

  /**
   * `getAllByUser` (who = Booker) and `getAllByOwner` (who = Owner): after
   * the user check and the state switch, one page of the subject's bookings
   * in that state, latest start first.
   */
  function GetAll(bookings: map<nat, Booking>, lastId: nat, users: map<nat, User>, who: Subject,
                  state: State, from: int, size: int, now: Instant)
    : (r: Result<seq<BookingOutput>, Error>)
    requires from >= 0 && size > 0
    ensures r.Success? <==> who.id in users && state != UNSUPPORTED_STATUS
    ensures who.id !in users ==> r == Failure(NotFound(UserEntity))
    ensures who.id in users && state == UNSUPPORTED_STATUS ==> r == Failure(UnknownState)
    ensures r.Success? ==> |r.value| <= size
    ensures r.Success? ==> forall o :: o in r.value ==>
              exists b :: b in Rows(bookings, lastId) && OfSubject(b, who) && InState(state, b, now)
                          && o == ToOutputDto(b)
    ensures r.Success? ==> forall i, j :: 0 <= i < j < |r.value| ==> r.value[i].start >= r.value[j].start
    ensures r.Success? ==>
              QueryFor(state).Some?
              && r.value == Map(FindBookings(Rows(bookings, lastId), who, QueryFor(state).value, now, from, size), ToOutputDto)
  {
    if who.id !in users then Failure(NotFound(UserEntity))
    else match QueryFor(state)
      case None => Failure(UnknownState)
      case Some(q) =>
        assert state != UNSUPPORTED_STATUS;
        var rows := Rows(bookings, lastId);
        var page := FindBookings(rows, who, q, now, from, size);
        ListedOutputs(rows, page, who, state, q, now);
        Success(Map(page, ToOutputDto))
  }

  /** The outputs of a listed page are the outputs of bookings of the subject in the state, in page order. */
  lemma ListedOutputs(rows: seq<Booking>, page: seq<Booking>, who: Subject, state: State, q: Query, now: Instant)
    requires QueryFor(state) == Some(q)
    requires forall i :: 0 <= i < |page| ==> page[i] in rows && OfSubject(page[i], who) && Selects(q, page[i], now)
    requires forall i, j :: 0 <= i < j < |page| ==> page[i].start >= page[j].start
    ensures forall o :: o in Map(page, ToOutputDto) ==>
              exists b :: b in rows && OfSubject(b, who) && InState(state, b, now) && o == ToOutputDto(b)
    ensures forall i, j :: 0 <= i < j < |page| ==> Map(page, ToOutputDto)[i].start >= Map(page, ToOutputDto)[j].start
  {
    var out := Map(page, ToOutputDto);
    forall o | o in out
      ensures exists b :: b in rows && OfSubject(b, who) && InState(state, b, now) && o == ToOutputDto(b)
    {
      var i :| 0 <= i < |out| && out[i] == o;
      assert InState(state, page[i], now);
    }
  }

  /** The bookings table and its identity counter (the id of the last row saved). */
  class BookingService {
    var bookings: map<nat, Booking>
    var lastId: nat

    ghost predicate Valid()
      reads this
    {
      Bounded(bookings, lastId + 1) && forall id :: id in bookings ==> bookings[id].id == Some(id)
    }

    constructor()
      ensures Valid() && bookings == map[] && lastId == 0
    {
      bookings := map[];
      lastId := 0;
    }

    /** `create`: a checked booking is saved under the next id and listed after every earlier row. */
    method Create(users: map<nat, User>, items: map<nat, Item>, userId: nat, input: BookingInput)
      returns (r: Result<BookingOutput, Error>)
      requires Valid()
      modifies this
      ensures Valid()
      ensures CreateCheck(users, items, userId, input).Failure? ==>
                unchanged(this) && r == Failure(CreateCheck(users, items, userId, input).error)
      ensures CreateCheck(users, items, userId, input).Success? ==>
                var b := CreateCheck(users, items, userId, input).value.(id := Some(lastId));
                lastId == old(lastId) + 1 && bookings == old(bookings)[lastId := b]
                && r == Success(ToOutputDto(b))
                && Rows(bookings, lastId) == old(Rows(bookings, lastId)) + [b]
    {
      var checked := CreateCheck(users, items, userId, input);
      if checked.Failure? {
        return Failure(checked.error);
      }
      var b := checked.value.(id := Some(lastId + 1));
      RowsAppend(bookings, lastId, b);
      bookings := bookings[lastId + 1 := b];
      lastId := lastId + 1;
      r := Success(ToOutputDto(b));
    }

    /** `updateStatus`: the owner's decision replaces the booking's status and nothing else. */
    method UpdateStatus(users: map<nat, User>, sharerId: nat, id: nat, approved: bool)
      returns (r: Result<BookingOutput, Error>)
      requires Valid()
      modifies this
      ensures Valid()
      ensures Decide(old(bookings), users, sharerId, id, approved).Failure? ==>
                unchanged(this) && r == Failure(Decide(old(bookings), users, sharerId, id, approved).error)
      ensures Decide(old(bookings), users, sharerId, id, approved).Success? ==>
                var b := Decide(old(bookings), users, sharerId, id, approved).value;
                lastId == old(lastId) && bookings == old(bookings)[id := b] && r == Success(ToOutputDto(b))
    {
      var decided := Decide(bookings, users, sharerId, id, approved);
      if decided.Failure? {
        return Failure(decided.error);
      }
      bookings := bookings[id := decided.value];
      r := Success(ToOutputDto(decided.value));
    }
  }

  /** The time window plays no part in `create`: a booking that ends before it starts is accepted. */
  lemma CreateIgnoresWindow(users: map<nat, User>, items: map<nat, Item>, userId: nat, input: BookingInput,
                            start: Instant, end: Instant)
    ensures CreateCheck(users, items, userId, input.(start := start, end := end)).Success?
        <==> CreateCheck(users, items, userId, input).Success?
  {
  }

  /** Repeating an accepted decision fails with "Same status" and leaves the table as it is. */
  lemma {:induction false} DecideTwiceFails(bookings: map<nat, Booking>, users: map<nat, User>, sharerId: nat,
                                            id: nat, approved: bool)
    requires Decide(bookings, users, sharerId, id, approved).Success?
    ensures Decide(bookings[id := Decide(bookings, users, sharerId, id, approved).value],
                   users, sharerId, id, approved) == Failure(SameStatus)
  {
  }

  /** The owner may reverse a decision: approving and then rejecting leaves the booking REJECTED. */
  lemma ApproveThenReject(bookings: map<nat, Booking>, users: map<nat, User>, sharerId: nat, id: nat)
    requires Decide(bookings, users, sharerId, id, true).Success?
    ensures var b := Decide(bookings, users, sharerId, id, true).value;
            Decide(bookings[id := b], users, sharerId, id, false) == Success(b.(status := Status.REJECTED))
  {
  }

  /** After an accepted decision the owner reads the booking back with the new status. */
  lemma DecisionIsVisible(bookings: map<nat, Booking>, users: map<nat, User>, sharerId: nat, id: nat,
                          approved: bool)
    requires Decide(bookings, users, sharerId, id, approved).Success?
    ensures var b := Decide(bookings, users, sharerId, id, approved).value;
            GetById(bookings[id := b], users, sharerId, id).Success?
            && GetById(bookings[id := b], users, sharerId, id).value.status == Target(approved)
  {
  }
}
