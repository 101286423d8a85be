/**
 * The booking service of the earlier application. It makes the same checks
 * as the server's service, adds a time-window check in front of `create`,
 * and lists bookings unpaged.
 */
module SrcBookingService {
  import opened Wrappers
  import opened Domain
  import opened Sequences
  import opened Table
  import opened BookingQueries
  import opened BookingConverter
  import opened SrcBookingRepository
  import Server = ServerBookingService

  /**
   * The checks of `create`: first that the booking does not end before it
   * starts (an empty window passes), then the server's chain of checks.
   */
  function CreateCheck(users: map<nat, User>, items: map<nat, Item>, userId: nat, input: BookingInput)
    : (r: Result<Booking, Error>)
    ensures input.end < input.start ==> r == Failure(Time)
    ensures input.end >= input.start ==> r == Server.CreateCheck(users, items, userId, input)
    ensures r.Success? <==> input.start <= input.end && userId in users && input.itemId in items
                            && items[input.itemId].owner != userId && items[input.itemId].available
  {
    if input.end < input.start then Failure(Time)
    else Server.CreateCheck(users, items, userId, input)
  }

  /**
   * `getAllByUser` (who = Booker) and `getAllByOwner` (who = Owner): after
   * the user check and the state switch, every booking of the subject in
   * that state, latest start first.
   */
  function GetAll(bookings: map<nat, Booking>, lastId: nat, users: map<nat, User>, who: Subject,
                  state: State, now: Instant)
    : (r: Result<seq<BookingOutput>, Error>)
    ensures r.Success? <==> who.id in users && state != UNSUPPORTED_STATUS
    ensures who.id !in users ==> r == Failure(NotFound(UserEntity))
    ensures who.id in users && state == UNSUPPORTED_STATUS ==> r == Failure(UnknownState)
    ensures r.Success? ==> forall b :: b in Rows(bookings, lastId) && OfSubject(b, who) && InState(state, b, now)
                                      ==> ToOutputDto(b) in r.value
    ensures r.Success? ==> forall o :: o in r.value ==>
              exists b :: b in Rows(bookings, lastId) && OfSubject(b, who) && InState(state, b, now)
                          && o == ToOutputDto(b)
    ensures r.Success? ==> forall i, j :: 0 <= i < j < |r.value| ==> r.value[i].start >= r.value[j].start
    ensures r.Success? ==> exists found: seq<Booking> ::
              multiset(found) == multiset(Filter(Rows(bookings, lastId), (b: Booking) => OfSubject(b, who) && InState(state, b, now)))
              && r.value == Map(found, ToOutputDto)
  {
    if who.id !in users then Failure(NotFound(UserEntity))
    else match QueryFor(state)
      case None => Failure(UnknownState)
      case Some(q) =>
        assert state != UNSUPPORTED_STATUS;
        var rows := Rows(bookings, lastId);
        var found := FindBookings(rows, who, q, now);
        OutputsOfMatches(rows, found, who, state, q, now);
        FilterAgrees(rows, (b: Booking) => OfSubject(b, who) && Selects(q, b, now),
                     (b: Booking) => OfSubject(b, who) && InState(state, b, now));
        Success(Map(found, ToOutputDto))
  }

  /** The outputs of a sorted list of every matching booking are the outputs of exactly the bookings in the state. */
  lemma OutputsOfMatches(rows: seq<Booking>, found: seq<Booking>, who: Subject, state: State, q: Query, now: Instant)
    requires QueryFor(state) == Some(q)
    requires forall b :: b in found <==> b in rows && OfSubject(b, who) && Selects(q, b, now)
    requires forall i, j :: 0 <= i < j < |found| ==> found[i].start >= found[j].start
    ensures forall b :: b in rows && OfSubject(b, who) && InState(state, b, now) ==> ToOutputDto(b) in Map(found, ToOutputDto)
    ensures forall o :: o in Map(found, ToOutputDto) ==>
              exists b :: b in rows && OfSubject(b, who) && InState(state, b, now) && o == ToOutputDto(b)
    ensures forall i, j :: 0 <= i < j < |found| ==> Map(found, ToOutputDto)[i].start >= Map(found, ToOutputDto)[j].start
  {
    assert forall i :: 0 <= i < |found| ==> found[i] in found;
    Server.ListedOutputs(rows, found, who, state, q, now);
    EveryMatchListed(rows, found, who, state, q, now);
  }

  /** When a list holds every matching booking, its outputs hold the output of every booking in the state. */
  lemma EveryMatchListed(rows: seq<Booking>, found: seq<Booking>, who: Subject, state: State, q: Query, now: Instant)
    requires QueryFor(state) == Some(q)
    requires forall b :: b in found <==> b in rows && OfSubject(b, who) && Selects(q, b, now)
    ensures forall b :: b in rows && OfSubject(b, who) && InState(state, b, now) ==> ToOutputDto(b) in Map(found, ToOutputDto)
  {
    forall b | b in rows && OfSubject(b, who) && InState(state, b, now)
      ensures ToOutputDto(b) in Map(found, ToOutputDto)
    {
      var i :| 0 <= i < |found| && found[i] == b;
      assert Map(found, ToOutputDto)[i] == ToOutputDto(b);
    }
  }

  /** The bookings table and its identity counter (the id of the last row saved). */
  class BookingService {
    var bookings: map<nat, Booking>
    var lastId: nat

    ghost predicate Valid()
      reads this
    {
      Bounded(bookings, lastId + 1) && forall id :: id in bookings ==> bookings[id].id == Some(id)
    }

    constructor()
      ensures Valid() && bookings == map[] && lastId == 0
    {
      bookings := map[];
      lastId := 0;
    }

    /** `create`: a checked booking is saved under the next id and listed after every earlier row. */
    method Create(users: map<nat, User>, items: map<nat, Item>, userId: nat, input: BookingInput)
      returns (r: Result<BookingOutput, Error>)
      requires Valid()
      modifies this
      ensures Valid()
      ensures CreateCheck(users, items, userId, input).Failure? ==>
                unchanged(this) && r == Failure(CreateCheck(users, items, userId, input).error)
      ensures CreateCheck(users, items, userId, input).Success? ==>
                var b := CreateCheck(users, items, userId, input).value.(id := Some(lastId));
                lastId == old(lastId) + 1 && bookings == old(bookings)[lastId := b]
                && r == Success(ToOutputDto(b))
                && Rows(bookings, lastId) == old(Rows(bookings, lastId)) + [b]
    {
      var checked := CreateCheck(users, items, userId, input);
      if checked.Failure? {
        return Failure(checked.error);
      }
      var b := checked.value.(id := Some(lastId + 1));
      RowsAppend(bookings, lastId, b);
      bookings := bookings[lastId + 1 := b];
      lastId := lastId + 1;
      r := Success(ToOutputDto(b));
    }

    /** `updateStatusOfBooking`: the owner's decision replaces the booking's status, which is saved. */
    method UpdateStatusOfBooking(users: map<nat, User>, sharerId: nat, id: nat, approved: bool)
      returns (r: Result<BookingOutput, Error>)
      requires Valid()
      modifies this
      ensures Valid()
      ensures Server.Decide(old(bookings), users, sharerId, id, approved).Failure? ==>
                unchanged(this) && r == Failure(Server.Decide(old(bookings), users, sharerId, id, approved).error)
      ensures Server.Decide(old(bookings), users, sharerId, id, approved).Success? ==>
                var b := Server.Decide(old(bookings), users, sharerId, id, approved).value;
                lastId == old(lastId) && bookings == old(bookings)[id := b] && r == Success(ToOutputDto(b))
    {
      var decided := Server.Decide(bookings, users, sharerId, id, approved);
      if decided.Failure? {
        return Failure(decided.error);
      }
      bookings := bookings[id := decided.value];
      r := Success(ToOutputDto(decided.value));
    }
  }

  /** A created booking shows up in its booker's ALL list. */
  lemma {:induction false} CreatedIsListed(bookings: map<nat, Booking>, lastId: nat, users: map<nat, User>,
                                           b: Booking, now: Instant)
    requires Bounded(bookings, lastId + 1) && b.booker.id in users
    ensures GetAll(bookings[lastId + 1 := b], lastId + 1, users, Booker(b.booker.id), ALL, now).Success?
    ensures ToOutputDto(b) in GetAll(bookings[lastId + 1 := b], lastId + 1, users, Booker(b.booker.id), ALL, now).value
  {
    RowsAppend(bookings, lastId, b);
    assert b in Rows(bookings[lastId + 1 := b], lastId + 1);
  }
}
