/**
 * What the derived booking queries select, shared by both booking
 * repositories: whose bookings (by booker id or by the item owner's id),
 * and which of them for each state of a booking list.
 */
module BookingQueries {
  import opened Wrappers
  import opened Domain
  import opened Sequences

  /** `findBookingsByBooker_Id...` or `findBookingsByItem_Owner_Id...`. */
  datatype Subject = Booker(id: nat) | Owner(id: nat)

  predicate OfSubject(b: Booking, who: Subject) {
    match who
    case Booker(id) => b.booker.id == id
    case Owner(id) => b.item.owner == id
  }

  /** The condition after `And` in a derived query name; `Everything` when there is none. */
  datatype Query = Everything | StartBeforeEndAfter | EndBefore | StartAfter | WithStatus(status: Status)

  /** `StartBefore(t)AndEndAfter(t)`, `EndBefore(t)`, `StartAfter(t)` are strict; `Status` is equality. */
  predicate Selects(q: Query, b: Booking, t: Instant) {
    match q
    case Everything => true
    case StartBeforeEndAfter => b.start < t && b.end > t
    case EndBefore => b.end < t
    case StartAfter => b.start > t
    case WithStatus(s) => b.status == s
  }

  /** The `switch (state)` of the booking services; None is the `default` branch. */
  function QueryFor(state: State): Option<Query> {
    match state
    case ALL => Some(Everything)
    case CURRENT => Some(StartBeforeEndAfter)
    case PAST => Some(EndBefore)
    case FUTURE => Some(StartAfter)
    case WAITING => Some(WithStatus(Status.WAITING))
    case REJECTED => Some(WithStatus(Status.REJECTED))
    case UNSUPPORTED_STATUS => None
  }

  /** Whether a booking belongs in the list for `state` at instant `t`. */
  predicate InState(state: State, b: Booking, t: Instant) {
    QueryFor(state).Some? && Selects(QueryFor(state).value, b, t)
  }

  /** What each state keyword selects. */
  lemma StateSemantics(b: Booking, t: Instant)
    ensures QueryFor(UNSUPPORTED_STATUS).None?
    ensures forall s: State :: s != UNSUPPORTED_STATUS ==> QueryFor(s).Some?
    ensures InState(ALL, b, t)
    ensures InState(CURRENT, b, t) <==> b.start < t && t < b.end
    ensures InState(PAST, b, t) <==> b.end < t
    ensures InState(FUTURE, b, t) <==> b.start > t
    ensures InState(State.WAITING, b, t) <==> b.status == Status.WAITING
    ensures InState(State.REJECTED, b, t) <==> b.status == Status.REJECTED
  {
  }

  /**
   * For a booking that does not end before it starts, CURRENT, PAST and
   * FUTURE are pairwise disjoint, a booking that starts or ends exactly at
   * `t` is in none of them, and any other booking is in exactly one.
   */
  lemma TimeStatesPartition(b: Booking, t: Instant)
    requires b.start <= b.end
    ensures !(InState(CURRENT, b, t) && InState(PAST, b, t))
    ensures !(InState(CURRENT, b, t) && InState(FUTURE, b, t))
    ensures !(InState(PAST, b, t) && InState(FUTURE, b, t))
    ensures b.start == t || b.end == t ==>
      !InState(CURRENT, b, t) && !InState(PAST, b, t) && !InState(FUTURE, b, t)
    ensures b.start != t && b.end != t ==>
      InState(CURRENT, b, t) || InState(PAST, b, t) || InState(FUTURE, b, t)
  {
  }

  /** Without an ordering check, a booking that ends before it starts can be both PAST and FUTURE. */
  lemma PastAndFutureOverlapForReversedBooking(b: Booking, t: Instant)
    requires b.end < t < b.start
    ensures InState(PAST, b, t) && InState(FUTURE, b, t)
  {
  }

  /** The rows of subject `who` selected by `q` at `t`, ORDER BY start DESC. */
  function Matching(rows: seq<Booking>, who: Subject, q: Query, t: Instant): (r: seq<Booking>)
    ensures multiset(r) == multiset(Filter(rows, b => OfSubject(b, who) && Selects(q, b, t)))
    ensures forall i, j :: 0 <= i < j < |r| ==> r[i].start >= r[j].start
    ensures forall b :: b in r <==> b in rows && OfSubject(b, who) && Selects(q, b, t)
  {
    var sel := Filter(rows, b => OfSubject(b, who) && Selects(q, b, t));
    var r := SortByDesc(sel, (b: Booking) => b.start);
    assert forall b :: b in r <==> b in multiset(r);
    assert forall b :: b in sel <==> b in multiset(sel);
    r
  }
}
