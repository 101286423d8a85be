/**
 * The booking repository of the earlier application: unpaged sorted lists,
 * the strict comment-eligibility query, and the native last/next queries.
 * `rows` is the bookings table in id order.
 */
module SrcBookingRepository {
  import opened Wrappers
  import opened Domain
  import opened Sequences
  import opened BookingQueries

  /** A derived list query with a `Sort` argument: every matching row, ORDER BY start DESC. */
  function FindBookings(rows: seq<Booking>, who: Subject, q: Query, t: Instant): (r: seq<Booking>)
    ensures multiset(r) == multiset(Filter(rows, (b: Booking) => OfSubject(b, who) && Selects(q, b, t)))
    ensures forall b :: b in r <==> b in rows && OfSubject(b, who) && Selects(q, b, t)
    ensures forall i, j :: 0 <= i < j < |r| ==> r[i].start >= r[j].start
  {
    Matching(rows, who, q, t)
  }

  /** `findBookingsByBooker_IdAndItem_IdAndEndIsBefore`: the user's bookings of the item that ended strictly before `t`. */
  function FindFinishedBookings(rows: seq<Booking>, bookerId: nat, itemId: nat, t: Instant)
    : (r: seq<Booking>)
    ensures forall b :: b in r <==> b in rows && b.booker.id == bookerId && b.item.id == itemId && b.end < t
  {
    Filter(rows, (b: Booking) => b.booker.id == bookerId && b.item.id == itemId && b.end < t)
  }

  /**
   * `findLastBooking`: `START_DATE < now() ORDER BY END_DATE DESC LIMIT 1`
   * over the item's bookings of any status: the started one that ends last.
   */
  function FindLastBooking(rows: seq<Booking>, itemId: nat, now: Instant): (r: Option<Booking>)
    ensures r.None? <==> forall b :: b in rows && b.item.id == itemId ==> b.start >= now
    ensures r.Some? ==> r.value in rows && r.value.item.id == itemId && r.value.start < now
    ensures r.Some? ==> forall b :: b in rows && b.item.id == itemId && b.start < now ==> b.end <= r.value.end
  {
    var sel := Filter(rows, (b: Booking) => b.item.id == itemId && b.start < now);
    var key := (b: Booking) => b.end;
    FirstOfSortByDescIsGreatest(sel, key);
    FirstOf(SortByDesc(sel, key))
  }

  /**
   * `findNextBooking`: `START_DATE > now() ORDER BY START_DATE DESC LIMIT 1`:
   * of the item's upcoming bookings, the one that starts LAST.
   */
  function FindNextBooking(rows: seq<Booking>, itemId: nat, now: Instant): (r: Option<Booking>)
    ensures r.None? <==> forall b :: b in rows && b.item.id == itemId ==> b.start <= now
    ensures r.Some? ==> r.value in rows && r.value.item.id == itemId && r.value.start > now
    ensures r.Some? ==> forall b :: b in rows && b.item.id == itemId && b.start > now ==> b.start <= r.value.start
  {
    var sel := Filter(rows, (b: Booking) => b.item.id == itemId && b.start > now);
    var key := (b: Booking) => b.start;
    FirstOfSortByDescIsGreatest(sel, key);
    FirstOf(SortByDesc(sel, key))
  }
}
