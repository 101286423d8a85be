/**
 * The booking repository of the server application: paged lists, the
 * comment-eligibility query, and the single-item and bulk last/next queries.
 * `rows` is the bookings table in id order.
 */
module ServerBookingRepository {
  import opened Wrappers
  import opened Domain
  import opened Sequences
  import opened BookingQueries

  /** A paged derived list query: page `from / size` of the matching rows, ORDER BY start DESC. */
  function FindBookings(rows: seq<Booking>, who: Subject, q: Query, t: Instant, from: int, size: int)
    : (r: seq<Booking>)
    requires from >= 0 && size > 0
    ensures |r| <= size
    ensures forall i :: 0 <= i < |r| ==> r[i] in rows && OfSubject(r[i], who) && Selects(q, r[i], t)
    ensures forall i, j :: 0 <= i < j < |r| ==> r[i].start >= r[j].start
    ensures r == Page(Matching(rows, who, q, t), from, size)
  {
    var m := Matching(rows, who, q, t);
    var r := Page(m, from, size);
    PageKeepsOrder(m, from, size, (a: Booking, b: Booking) => a.start >= b.start);
    r
  }

  /** `findBookingsByBooker_IdAndItem_IdAndEndIsLessThanEqual`: the user's finished bookings of the item. */
  function FindFinishedBookings(rows: seq<Booking>, bookerId: nat, itemId: nat, t: Instant)
    : (r: seq<Booking>)
    ensures forall b :: b in r <==> b in rows && b.booker.id == bookerId && b.item.id == itemId && b.end <= t
  {
    Filter(rows, (b: Booking) => b.booker.id == bookerId && b.item.id == itemId && b.end <= t)
  }

  /**
   * `findFirstByItem_IdAndStartIsLessThanEqualOrderByEndAsc`: of the item's
   * bookings that started by `t`, in any status, one with the EARLIEST end.
   */
  function FindFirstStartedByEarliestEnd(rows: seq<Booking>, itemId: nat, t: Instant)
    : (r: Option<Booking>)
    ensures r.None? <==> forall b :: b in rows && b.item.id == itemId ==> b.start > t
    ensures r.Some? ==> r.value in rows && r.value.item.id == itemId && r.value.start <= t
    ensures r.Some? ==> forall b :: b in rows && b.item.id == itemId && b.start <= t ==> r.value.end <= b.end
  {
    var sel := Filter(rows, (b: Booking) => b.item.id == itemId && b.start <= t);
    var key := (b: Booking) => b.end;
    FirstOfSortByIsLeast(sel, key);
    FirstOf(SortBy(sel, key))
  }

  /**
   * `findFirstByItem_IdAndStartAfterOrderByEndAsc`: of the item's bookings
   * starting after `t`, in any status, one with the earliest end.
   */
  function FindFirstUpcomingByEarliestEnd(rows: seq<Booking>, itemId: nat, t: Instant)
    : (r: Option<Booking>)
    ensures r.None? <==> forall b :: b in rows && b.item.id == itemId ==> b.start <= t
    ensures r.Some? ==> r.value in rows && r.value.item.id == itemId && r.value.start > t
    ensures r.Some? ==> forall b :: b in rows && b.item.id == itemId && b.start > t ==> r.value.end <= b.end
  {
    var sel := Filter(rows, (b: Booking) => b.item.id == itemId && b.start > t);
    var key := (b: Booking) => b.end;
    FirstOfSortByIsLeast(sel, key);
    FirstOf(SortBy(sel, key))
  }

  /**
   * The bulk "last" query: the APPROVED bookings of the given items that
   * started by `t`, ORDER BY end DESC.
   */
  function FindBulkLast(rows: seq<Booking>, itemIds: set<nat>, t: Instant): (r: seq<Booking>)
    ensures forall b :: b in r <==> b in rows && b.item.id in itemIds && b.status == APPROVED && b.start <= t
    ensures forall i, j :: 0 <= i < j < |r| ==> r[i].end >= r[j].end
  {
    var sel := Filter(rows, (b: Booking) => b.item.id in itemIds && b.status == APPROVED && b.start <= t);
    var r := SortByDesc(sel, (b: Booking) => b.end);
    assert forall b :: b in r <==> b in multiset(r);
    assert forall b :: b in sel <==> b in multiset(sel);
    r
  }

  /**
   * The bulk "next" query: the APPROVED bookings of the given items that
   * start after `t`, ORDER BY end ASC.
   */
  function FindBulkNext(rows: seq<Booking>, itemIds: set<nat>, t: Instant): (r: seq<Booking>)
    ensures forall b :: b in r <==> b in rows && b.item.id in itemIds && b.status == APPROVED && b.start > t
    ensures forall i, j :: 0 <= i < j < |r| ==> r[i].end <= r[j].end
  {
    var sel := Filter(rows, (b: Booking) => b.item.id in itemIds && b.status == APPROVED && b.start > t);
    var r := SortBy(sel, (b: Booking) => b.end);
    assert forall b :: b in r <==> b in multiset(r);
    assert forall b :: b in sel <==> b in multiset(sel);
    r
  }

  /**
   * The single-item and the bulk "last booking" queries can name different
   * bookings: of two approved bookings that have both started, the single
   * query takes the one that ends first and the bulk query the one that ends last.
   */
  lemma SingleAndBulkLastDiffer(item: Item, booker: User, t: Instant)
    ensures var a := Booking(Some(1), t - 10, t - 5, item, booker, APPROVED);
            var b := Booking(Some(2), t - 8, t + 5, item, booker, APPROVED);
            FindFirstStartedByEarliestEnd([a, b], item.id, t) == Some(a)
            && |FindBulkLast([a, b], {item.id}, t)| > 0 && FindBulkLast([a, b], {item.id}, t)[0] == b
  {
    var a := Booking(Some(1), t - 10, t - 5, item, booker, APPROVED);
    var b := Booking(Some(2), t - 8, t + 5, item, booker, APPROVED);
    var bulk := FindBulkLast([a, b], {item.id}, t);
    assert a in bulk && b in bulk;
    assert bulk[0] in [a, b];
  }
}
