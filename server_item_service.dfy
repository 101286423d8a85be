/**
 * The item service of the server application. The items table and the
 * comments table are the state of `ItemService`; the users, requests and
 * bookings tables are read-only inputs. `now` is `LocalDateTime.now()`.
 */
module ServerItemService {
  import opened Wrappers
  import opened Domain
  import opened Sequences
  import opened Table
  import opened BookingConverter
  import opened ServerBookingRepository
  import opened SrcItemRepository
  import opened ItemViews

  /** `ItemDtoInput`: a new item, optionally answering a request. */
  datatype ItemInput = ItemInput(name: string, description: string, available: bool, requestId: Option<nat>)

  /** The checks of `create`: the owner, then the request when one is named. */
  function CreateCheck(users: map<nat, User>, requests: map<nat, ItemRequest>, sharerId: nat, input: ItemInput)
    : (r: Outcome<Error>)
    ensures r.Pass? <==> sharerId in users && (input.requestId.Some? ==> input.requestId.value in requests)
    ensures sharerId !in users ==> r == Fail(NotFound(UserEntity))
    ensures sharerId in users && input.requestId.Some? && input.requestId.value !in requests
            ==> r == Fail(NotFound(RequestEntity))
  {
    if sharerId !in users then Fail(NotFound(UserEntity))
    else if input.requestId.Some? && input.requestId.value !in requests then Fail(NotFound(RequestEntity))
    else Pass
  }

  /** The checks of `update`: the user, the item, and that the user owns it (reported as "not found"). */
  function UpdateCheck(users: map<nat, User>, items: map<nat, Item>, sharerId: nat, id: nat): (r: Outcome<Error>)
    ensures r.Pass? <==> sharerId in users && id in items && items[id].owner == sharerId
    ensures sharerId !in users ==> r == Fail(NotFound(UserEntity))
    ensures sharerId in users && id !in items ==> r == Fail(NotFound(ItemEntity))
    ensures sharerId in users && id in items && items[id].owner != sharerId ==> r == Fail(NotFound(ItemOfUser))
  {
    if sharerId !in users then Fail(NotFound(UserEntity))
    else if id !in items then Fail(NotFound(ItemEntity))
    else if items[id].owner != sharerId then Fail(NotFound(ItemOfUser))
    else Pass
  }

  /** The checks of `deleteById`: the user and the item exist. Ownership is not checked. */
  function DeleteCheck(users: map<nat, User>, items: map<nat, Item>, sharerId: nat, id: nat): (r: Outcome<Error>)
    ensures r.Pass? <==> sharerId in users && id in items
    ensures sharerId !in users ==> r == Fail(NotFound(UserEntity))
    ensures sharerId in users && id !in items ==> r == Fail(NotFound(ItemEntity))
  {
    if sharerId !in users then Fail(NotFound(UserEntity))
    else if id !in items then Fail(NotFound(ItemEntity))
    else Pass
  }

  /**
   * The checks of `createComment`: the author, the item, and that the author
   * has a booking of the item, in any status, that ended at or before `now`.
   */
  function CommentCheck(users: map<nat, User>, items: map<nat, Item>, rows: seq<Booking>,
                        userId: nat, itemId: nat, now: Instant): (r: Outcome<Error>)
    ensures r.Pass? <==> userId in users && itemId in items
                         && exists b :: b in rows && b.booker.id == userId && b.item.id == itemId && b.end <= now
    ensures userId !in users ==> r == Fail(NotFound(UserEntity))
    ensures userId in users && itemId !in items ==> r == Fail(NotFound(ItemEntity))
    ensures r.Fail? && userId in users && itemId in items ==> r.error == CommentAccess
  {
    if userId !in users then Fail(NotFound(UserEntity))
    else if itemId !in items then Fail(NotFound(ItemEntity))
    else
      var finished := FindFinishedBookings(rows, userId, itemId, now);
      if finished == [] then Fail(CommentAccess)
      else
        assert finished[0] in finished;
        Pass
  }

  /** The last booking the owner sees: of the item's bookings that started by `now`, any status, one that ends first. */
  function OwnerLast(item: Item, sharerId: nat, rows: seq<Booking>, now: Instant): (r: Option<BookingShort>)
    ensures item.owner != sharerId ==> r.None?
    ensures item.owner == sharerId ==>
              (r.Some? <==> exists b :: b in rows && b.item.id == item.id && b.start <= now)
    ensures r.Some? ==> exists b :: b in rows && b.item.id == item.id && b.start <= now
                                    && r == Some(ToDtoOnlyIdAndBookerId(b))
                                    && forall b' :: (b' in rows && b'.item.id == item.id && b'.start <= now)
                                                    ==> b.end <= b'.end
  {
    if item.owner == sharerId then ShortOf(FindFirstStartedByEarliestEnd(rows, item.id, now)) else None
  }

  /** The next booking the owner sees: of the item's bookings that start after `now`, any status, one that ends first. */
  function OwnerNext(item: Item, sharerId: nat, rows: seq<Booking>, now: Instant): (r: Option<BookingShort>)
    ensures item.owner != sharerId ==> r.None?
    ensures item.owner == sharerId ==>
              (r.Some? <==> exists b :: b in rows && b.item.id == item.id && b.start > now)
    ensures r.Some? ==> exists b :: b in rows && b.item.id == item.id && b.start > now
                                    && r == Some(ToDtoOnlyIdAndBookerId(b))
                                    && forall b' :: (b' in rows && b'.item.id == item.id && b'.start > now)
                                                    ==> b.end <= b'.end
  {
    if item.owner == sharerId then ShortOf(FindFirstUpcomingByEarliestEnd(rows, item.id, now)) else None
  }

  /**
   * `getItemDtoWithBookingAndComments`: the owner sees the last and next
   * bookings, anybody else sees neither; every comment on the item is listed.
   */
  function View(item: Item, sharerId: nat, comments: seq<Comment>, rows: seq<Booking>, now: Instant)
    : (r: ItemWithBookings)
    ensures r.id == item.id && r.name == item.name && r.description == item.description
            && r.available == item.available
    ensures r.last == OwnerLast(item, sharerId, rows, now) && r.next == OwnerNext(item, sharerId, rows, now)
    ensures r.comments.Some? && forall c :: c in r.comments.value <==> c in comments && c.item == item.id
  {
    ItemWithBookings(item.id, item.name, item.description, item.available,
                     OwnerLast(item, sharerId, rows, now), OwnerNext(item, sharerId, rows, now),
                     Some(Filter(comments, (c: Comment) => c.item == item.id)))
  }

  /** `getById`: the user, the item, then the item's view for that user. */
  function GetById(users: map<nat, User>, items: map<nat, Item>, comments: seq<Comment>, rows: seq<Booking>,
                   sharerId: nat, id: nat, now: Instant): (r: Result<ItemWithBookings, Error>)
    ensures r.Success? <==> sharerId in users && id in items
    ensures sharerId !in users ==> r == Failure(NotFound(UserEntity))
    ensures sharerId in users && id !in items ==> r == Failure(NotFound(ItemEntity))
    ensures r.Success? ==> r.value == View(items[id], sharerId, comments, rows, now)
  {
    if sharerId !in users then Failure(NotFound(UserEntity))
    else if id !in items then Failure(NotFound(ItemEntity))
    else Success(View(items[id], sharerId, comments, rows, now))
  }

  /** The ids of a page of items (`Collectors.toSet()`). */
  function IdsOf(page: seq<Item>): (ids: set<nat>)
    ensures forall it :: it in page ==> it.id in ids
    ensures forall id :: id in ids ==> exists it :: it in page && it.id == id
  {
    set it | it in page :: it.id
  }

  /**
   * One pass of the loop in `fillItemDtoWithBookingAndComments`. The
   * comments are null when no item of the page has a comment; otherwise an
   * item without comments makes `commentsByItem.get(item).stream()` throw.
   * The last and next bookings are the item's first entries in the bulk lists.
   */
  function FillOne(item: Item, pageComments: seq<Comment>, lastBulk: seq<Booking>, nextBulk: seq<Booking>)
    : (r: Result<ItemWithBookings, Error>)
    ensures r.Failure? <==> pageComments != [] && forall c :: c in pageComments ==> c.item != item.id
    ensures r.Failure? ==> r.error == NullReference
    ensures r.Success? ==> r.value.id == item.id && r.value.name == item.name
                           && r.value.description == item.description && r.value.available == item.available
    ensures r.Success? ==> (r.value.comments.None? <==> pageComments == [])
    ensures r.Success? && r.value.comments.Some? ==>
              forall c :: c in r.value.comments.value <==> c in pageComments && c.item == item.id
    ensures r.Success? ==> r.value.last == ShortOf(FirstFor(lastBulk, item.id))
                           && r.value.next == ShortOf(FirstFor(nextBulk, item.id))
  {
    var own := Filter(pageComments, (c: Comment) => c.item == item.id);
    if pageComments != [] && own == [] then Failure(NullReference)
    else
      assert own != [] ==> own[0] in pageComments && own[0].item == item.id;
      var comments := if pageComments == [] then None else Some(own);
      Success(ItemWithBookings(item.id, item.name, item.description, item.available,
                               ShortOf(FirstFor(lastBulk, item.id)), ShortOf(FirstFor(nextBulk, item.id)),
                               comments))
  }

  /** `fillItemDtoWithBookingAndComments`: the loop over the page, stopping at the first exception. */
  method Fill(page: seq<Item>, pageComments: seq<Comment>, lastBulk: seq<Booking>, nextBulk: seq<Booking>)
    returns (r: Result<seq<ItemWithBookings>, Error>)
    ensures r.Success? <==> forall i :: 0 <= i < |page| ==> FillOne(page[i], pageComments, lastBulk, nextBulk).Success?
    ensures r.Failure? ==> r.error == NullReference
    ensures r.Success? ==> |r.value| == |page|
    ensures r.Success? ==> forall i :: 0 <= i < |page| ==>
              r.value[i] == FillOne(page[i], pageComments, lastBulk, nextBulk).value
  {
    var views: seq<ItemWithBookings> := [];
    var k := 0;
    while k < |page|
      invariant 0 <= k <= |page|
      invariant |views| == k
      invariant forall i :: 0 <= i < k ==> FillOne(page[i], pageComments, lastBulk, nextBulk) == Success(views[i])
    {
      var one := FillOne(page[k], pageComments, lastBulk, nextBulk);
      if one.Failure? {
        assert !FillOne(page[k], pageComments, lastBulk, nextBulk).Success?;
        return Failure(one.error);
      }
      assert forall i :: 0 <= i < k ==> (views + [one.value])[i] == views[i];
      views := views + [one.value];
      k := k + 1;
    }
    return Success(views);
  }

  /**
   * The last booking `getAll` shows for an item of the page is, of the item's
   * APPROVED bookings that started by `now`, one that ends last.
   */
  lemma FilledLastIsLatestApproved(rows: seq<Booking>, ids: set<nat>, now: Instant, item: Item,
                                   pageComments: seq<Comment>, nextBulk: seq<Booking>)
    requires item.id in ids
    requires FillOne(item, pageComments, FindBulkLast(rows, ids, now), nextBulk).Success?
    ensures var v := FillOne(item, pageComments, FindBulkLast(rows, ids, now), nextBulk).value;
            (v.last.None? <==> forall b :: b in rows && b.item.id == item.id && b.status == APPROVED ==> b.start > now)
            && (v.last.Some? ==>
                  exists b :: b in rows && b.item.id == item.id && b.status == APPROVED && b.start <= now
                              && v.last == Some(ToDtoOnlyIdAndBookerId(b))
                              && forall b' :: (b' in rows && b'.item.id == item.id && b'.status == APPROVED
                                               && b'.start <= now) ==> b'.end <= b.end)
  {
    var bulk := FindBulkLast(rows, ids, now);
    if FirstFor(bulk, item.id).Some? {
      FirstForLeads(bulk, item.id, (x: Booking, y: Booking) => x.end >= y.end);
    }
  }

  /**
   * The next booking `getAll` shows for an item of the page is, of the item's
   * APPROVED bookings that start after `now`, one that ends first.
   */
  lemma FilledNextIsEarliestApproved(rows: seq<Booking>, ids: set<nat>, now: Instant, item: Item,
                                     pageComments: seq<Comment>, lastBulk: seq<Booking>)
    requires item.id in ids
    requires FillOne(item, pageComments, lastBulk, FindBulkNext(rows, ids, now)).Success?
    ensures var v := FillOne(item, pageComments, lastBulk, FindBulkNext(rows, ids, now)).value;
            (v.next.None? <==> forall b :: b in rows && b.item.id == item.id && b.status == APPROVED ==> b.start <= now)
            && (v.next.Some? ==>
                  exists b :: b in rows && b.item.id == item.id && b.status == APPROVED && b.start > now
                              && v.next == Some(ToDtoOnlyIdAndBookerId(b))
                              && forall b' :: (b' in rows && b'.item.id == item.id && b'.status == APPROVED
                                               && b'.start > now) ==> b.end <= b'.end)
  {
    var bulk := FindBulkNext(rows, ids, now);
    if FirstFor(bulk, item.id).Some? {
      FirstForLeads(bulk, item.id, (x: Booking, y: Booking) => x.end <= y.end);
    }
  }

  /** `findAllByOwner_Id_OrderByIdAsc` with `PageRequest.of(from / size, size)`. */
  function OwnedPage(items: map<nat, Item>, lastId: nat, ownerId: nat, from: int, size: int): (page: seq<Item>)
    requires from >= 0 && size > 0
    ensures page == Page(FindAllByOwnerOrderByIdAsc(items, lastId, ownerId), from, size)
    ensures |page| <= size
    ensures forall it :: it in page ==> it in Rows(items, lastId) && it.owner == ownerId
    ensures (forall id :: id in items ==> items[id].id == id) ==>
              forall i, j :: 0 <= i < j < |page| ==> page[i].id < page[j].id
  {
    var owned := FindAllByOwnerOrderByIdAsc(items, lastId, ownerId);
    if forall id :: id in items ==> items[id].id == id then
      PageKeepsOrder(owned, from, size, (a: Item, b: Item) => a.id < b.id);
      Page(owned, from, size)
    else Page(owned, from, size)
  }

  /** `findByItem_IdIn`: the comments on the items of the page, in table order. */
  function PageComments(comments: seq<Comment>, page: seq<Item>): (r: seq<Comment>)
    ensures forall c :: c in r <==> c in comments && exists it :: it in page && it.id == c.item
  {
    var ids := IdsOf(page);
    Filter(comments, (c: Comment) => c.item in ids)
  }

  /**
   * The items table, its identity counter (the id of the last row saved) and
   * the comments table in the order comments were saved.
   */
  class ItemService {
    var items: map<nat, Item>
    var lastId: nat
    var comments: seq<Comment>

    ghost predicate Valid()
      reads this
    {
      Bounded(items, lastId + 1) && forall id :: id in items ==> items[id].id == id
    }

    constructor()
      ensures Valid() && items == map[] && lastId == 0 && comments == []
    {
      items := map[];
      lastId := 0;
      comments := [];
    }

    /** `create`: a checked item is saved under the next id, owned by the caller. */
    method Create(users: map<nat, User>, requests: map<nat, ItemRequest>, sharerId: nat, input: ItemInput)
      returns (r: Result<Item, Error>)
      requires Valid()
      modifies this
      ensures Valid()
      ensures CreateCheck(users, requests, sharerId, input).Fail? ==>
                unchanged(this) && r == Failure(CreateCheck(users, requests, sharerId, input).error)
      ensures CreateCheck(users, requests, sharerId, input).Pass? ==>
                var it := Item(lastId, input.name, input.description, input.available, sharerId, input.requestId);
                lastId == old(lastId) + 1 && items == old(items)[lastId := it] && comments == old(comments)
                && r == Success(it)
    {
      var checked := CreateCheck(users, requests, sharerId, input);
      if checked.Fail? {
        return Failure(checked.error);
      }
      var it := Item(lastId + 1, input.name, input.description, input.available, sharerId, input.requestId);
      items := items[lastId + 1 := it];
      lastId := lastId + 1;
      r := Success(it);
    }

    /** `update`: the owner's patch is merged into the stored item. */
    method Update(users: map<nat, User>, sharerId: nat, id: nat, patch: ItemPatch) returns (r: Result<Item, Error>)
      requires Valid()
      modifies this
      ensures Valid()
      ensures UpdateCheck(users, old(items), sharerId, id).Fail? ==>
                unchanged(this) && r == Failure(UpdateCheck(users, old(items), sharerId, id).error)
      ensures UpdateCheck(users, old(items), sharerId, id).Pass? ==>
                items == old(items)[id := Merge(patch, old(items)[id])] && lastId == old(lastId)
                && comments == old(comments) && r == Success(items[id])
    {
      var checked := UpdateCheck(users, items, sharerId, id);
      if checked.Fail? {
        return Failure(checked.error);
      }
      var merged := Merge(patch, items[id]);
      items := items[id := merged];
      r := Success(merged);
    }

    /** `deleteById`: any existing user may delete any existing item. */
    method DeleteById(users: map<nat, User>, sharerId: nat, id: nat) returns (r: Outcome<Error>)
      requires Valid()
      modifies this
      ensures Valid()
      ensures r == DeleteCheck(users, old(items), sharerId, id)
      ensures r.Fail? ==> unchanged(this)
      ensures r.Pass? ==> items == old(items) - {id} && lastId == old(lastId) && comments == old(comments)
    {
      r := DeleteCheck(users, items, sharerId, id);
      if r.Pass? {
        items := items - {id};
      }
    }

    /** `deleteAll`: every item goes; the identity counter does not restart. */
    method DeleteAll()
      requires Valid()
      modifies this
      ensures Valid()
      ensures items == map[] && lastId == old(lastId) && comments == old(comments)
    {
      items := map[];
    }

    /** `createComment`: a user who has finished a booking of the item may comment on it; the comment is stamped `now`. */
    method CreateComment(users: map<nat, User>, rows: seq<Booking>, userId: nat, itemId: nat, text: string,
                         now: Instant) returns (r: Result<Comment, Error>)
      requires Valid()
      modifies this
      ensures Valid()
      ensures CommentCheck(users, old(items), rows, userId, itemId, now).Fail? ==>
                unchanged(this) && r == Failure(CommentCheck(users, old(items), rows, userId, itemId, now).error)
      ensures CommentCheck(users, old(items), rows, userId, itemId, now).Pass? ==>
                var c := Comment(text, itemId, userId, now);
                comments == old(comments) + [c] && items == old(items) && lastId == old(lastId)
                && r == Success(c)
    {
      var checked := CommentCheck(users, items, rows, userId, itemId, now);
      if checked.Fail? {
        return Failure(checked.error);
      }
      var c := Comment(text, itemId, userId, now);
      comments := comments + [c];
      r := Success(c);
    }

    /**
     * `getAll`: one page of the owner's items, each with its last and next
     * approved booking from the bulk queries and its comments.
     */
    method GetAll(users: map<nat, User>, rows: seq<Booking>, sharerId: nat, from: int, size: int, now: Instant)
      returns (r: Result<seq<ItemWithBookings>, Error>)
      requires from >= 0 && size > 0
      ensures sharerId !in users ==> r == Failure(NotFound(UserEntity))
      ensures sharerId in users ==>
                var page := OwnedPage(items, lastId, sharerId, from, size);
                var pageComments := PageComments(comments, page);
                var lastBulk := FindBulkLast(rows, IdsOf(page), now);
                var nextBulk := FindBulkNext(rows, IdsOf(page), now);
                (r.Success? <==> forall i :: 0 <= i < |page| ==> FillOne(page[i], pageComments, lastBulk, nextBulk).Success?)
                && (r.Failure? ==> r.error == NullReference)
                && (r.Success? ==> |r.value| == |page|
                                   && forall i :: 0 <= i < |page| ==>
                                        r.value[i] == FillOne(page[i], pageComments, lastBulk, nextBulk).value)
    {
      if sharerId !in users {
        return Failure(NotFound(UserEntity));
      }
      var page := OwnedPage(items, lastId, sharerId, from, size);
      var ids := IdsOf(page);
      r := Fill(page, PageComments(comments, page), FindBulkLast(rows, ids, now), FindBulkNext(rows, ids, now));
    }
  }

  /** Any existing user may delete an item they do not own. */
  lemma DeleteIgnoresOwnership(users: map<nat, User>, items: map<nat, Item>, sharerId: nat, id: nat)
    requires sharerId in users && id in items && items[id].owner != sharerId
    ensures DeleteCheck(users, items, sharerId, id).Pass? && UpdateCheck(users, items, sharerId, id).Fail?
  {
  }

  /** A booking that was rejected but has ended still lets its booker comment. */
  lemma RejectedBookingAllowsComment(users: map<nat, User>, items: map<nat, Item>, rows: seq<Booking>,
                                     b: Booking, now: Instant)
    requires b in rows && b.status == Status.REJECTED && b.end <= now && b.booker.id in users && b.item.id in items
    ensures CommentCheck(users, items, rows, b.booker.id, b.item.id, now).Pass?
  {
  }
}
