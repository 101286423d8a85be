/**
 * The item service of the earlier application, over JPA tables: the items
 * and comments tables are the state of `ItemService`; the users and
 * bookings tables are read-only inputs. `now` is the database's `now()`.
 */
module SrcItemService {
  import opened Wrappers
  import opened Domain
  import opened Sequences
  import opened Table
  import opened BookingConverter
  import opened SrcBookingRepository
  import opened SrcItemRepository
  import opened ItemViews

  /** The last booking the owner sees: of the item's bookings that started before `now`, any status, one that ends last. */
  function OwnerLast(item: Item, sharerId: nat, rows: seq<Booking>, now: Instant): (r: Option<BookingShort>)
    ensures item.owner != sharerId ==> r.None?
    ensures item.owner == sharerId ==>
              (r.Some? <==> exists b :: b in rows && b.item.id == item.id && b.start < now)
    ensures r.Some? ==> exists b :: b in rows && b.item.id == item.id && b.start < now
                                    && r == Some(ToDtoOnlyIdAndBookerId(b))
                                    && forall b' :: (b' in rows && b'.item.id == item.id && b'.start < now)
                                                    ==> b'.end <= b.end
  {
    if item.owner == sharerId then ShortOf(FindLastBooking(rows, item.id, now)) else None
  }

  /** The next booking the owner sees: of the item's bookings that start after `now`, any status, one that starts LAST. */
  function OwnerNext(item: Item, sharerId: nat, rows: seq<Booking>, now: Instant): (r: Option<BookingShort>)
    ensures item.owner != sharerId ==> r.None?
    ensures item.owner == sharerId ==>
              (r.Some? <==> exists b :: b in rows && b.item.id == item.id && b.start > now)
    ensures r.Some? ==> exists b :: b in rows && b.item.id == item.id && b.start > now
                                    && r == Some(ToDtoOnlyIdAndBookerId(b))
                                    && forall b' :: (b' in rows && b'.item.id == item.id && b'.start > now)
                                                    ==> b'.start <= b.start
  {
    if item.owner == sharerId then ShortOf(FindNextBooking(rows, item.id, now)) else None
  }

  /**
   * `getItemDtoWithBookingAndComments`: the owner sees the last and next
   * bookings, anybody else sees neither; every comment on the item is listed.
   */
  function View(item: Item, sharerId: nat, comments: seq<Comment>, rows: seq<Booking>, now: Instant)
    : (r: ItemWithBookings)
    ensures r.id == item.id && r.name == item.name && r.description == item.description
            && r.available == item.available
    ensures r.comments.Some? && forall c :: c in r.comments.value <==> c in comments && c.item == item.id
  {
    ItemWithBookings(item.id, item.name, item.description, item.available,
                     OwnerLast(item, sharerId, rows, now), OwnerNext(item, sharerId, rows, now),
                     Some(Filter(comments, (c: Comment) => c.item == item.id)))
  }

  /** `getById`: the user, the item, then the item's view for that user. */
  function GetById(users: map<nat, User>, items: map<nat, Item>, comments: seq<Comment>, rows: seq<Booking>,
                   sharerId: nat, id: nat, now: Instant): (r: Result<ItemWithBookings, Error>)
    ensures r.Success? <==> sharerId in users && id in items
    ensures sharerId !in users ==> r == Failure(NotFound(UserEntity))
    ensures sharerId in users && id !in items ==> r == Failure(NotFound(ItemEntity))
    ensures r.Success? ==> r.value == View(items[id], sharerId, comments, rows, now)
  {
    if sharerId !in users then Failure(NotFound(UserEntity))
    else if id !in items then Failure(NotFound(ItemEntity))
    else Success(View(items[id], sharerId, comments, rows, now))
  }

  /** The checks of `update`: the user, the item, and that the user owns it (reported as "not found"). */
  function UpdateCheck(users: map<nat, User>, items: map<nat, Item>, sharerId: nat, id: nat): (r: Outcome<Error>)
    ensures r.Pass? <==> sharerId in users && id in items && items[id].owner == sharerId
    ensures sharerId !in users ==> r == Fail(NotFound(UserEntity))
    ensures sharerId in users && id !in items ==> r == Fail(NotFound(ItemEntity))
    ensures sharerId in users && id in items && items[id].owner != sharerId ==> r == Fail(NotFound(ItemOfUser))
  {
    if sharerId !in users then Fail(NotFound(UserEntity))
    else if id !in items then Fail(NotFound(ItemEntity))
    else if items[id].owner != sharerId then Fail(NotFound(ItemOfUser))
    else Pass
  }

  /**
   * The checks of `createComment`: the author, the item, and that the author
   * has a booking of the item, in any status, that ended strictly before `now`.
   */
  function CommentCheck(users: map<nat, User>, items: map<nat, Item>, rows: seq<Booking>,
                        userId: nat, itemId: nat, now: Instant): (r: Outcome<Error>)
    ensures r.Pass? <==> userId in users && itemId in items
                         && exists b :: b in rows && b.booker.id == userId && b.item.id == itemId && b.end < now
    ensures userId !in users ==> r == Fail(NotFound(UserEntity))
    ensures userId in users && itemId !in items ==> r == Fail(NotFound(ItemEntity))
    ensures r.Fail? && userId in users && itemId in items ==> r.error == CommentAccess
  {
    if userId !in users then Fail(NotFound(UserEntity))
    else if itemId !in items then Fail(NotFound(ItemEntity))
    else
      var finished := FindFinishedBookings(rows, userId, itemId, now);
      if finished == [] then Fail(CommentAccess)
      else
        assert finished[0] in finished;
        Pass
  }

  /** `getByText`: the items the search finds, in table order. */
  function GetByText(items: map<nat, Item>, lastId: nat, text: string): (r: seq<Item>)
    ensures forall it :: it in r <==> it in Rows(items, lastId) && MatchesText(it, text)
  {
    FindByText(Rows(items, lastId), text)
  }

  /** The loop of `getAll`: each item shown with the view its owner gets, in list order. */
  method ViewAll(owned: seq<Item>, sharerId: nat, comments: seq<Comment>, rows: seq<Booking>, now: Instant)
    returns (views: seq<ItemWithBookings>)
    ensures |views| == |owned|
    ensures forall i :: 0 <= i < |owned| ==> views[i] == View(owned[i], sharerId, comments, rows, now)
  {
    views := [];
    var k := 0;
    while k < |owned|
      invariant 0 <= k <= |owned|
      invariant |views| == k
      invariant forall i :: 0 <= i < k ==> views[i] == View(owned[i], sharerId, comments, rows, now)
    {
      var v := View(owned[k], sharerId, comments, rows, now);
      assert forall i :: 0 <= i < k ==> (views + [v])[i] == views[i];
      views := views + [v];
      k := k + 1;
    }
  }

  /** `getAll`: after the user check, every item of the owner in id order with its owner's view. */
  method GetAll(users: map<nat, User>, items: map<nat, Item>, lastId: nat, comments: seq<Comment>,
                rows: seq<Booking>, sharerId: nat, now: Instant)
    returns (r: Result<seq<ItemWithBookings>, Error>)
    ensures r.Success? <==> sharerId in users
    ensures sharerId !in users ==> r == Failure(NotFound(UserEntity))
    ensures r.Success? ==>
              var owned := FindAllByOwnerOrderByIdAsc(items, lastId, sharerId);
              |r.value| == |owned|
              && forall i :: 0 <= i < |owned| ==> r.value[i] == View(owned[i], sharerId, comments, rows, now)
  {
    if sharerId !in users {
      return Failure(NotFound(UserEntity));
    }
    var views := ViewAll(FindAllByOwnerOrderByIdAsc(items, lastId, sharerId), sharerId, comments, rows, now);
    return Success(views);
  }

  /**
   * The items table, its identity counter (the id of the last row saved) and
   * the comments table in the order comments were saved.
   */
  class ItemService {
    var items: map<nat, Item>
    var lastId: nat
    var comments: seq<Comment>

    ghost predicate Valid()
      reads this
    {
      Bounded(items, lastId + 1) && forall id :: id in items ==> items[id].id == id
    }

    constructor()
      ensures Valid() && items == map[] && lastId == 0 && comments == []
    {
      items := map[];
      lastId := 0;
      comments := [];
    }

    /** `update`: the owner's patch is merged into the item, which is saved. */
    method Update(users: map<nat, User>, sharerId: nat, id: nat, patch: ItemPatch) returns (r: Result<Item, Error>)
      requires Valid()
      modifies this
      ensures Valid()
      ensures UpdateCheck(users, old(items), sharerId, id).Fail? ==>
                unchanged(this) && r == Failure(UpdateCheck(users, old(items), sharerId, id).error)
      ensures UpdateCheck(users, old(items), sharerId, id).Pass? ==>
                items == old(items)[id := Merge(patch, old(items)[id])] && lastId == old(lastId)
                && comments == old(comments) && r == Success(items[id])
    {
      var checked := UpdateCheck(users, items, sharerId, id);
      if checked.Fail? {
        return Failure(checked.error);
      }
      var merged := Merge(patch, items[id]);
      items := items[id := merged];
      r := Success(merged);
    }

    /**
     * `deleteById`: no user, item or ownership check before Spring Data's
     * `deleteById`, which throws EmptyResultDataAccessException for an absent id.
     */
    method DeleteById(sharerId: nat, id: nat) returns (r: Outcome<Error>)
      requires Valid()
      modifies this
      ensures Valid()
      ensures id !in old(items) ==> r == Fail(EmptyResult) && unchanged(this)
      ensures id in old(items) ==>
                r == Pass && items == old(items) - {id} && lastId == old(lastId) && comments == old(comments)
    {
      if id !in items {
        return Fail(EmptyResult);
      }
      items := items - {id};
      r := Pass;
    }

    /** `deleteAll`: every item goes; the identity counter does not restart. */
    method DeleteAll()
      requires Valid()
      modifies this
      ensures Valid()
      ensures items == map[] && lastId == old(lastId) && comments == old(comments)
    {
      items := map[];
    }

    /** `createComment`: a user whose booking of the item has ended may comment on it; the comment is stamped `now`. */
    method CreateComment(users: map<nat, User>, rows: seq<Booking>, userId: nat, itemId: nat, text: string,
                         now: Instant) returns (r: Result<Comment, Error>)
      requires Valid()
      modifies this
      ensures Valid()
      ensures CommentCheck(users, old(items), rows, userId, itemId, now).Fail? ==>
                unchanged(this) && r == Failure(CommentCheck(users, old(items), rows, userId, itemId, now).error)
      ensures CommentCheck(users, old(items), rows, userId, itemId, now).Pass? ==>
                var c := Comment(text, itemId, userId, now);
                comments == old(comments) + [c] && items == old(items) && lastId == old(lastId)
                && r == Success(c)
    {
      var checked := CommentCheck(users, items, rows, userId, itemId, now);
      if checked.Fail? {
        return Failure(checked.error);
      }
      var c := Comment(text, itemId, userId, now);
      comments := comments + [c];
      r := Success(c);
    }
  }

  /** A booking that ends exactly at `now` lets its booker comment on the server but not here. */
  lemma CommentBoundaryIsStrict(users: map<nat, User>, items: map<nat, Item>, b: Booking)
    requires b.booker.id in users && b.item.id in items
    ensures CommentCheck(users, items, [b], b.booker.id, b.item.id, b.end) == Fail(CommentAccess)
  {
  }

  /** Of two upcoming bookings the owner is shown the one that starts later. */
  lemma NextIsTheLatestUpcoming(item: Item, a: Booking, b: Booking, now: Instant)
    requires a.item.id == item.id && b.item.id == item.id && now < a.start < b.start && a != b
    ensures OwnerNext(item, item.owner, [a, b], now) == Some(ToDtoOnlyIdAndBookerId(b))
  {
    var r := FindNextBooking([a, b], item.id, now);
    assert r.value == a || r.value == b;
  }
}
