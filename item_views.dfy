/**
 * What both item services share: the partial update an owner sends, the
 * merge that applies it, and the item view with its last and next bookings
 * and its comments.
 */
module ItemViews {
  import opened Wrappers
  import opened Domain
  import opened Text
  import opened BookingConverter

  /** The fields of an `ItemDto` a PATCH may carry; None is a null field. */
  datatype ItemPatch = ItemPatch(name: Option<string>, description: Option<string>, available: Option<bool>)

  /**
   * `ItemDtoWithBookingAndComments`. `last` and `next` are None when null;
   * `comments` is None when the list is null.
   */
  datatype ItemWithBookings = ItemWithBookings(id: nat, name: string, description: string, available: bool,
                                               last: Option<BookingShort>, next: Option<BookingShort>,
                                               comments: Option<seq<Comment>>)

  /**
   * The private `update(itemDto, item)` of both item services. The name is
   * replaced by a non-null, non-blank new name. The description is replaced
   * by any non-null new description, but only when the item's CURRENT
   * description is not blank. Availability is replaced when given.
   */
  function Merge(patch: ItemPatch, item: Item): (r: Item)
    ensures r.id == item.id && r.owner == item.owner && r.request == item.request
    ensures patch.name.Some? && !IsBlank(patch.name.value) ==> r.name == patch.name.value
    ensures !(patch.name.Some? && !IsBlank(patch.name.value)) ==> r.name == item.name
    ensures patch.description.Some? && !IsBlank(item.description) ==> r.description == patch.description.value
    ensures !(patch.description.Some? && !IsBlank(item.description)) ==> r.description == item.description
    ensures patch.available.Some? ==> r.available == patch.available.value
    ensures patch.available.None? ==> r.available == item.available
  {
    var named := if patch.name.Some? && !IsBlank(patch.name.value) then item.(name := patch.name.value) else item;
    var described := if patch.description.Some? && !IsBlank(item.description)
                     then named.(description := patch.description.value) else named;
    if patch.available.Some? then described.(available := patch.available.value) else described
  }

  /** A patch of nulls changes nothing. */
  lemma MergeOfNothing(item: Item)
    ensures Merge(ItemPatch(None, None, None), item) == item
  {
  }

  /** Applying the same patch twice is applying it once. */
  lemma MergeIdempotent(patch: ItemPatch, item: Item)
    ensures Merge(patch, Merge(patch, item)) == Merge(patch, item)
  {
  }

  /** A blank new description overwrites a non-blank one, unlike a blank new name. */
  lemma BlankDescriptionOverwrites(item: Item, blank: string)
    requires IsBlank(blank) && !IsBlank(item.description)
    ensures Merge(ItemPatch(None, Some(blank), None), item).description == blank
    ensures Merge(ItemPatch(Some(blank), None, None), item).name == item.name
  {
  }

  /** An item whose description is blank keeps it whatever the patch says. */
  lemma BlankDescriptionIsKept(item: Item, patch: ItemPatch)
    requires IsBlank(item.description)
    ensures Merge(patch, item).description == item.description
  {
  }

  /**
   * The first booking of the item in a list, as `groupingBy(Booking::getItem)`
   * followed by `get(0)` takes it: grouping keeps the list's order.
   */
  function FirstFor(s: seq<Booking>, itemId: nat): (r: Option<Booking>)
    ensures r.None? <==> forall b :: b in s ==> b.item.id != itemId
    ensures r.Some? ==> exists i :: 0 <= i < |s| && s[i] == r.value && s[i].item.id == itemId
                                    && forall j :: 0 <= j < i ==> s[j].item.id != itemId
  {
    if s == [] then None
    else if s[0].item.id == itemId then Some(s[0])
    else
      var r := FirstFor(s[1..], itemId);
      assert forall b :: b in s ==> b == s[0] || b in s[1..];
      if r.Some? then
        var i :| 0 <= i < |s[1..]| && s[1..][i] == r.value && s[1..][i].item.id == itemId
                 && forall j :: 0 <= j < i ==> s[1..][j].item.id != itemId;
        assert s[i + 1] == r.value;
        assert forall j :: 1 <= j < i + 1 ==> s[j] == s[1..][j - 1];
        r
      else r
  }

  /** In a list ordered by `before`, the item's first booking stands `before` every other booking of the item. */
  lemma FirstForLeads(s: seq<Booking>, itemId: nat, before: (Booking, Booking) -> bool)
    requires forall i, j :: 0 <= i < j < |s| ==> before(s[i], s[j])
    requires FirstFor(s, itemId).Some?
    ensures FirstFor(s, itemId).value in s
    ensures forall b :: b in s && b.item.id == itemId ==> b == FirstFor(s, itemId).value || before(FirstFor(s, itemId).value, b)
  {
    var first := FirstFor(s, itemId).value;
    var i :| 0 <= i < |s| && s[i] == first && s[i].item.id == itemId
             && forall j :: 0 <= j < i ==> s[j].item.id != itemId;
    forall b | b in s && b.item.id == itemId ensures b == first || before(first, b) {
      var j :| 0 <= j < |s| && s[j] == b;
      assert j >= i;
    }
  }

  /** The short form of an optional booking (`.map(toDtoOnlyIdAndBookerId).orElse(null)`). */
  function ShortOf(b: Option<Booking>): (r: Option<BookingShort>)
    ensures r.Some? <==> b.Some?
    ensures b.Some? ==> r.value.id == b.value.id && r.value.bookerId == b.value.booker.id
  {
    match b
    case None => None
    case Some(x) => Some(ToDtoOnlyIdAndBookerId(x))
  }
}
