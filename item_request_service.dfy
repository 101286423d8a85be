/**
 * The item request service of the earlier application: users post requests
 * for items they want; owners answer a request by listing an item against
 * it. Each request is shown with the items that answer it.
 */
module ItemRequests {
  import opened Wrappers
  import opened Domain
  import opened Table
  import opened Sequences
  import SrcItemRepository

  /** An `ItemRequestDtoOutput`; `items` is null on the output of `create`. */
  datatype RequestOutput = RequestOutput(id: nat, description: string, requestor: User, created: Instant,
                                         items: Option<seq<Item>>)

  function ToDtoOutput(req: ItemRequest, items: Option<seq<Item>>): (r: RequestOutput)
    ensures r.id == req.id && r.description == req.description && r.requestor == req.requestor
    ensures r.created == req.created && r.items == items
  {
    RequestOutput(req.id, req.description, req.requestor, req.created, items)
  }

  /** Whether an item answers the request with that id. */
  predicate Answers(it: Item, requestId: nat) {
    it.request == Some(requestId)
  }

  /** The output shows the request with exactly the rows that answer it. */
  ghost predicate Shows(o: RequestOutput, q: ItemRequest, rows: seq<Item>) {
    o.id == q.id && o.description == q.description && o.requestor == q.requestor && o.created == q.created
    && o.items.Some? && forall it :: it in o.items.value <==> it in rows && Answers(it, q.id)
  }

  /** Every item of the table stored under its own id. */
  predicate KeyedById(items: map<nat, Item>) {
    forall id :: id in items ==> items[id].id == id
  }

  /**
   * `getItemsByRequestId`: the items that answer the request, in the order
   * given. Reading the request id of an item that answers none throws.
   */
  function ItemsOfRequest(requestId: nat, items: seq<Item>): (r: Result<seq<Item>, Error>)
    ensures r.Failure? <==> exists it :: it in items && it.request.None?
    ensures r.Failure? ==> r.error == NullReference
    ensures r.Success? ==> forall it :: it in r.value <==> it in items && Answers(it, requestId)
    ensures r.Success? ==> |r.value| <= |items|
    ensures r.Success? && (forall i, j :: 0 <= i < j < |items| ==> items[i].id < items[j].id) ==>
              forall i, j :: 0 <= i < j < |r.value| ==> r.value[i].id < r.value[j].id
  {
    if exists it :: it in items && it.request.None? then Failure(NullReference)
    else if forall i, j :: 0 <= i < j < |items| ==> items[i].id < items[j].id then
      FilterKeepsOrder(items, (it: Item) => Answers(it, requestId), (a: Item, b: Item) => a.id < b.id);
      Success(Filter(items, (it: Item) => Answers(it, requestId)))
    else Success(Filter(items, (it: Item) => Answers(it, requestId)))
  }

  /** The ids of a list of requests, as the `IN` list of the item query. */
  function IdsOf(requests: seq<ItemRequest>): (ids: set<nat>)
    ensures forall id :: id in ids <==> exists q :: q in requests && q.id == id
  {
    set q | q in requests :: q.id
  }

  /** `findByRequest_IdIn`: the stored items answering one of the requests, taken in table order. */
  function FindByRequestIdIn(items: map<nat, Item>, lastId: nat, ids: set<nat>): (r: seq<Item>)
    ensures forall it :: it in r <==> it in Rows(items, lastId) && it.request.Some? && it.request.value in ids
    ensures forall id :: (1 <= id <= lastId && id in items && items[id].request.Some?
                          && items[id].request.value in ids) ==> items[id] in r
  {
    Filter(Rows(items, lastId), (it: Item) => it.request.Some? && it.request.value in ids)
  }

  /** `findByRequest_IdOrderById`: the stored items answering one request, in ascending id order. */
  function FindByRequestIdOrderById(items: map<nat, Item>, lastId: nat, requestId: nat): (r: seq<Item>)
    ensures forall it :: it in r <==> it in Rows(items, lastId) && Answers(it, requestId)
    ensures KeyedById(items) ==> forall i, j :: 0 <= i < j < |r| ==> r[i].id < r[j].id
  {
    if KeyedById(items) then
      SrcItemRepository.RowIdsAscend(items, lastId);
      FilterKeepsOrder(Rows(items, lastId), (it: Item) => Answers(it, requestId), (a: Item, b: Item) => a.id < b.id);
      Filter(Rows(items, lastId), (it: Item) => Answers(it, requestId))
    else Filter(Rows(items, lastId), (it: Item) => Answers(it, requestId))
  }

  /**
   * `getItemRequestsDtoWithItemsFromRequests`: one output per request, in
   * the order of the requests, each holding the items that answer it.
   */
  function Group(requests: seq<ItemRequest>, items: seq<Item>): (r: Result<seq<RequestOutput>, Error>)
    ensures r.Failure? <==> requests != [] && exists it :: it in items && it.request.None?
    ensures r.Success? ==> |r.value| == |requests|
    ensures r.Success? ==> forall i :: 0 <= i < |requests| ==>
              r.value[i].id == requests[i].id && r.value[i].description == requests[i].description
              && r.value[i].requestor == requests[i].requestor && r.value[i].created == requests[i].created
              && r.value[i].items.Some?
              && forall it :: it in r.value[i].items.value <==> it in items && Answers(it, requests[i].id)
  {
    if requests == [] then Success([])
    else
      match ItemsOfRequest(requests[0].id, items)
      case Failure(e) => Failure(e)
      case Success(own) =>
        match Group(requests[1..], items)
        case Failure(e) => Failure(e)
        case Success(rest) =>
          var r := [ToDtoOutput(requests[0], Some(own))] + rest;
          assert forall i :: 1 <= i < |requests| ==> r[i] == rest[i - 1] && requests[i] == requests[1..][i - 1];
          Success(r)
  }

  /** Grouping the items the `IN` query returns never throws: each of them answers a request. */
  lemma GroupOfQueriedItems(requests: seq<ItemRequest>, items: map<nat, Item>, lastId: nat)
    ensures Group(requests, FindByRequestIdIn(items, lastId, IdsOf(requests))).Success?
  {
  }

  /**
   * Each stored item answering one of the listed requests is shown under
   * that request, and only there.
   */
  lemma {:induction false} ItemShownUnderItsRequest(requests: seq<ItemRequest>, items: map<nat, Item>, lastId: nat,
                                                    id: nat, i: nat)
    requires 1 <= id <= lastId && id in items
    requires i < |requests| && Answers(items[id], requests[i].id)
    ensures var r := Group(requests, FindByRequestIdIn(items, lastId, IdsOf(requests)));
            r.Success? && items[id] in r.value[i].items.value
            && forall j :: 0 <= j < |requests| && requests[j].id != requests[i].id ==> items[id] !in r.value[j].items.value
  {
    var bulk := FindByRequestIdIn(items, lastId, IdsOf(requests));
    GroupOfQueriedItems(requests, items, lastId);
    assert requests[i] in requests;
    assert items[id] in bulk;
  }

  /**
   * Grouping the items of the `IN` query shows each request, in order, with
   * exactly the stored items that answer it.
   */
  lemma GroupShows(requests: seq<ItemRequest>, items: map<nat, Item>, lastId: nat)
    ensures var r := Group(requests, FindByRequestIdIn(items, lastId, IdsOf(requests)));
            r.Success? && |r.value| == |requests|
            && forall i :: 0 <= i < |requests| ==> Shows(r.value[i], requests[i], Rows(items, lastId))
  {
    var bulk := FindByRequestIdIn(items, lastId, IdsOf(requests));
    GroupOfQueriedItems(requests, items, lastId);
    var r := Group(requests, bulk);
    forall i | 0 <= i < |requests| ensures Shows(r.value[i], requests[i], Rows(items, lastId)) {
      assert requests[i] in requests;
    }
  }

  /** The other users' requests, ORDER BY created DESC. */
  function OthersNewestFirst(rows: seq<ItemRequest>, requestorId: nat): (r: seq<ItemRequest>)
    ensures multiset(r) == multiset(Filter(rows, (q: ItemRequest) => q.requestor.id != requestorId))
    ensures forall i, j :: 0 <= i < j < |r| ==> r[i].created >= r[j].created
    ensures forall q :: q in r <==> q in rows && q.requestor.id != requestorId
  {
    var others := Filter(rows, (q: ItemRequest) => q.requestor.id != requestorId);
    var r := SortByDesc(others, (q: ItemRequest) => q.created);
    assert forall q :: q in r <==> q in multiset(r);
    assert forall q :: q in others <==> q in multiset(others);
    r
  }

  /** Outputs made request by request keep what the requests' order and filter promised. */
  lemma OutputsKeepPage(page: seq<ItemRequest>, outs: seq<RequestOutput>, requestorId: nat)
    requires |outs| == |page|
    requires forall i :: 0 <= i < |page| ==> outs[i].requestor == page[i].requestor && outs[i].created == page[i].created
    requires forall q :: q in page ==> q.requestor.id != requestorId
    requires forall i, j :: 0 <= i < j < |page| ==> page[i].created >= page[j].created
    ensures forall i :: 0 <= i < |outs| ==> outs[i].requestor.id != requestorId
    ensures forall i, j :: 0 <= i < j < |outs| ==> outs[i].created >= outs[j].created
  {
    forall i | 0 <= i < |outs| ensures outs[i].requestor.id != requestorId {
      assert page[i] in page;
    }
  }

  /** The requests table with its identity counter. */
  class ItemRequestService {
    var requests: map<nat, ItemRequest>
    var lastId: nat

    ghost predicate Valid()
      reads this
    {
      Bounded(requests, lastId + 1) && forall id :: id in requests ==> requests[id].id == id
    }

    constructor()
      ensures Valid() && requests == map[] && lastId == 0
    {
      requests := map[];
      lastId := 0;
    }

    /** `findByRequestor_Id`: the requests of one user, in id order. */
    function OwnRequests(requestorId: nat): (r: seq<ItemRequest>)
      reads this
      ensures forall q :: q in r <==> q in Rows(requests, lastId) && q.requestor.id == requestorId
    {
      Filter(Rows(requests, lastId), (q: ItemRequest) => q.requestor.id == requestorId)
    }

    /** `getAll`: the caller's requests with their items; an absent caller is NotFound. */
    function GetAll(users: map<nat, User>, items: map<nat, Item>, itemsLastId: nat, requestorId: nat)
      : (r: Result<seq<RequestOutput>, Error>)
      requires Valid()
      reads this
      ensures r.Failure? <==> requestorId !in users
      ensures r.Failure? ==> r.error == NotFound(UserEntity)
      ensures r.Success? ==> |r.value| == |OwnRequests(requestorId)|
      ensures r.Success? ==> forall o :: o in r.value ==> o.requestor.id == requestorId && o.id in requests
      ensures r.Success? ==> forall id :: id in requests && requests[id].requestor.id == requestorId ==>
                               exists o :: o in r.value && o.id == id
      ensures r.Success? ==> forall i :: 0 <= i < |r.value| ==>
                               Shows(r.value[i], OwnRequests(requestorId)[i], Rows(items, itemsLastId))
    {
      if requestorId !in users then Failure(NotFound(UserEntity))
      else
        var own := OwnRequests(requestorId);
        var r := Group(own, FindByRequestIdIn(items, itemsLastId, IdsOf(own)));
        GroupShows(own, items, itemsLastId);
        ListedRequests(own, r.value);
        Everyone(requestorId, own, r.value);
        r
    }

    /** The outputs of a grouping are the grouped requests, position by position. */
    lemma ListedRequests(own: seq<ItemRequest>, outs: seq<RequestOutput>)
      requires Valid()
      requires forall q :: q in own ==> q in Rows(requests, lastId)
      requires |outs| == |own| && forall i :: 0 <= i < |own| ==> outs[i].id == own[i].id && outs[i].requestor == own[i].requestor
      ensures forall o :: o in outs ==> exists q :: q in own && o.id == q.id && o.requestor == q.requestor
      ensures forall o :: o in outs ==> o.id in requests
    {
      forall o | o in outs ensures exists q :: q in own && o.id == q.id && o.requestor == q.requestor {
        var i :| 0 <= i < |outs| && outs[i] == o;
        assert own[i] in own;
      }
      forall o | o in outs ensures o.id in requests {
        var q :| q in own && o.id == q.id;
        var k :| 1 <= k <= lastId && k in requests && requests[k] == q;
      }
    }

    lemma Everyone(requestorId: nat, own: seq<ItemRequest>, outs: seq<RequestOutput>)
      requires Valid()
      requires own == OwnRequests(requestorId)
      requires |outs| == |own| && forall i :: 0 <= i < |own| ==> outs[i].id == own[i].id
      ensures forall id :: id in requests && requests[id].requestor.id == requestorId ==>
                exists o :: o in outs && o.id == id
    {
      forall id | id in requests && requests[id].requestor.id == requestorId
        ensures exists o :: o in outs && o.id == id
      {
        assert requests[id] in Rows(requests, lastId);
        assert requests[id] in own;
        var i :| 0 <= i < |own| && own[i] == requests[id];
        assert outs[i].id == id;
      }
    }

    /** `getById`: NotFound for an absent user first, then for an absent request; the items answering it come in id order. */
    function GetById(users: map<nat, User>, items: map<nat, Item>, itemsLastId: nat, userId: nat, requestId: nat)
      : (r: Result<RequestOutput, Error>)
      requires Valid()
      reads this
      ensures userId !in users ==> r == Failure(NotFound(UserEntity))
      ensures userId in users && requestId !in requests ==> r == Failure(NotFound(RequestEntity))
      ensures r.Success? <==> userId in users && requestId in requests
      ensures r.Success? ==> Shows(r.value, requests[requestId], Rows(items, itemsLastId))
                             && r.value.items.value == FindByRequestIdOrderById(items, itemsLastId, requestId)
      ensures r.Success? && KeyedById(items) ==>
                forall i, j :: 0 <= i < j < |r.value.items.value| ==> r.value.items.value[i].id < r.value.items.value[j].id
    {
      if userId !in users then Failure(NotFound(UserEntity))
      else if requestId !in requests then Failure(NotFound(RequestEntity))
      else Success(ToDtoOutput(requests[requestId], Some(FindByRequestIdOrderById(items, itemsLastId, requestId))))
    }

    /** `findByRequestor_IdNot` ordered by created descending, page `from / size`. */
    function OthersPage(requestorId: nat, from: int, size: int): (r: seq<ItemRequest>)
      requires from >= 0 && size > 0
      reads this
      ensures r == Page(OthersNewestFirst(Rows(requests, lastId), requestorId), from, size)
      ensures |r| <= size
      ensures forall q :: q in r ==> q in Rows(requests, lastId) && q.requestor.id != requestorId
      ensures forall i, j :: 0 <= i < j < |r| ==> r[i].created >= r[j].created
    {
      var sorted := OthersNewestFirst(Rows(requests, lastId), requestorId);
      PageKeepsOrder(sorted, from, size, (a: ItemRequest, b: ItemRequest) => a.created >= b.created);
      Page(sorted, from, size)
    }

    /**
     * `getAllAnotherUsers`: a page of the other users' requests, newest
     * first, each shown with the items answering it. The caller is not
     * looked up.
     */
    function GetAllAnotherUsers(items: map<nat, Item>, itemsLastId: nat, requestorId: nat, from: int, size: int)
      : (r: seq<RequestOutput>)
      requires from >= 0 && size > 0
      reads this
      ensures |r| == |OthersPage(requestorId, from, size)| <= size
      ensures forall i :: 0 <= i < |r| ==> Shows(r[i], OthersPage(requestorId, from, size)[i], Rows(items, itemsLastId))
      ensures forall i :: 0 <= i < |r| ==> r[i].requestor.id != requestorId
      ensures forall i, j :: 0 <= i < j < |r| ==> r[i].created >= r[j].created
    {
      var page := OthersPage(requestorId, from, size);
      GroupShows(page, items, itemsLastId);
      var r := Group(page, FindByRequestIdIn(items, itemsLastId, IdsOf(page))).value;
      OutputsKeepPage(page, r, requestorId);
      r
    }

    /**
     * `create`: the request of an existing user is stored under the next id,
     * stamped `now`; its output has no item list.
     */
    method Create(users: map<nat, User>, requestorId: nat, description: string, now: Instant)
      returns (r: Result<RequestOutput, Error>)
      requires Valid()
      modifies this
      ensures Valid()
      ensures requestorId !in users ==> r == Failure(NotFound(UserEntity)) && unchanged(this)
      ensures requestorId in users ==>
                var q := ItemRequest(lastId, description, users[requestorId], now);
                lastId == old(lastId) + 1 && lastId !in old(requests) && requests == old(requests)[lastId := q]
                && r == Success(RequestOutput(lastId, description, users[requestorId], now, None))
      ensures requestorId in users ==> Rows(requests, lastId) == Rows(old(requests), old(lastId)) + [requests[lastId]]
    {
      if requestorId !in users {
        return Failure(NotFound(UserEntity));
      }
      var q := ItemRequest(lastId + 1, description, users[requestorId], now);
      RowsAppend(requests, lastId, q);
      requests := requests[q.id := q];
      lastId := lastId + 1;
      r := Success(ToDtoOutput(q, None));
    }
  }
}
