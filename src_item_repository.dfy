/**
 * The JPA item repository of the earlier application: the text search and
 * the owner's items in id order. The items table is a map from id to item
 * with its identity counter `lastId`.
 */
module SrcItemRepository {
  import opened Domain
  import opened Text
  import opened Sequences
  import opened Table

  /**
   * The `where` clause of `findByText`. `and` binds tighter than `or`, so an
   * item whose name matches is found whether or not it is available, while a
   * description match needs an available item.
   */
  predicate MatchesText(item: Item, text: string) {
    Contains(ToUpper(item.name), ToUpper(text))
    || (Contains(ToUpper(item.description), ToUpper(text)) && item.available)
  }

  /** `findByText`: the matching rows, in table order. */
  function FindByText(rows: seq<Item>, text: string): (r: seq<Item>)
    ensures forall it :: it in r <==> it in rows && MatchesText(it, text)
    ensures |r| <= |rows|
  {
    Filter(rows, (it: Item) => MatchesText(it, text))
  }

  /** `findAllByOwner_Id_OrderByIdAsc`: the owner's items, lowest id first. */
  function FindAllByOwnerOrderByIdAsc(items: map<nat, Item>, lastId: nat, ownerId: nat): (r: seq<Item>)
    ensures forall it :: it in r <==> it in Rows(items, lastId) && it.owner == ownerId
    ensures (forall id :: id in items ==> items[id].id == id) ==>
              forall i, j :: 0 <= i < j < |r| ==> r[i].id < r[j].id
  {
    var r := Filter(Rows(items, lastId), (it: Item) => it.owner == ownerId);
    if forall id :: id in items ==> items[id].id == id then
      RowIdsAscend(items, lastId);
      FilterKeepsOrder(Rows(items, lastId), (it: Item) => it.owner == ownerId, (a: Item, b: Item) => a.id < b.id);
      r
    else r
  }

  /** With every item stored under its own id, the rows are in strictly ascending id order. */
  lemma {:induction false} RowIdsAscend(items: map<nat, Item>, n: nat)
    requires forall id :: id in items ==> items[id].id == id
    ensures forall x :: x in Rows(items, n) ==> x.id <= n
    ensures forall i, j :: 0 <= i < j < |Rows(items, n)| ==> Rows(items, n)[i].id < Rows(items, n)[j].id
  {
    if n > 0 {
      RowIdsAscend(items, n - 1);
      var front := Rows(items, n - 1);
      var r := Rows(items, n);
      assert r == front + (if n in items then [items[n]] else []);
      forall i, j | 0 <= i < j < |r| ensures r[i].id < r[j].id {
        if j >= |front| {
          assert r[i] in front;
        }
      }
    }
  }

  /** The search ignores the case of the text: lower-casing or upper-casing it finds the same items. */
  lemma FindByTextIgnoresCase(rows: seq<Item>, text: string)
    ensures forall it :: it in FindByText(rows, ToLower(text)) <==> it in FindByText(rows, text)
    ensures forall it :: it in FindByText(rows, ToUpper(text)) <==> it in FindByText(rows, text)
  {
    UpperOfLower(text);
    UpperIdempotent(text);
  }

  /** A name match finds an unavailable item; a description match alone does not. */
  lemma AvailabilityOnlyGuardsDescription(rows: seq<Item>, text: string, it: Item)
    requires it in rows && !it.available
    ensures it in FindByText(rows, text) <==> Contains(ToUpper(it.name), ToUpper(text))
  {
  }
}
