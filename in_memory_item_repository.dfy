/**
 * The in-memory item repository of the earlier application: a map from id
 * to item, an index from each sharer to the ids of their items, and an id
 * counter that starts at 1.
 */
module InMemoryItems {
  import opened Wrappers
  import opened Domain
  import opened Text
  import SrcItemRepository

  /** The loop test of `findByText`: an available item whose name or description contains the text, ignoring case. */
  predicate MatchesText(item: Item, text: string) {
    (Contains(ToLower(item.name), ToLower(text)) || Contains(ToLower(item.description), ToLower(text)))
    && item.available
  }

  class InMemoryItemRepository {
    var items: map<nat, Item>
    var sharersWithItems: map<nat, set<nat>>
    var count: nat

    /** Every item is stored under its id, below the counter, and indexed under its owner. */
    ghost predicate Valid()
      reads this
    {
      count >= 1
      && forall id :: id in items ==>
           items[id].id == id && id < count
           && items[id].owner in sharersWithItems && id in sharersWithItems[items[id].owner]
    }

    constructor()
      ensures Valid() && items == map[] && sharersWithItems == map[] && count == 1
    {
      items := map[];
      sharersWithItems := map[];
      count := 1;
    }

    /** `findById`: the stored item, or empty. */
    function FindById(id: nat): (r: Option<Item>)
      reads this
      ensures r.Some? <==> id in items
      ensures r.Some? ==> r.value == items[id]
    {
      if id in items then Some(items[id]) else None
    }

    /**
     * `findAll`: the stored items whose id is in the sharer's index, in the
     * map's iteration order. A sharer with no index entry makes
     * `itemsOfSharer.contains` throw on the first stored id; with no stored
     * item the loop never runs and the list is empty.
     */
    method FindAll(sharerId: nat) returns (r: Result<seq<Item>, Error>)
      requires Valid()
      ensures r.Failure? <==> sharerId !in sharersWithItems && items != map[]
      ensures r.Failure? ==> r.error == NullReference
      ensures r.Success? ==> forall it :: it in r.value <==>
                it.id in items && items[it.id] == it && sharerId in sharersWithItems && it.id in sharersWithItems[sharerId]
      ensures r.Success? ==> forall i, j :: 0 <= i < j < |r.value| ==> r.value[i].id != r.value[j].id
    {
      if sharerId !in sharersWithItems {
        if items == map[] {
          return Success([]);
        }
        return Failure(NullReference);
      }
      var itemsOfSharer := sharersWithItems[sharerId];
      var list: seq<Item> := [];
      var keys := items.Keys;
      while keys != {}
        invariant keys <= items.Keys
        invariant forall it :: it in list <==>
                    it.id in items && items[it.id] == it && it.id in itemsOfSharer && it.id !in keys
        invariant forall i, j :: 0 <= i < j < |list| ==> list[i].id != list[j].id
        decreases keys
      {
        var id :| id in keys;
        if id in itemsOfSharer {
          list := list + [items[id]];
        }
        keys := keys - {id};
      }
      return Success(list);
    }

    /** `findByText`: the matching items, each once, in the map's iteration order. */
    method FindByText(text: string) returns (r: seq<Item>)
      ensures forall it :: it in r <==> it in items.Values && MatchesText(it, text)
      ensures forall i, j :: 0 <= i < j < |r| ==> r[i] != r[j]
    {
      r := [];
      var rest := items.Values;
      while rest != {}
        invariant rest <= items.Values
        invariant forall it :: it in r <==> it in items.Values && it !in rest && MatchesText(it, text)
        invariant forall i, j :: 0 <= i < j < |r| ==> r[i] != r[j]
        decreases rest
      {
        var item :| item in rest;
        if MatchesText(item, text) {
          r := r + [item];
        }
        rest := rest - {item};
      }
    }

    /** `save`: the item takes the counter as its id and is indexed under its owner, creating the owner's set if needed. */
    method Save(item: Item) returns (saved: Item)
      requires Valid()
      modifies this
      ensures Valid()
      ensures saved == item.(id := old(count)) && saved.id !in old(items)
      ensures count == old(count) + 1
      ensures items == old(items)[saved.id := saved]
      ensures sharersWithItems == old(sharersWithItems)[item.owner :=
                (if item.owner in old(sharersWithItems) then old(sharersWithItems)[item.owner] else {}) + {saved.id}]
    {
      saved := item.(id := count);
      count := count + 1;
      items := items[saved.id := saved];
      var owned := if item.owner in sharersWithItems then sharersWithItems[item.owner] else {};
      sharersWithItems := sharersWithItems[item.owner := owned + {saved.id}];
    }

    /**
     * `update`: the item replaces the stored one when its id is indexed under
     * its owner and stored; otherwise NotFound, and nothing changes.
     */
    method Update(item: Item) returns (r: Result<Item, Error>)
      requires Valid()
      modifies this
      ensures Valid()
      ensures (item.owner !in old(sharersWithItems) || item.id !in old(sharersWithItems)[item.owner]) ==>
                r == Failure(NotFound(ItemOfUser)) && unchanged(this)
      ensures (item.owner in old(sharersWithItems) && item.id in old(sharersWithItems)[item.owner]
               && item.id !in old(items)) ==> r == Failure(NotFound(ItemEntity)) && unchanged(this)
      ensures r.Success? <==> item.owner in old(sharersWithItems) && item.id in old(sharersWithItems)[item.owner]
                              && item.id in old(items)
      ensures r.Success? ==> r.value == item && items == old(items)[item.id := item]
                             && sharersWithItems == old(sharersWithItems) && count == old(count)
    {
      if item.owner !in sharersWithItems || item.id !in sharersWithItems[item.owner] {
        return Failure(NotFound(ItemOfUser));
      }
      if item.id in items {
        items := items[item.id := item];
        r := Success(item);
      } else {
        r := Failure(NotFound(ItemEntity));
      }
    }

    /** `deleteById`: only the items map changes; the owner index keeps the id. */
    method DeleteById(id: nat)
      requires Valid()
      modifies this
      ensures Valid()
      ensures items == old(items) - {id} && sharersWithItems == old(sharersWithItems) && count == old(count)
    {
      items := items - {id};
    }

    /** `deleteAll`: the items map is emptied; the owner index and the counter stay. */
    method DeleteAll()
      requires Valid()
      modifies this
      ensures Valid()
      ensures items == map[] && sharersWithItems == old(sharersWithItems) && count == old(count)
    {
      items := map[];
    }
  }

  /**
   * On an available item the in-memory search and the JPA search agree; on
   * an unavailable one the in-memory search never matches while the JPA
   * search still matches by name.
   */
  lemma SearchesAgreeOnAvailableItems(item: Item, text: string)
    ensures item.available ==> (MatchesText(item, text) <==> SrcItemRepository.MatchesText(item, text))
    ensures !item.available ==> !MatchesText(item, text)
  {
    CaseFoldsAgree(item.name, text);
    CaseFoldsAgree(item.description, text);
  }
}
