/** Paging and joining together: the inventory a user sees depends on what the provider has and on
    the catalog, and on nothing else. */
module InventoryResult {
  import opened Common
  import opened Ordering
  import opened InventoryPaging
  import opened InventoryGuarantees
  import opened Catalog
  import opened InventoryMapping

  /** What a call of `component_inventory` promises. */
  ghost predicate InventoryContract(
    server: Server, limits: Limits, first: Snapshot, second: Snapshot,
    result: Result<Inventory, FetchError>, exchanges: seq<Exchange>)
  {
    exists fetched {:trigger Contract(server, limits, fetched, exchanges)} ::
      && Contract(server, limits, fetched, exchanges)
      && match fetched
         case Ok(raw) => Joins(raw, first, second, result)
         case Err(error) => result == Err(error)
  }

  /** `component_inventory`. */
  method ComponentInventory(server: Server, limits: Limits, first: Snapshot, second: Snapshot)
    returns (result: Result<Inventory, FetchError>, exchanges: seq<Exchange>)
    ensures InventoryContract(server, limits, first, second, result, exchanges)
  {
    var fetched;
    fetched, exchanges := FetchPages(server, limits);
    if fetched.Err? {
      return Err(fetched.error), exchanges;
    }
    var refreshed;
    result, refreshed := JoinInventory(fetched.value, first, second);
  }

  // ---------------------------------------------------------------- arrangement

  /** The same item, with its installations in any order. */
  ghost predicate SameItem(item: InventoryItem, other: InventoryItem) {
    && other.(installations := []) == item.(installations := [])
    && multiset(item.installations) == multiset(other.installations)
  }

  /** The same items in any order, each with its installations in any order. */
  ghost predicate Rearranged(items: seq<InventoryItem>, others: seq<InventoryItem>) {
    exists order: seq<InventoryItem> :: RearrangedBy(items, others, order)
  }

  ghost predicate RearrangedBy(
    items: seq<InventoryItem>, others: seq<InventoryItem>, order: seq<InventoryItem>)
  {
    && multiset(order) == multiset(items) && |order| == |others|
    && forall i :: 0 <= i < |order| ==> SameItem(order[i], others[i])
  }

  /** No item is installed twice in an environment. */
  ghost predicate InstalledOnce(items: seq<InventoryItem>) {
    forall item :: item in items ==> Distinct(Map(item.installations, InstallationId))
  }

  lemma MapIgnoresArrangement(
    raw: RawInventory, other: RawInventory, index: Index, all: seq<Located>)
    requires Indexes(index, all)
    requires other.(items := []) == raw.(items := []) && Rearranged(raw.items, other.items)
    requires Distinct(Map(raw.items, Name)) && InstalledOnce(raw.items)
    ensures MapInventory(raw, index) == MapInventory(other, index)
  {
    var order: seq<InventoryItem> :| RearrangedBy(raw.items, other.items, order);
    IndexHasOwnIds(index, all);
    ItemOrderIrrelevant(raw, raw.(items := order), index);
    assert InstalledOnce(order) by {
      SameMultiset(order, raw.items);
    }
    ItemsMapAlike(order, other.items, index);
  }

  lemma ItemsMapAlike(items: seq<InventoryItem>, others: seq<InventoryItem>, index: Index)
    requires OwnIds(index) && InstalledOnce(items) && |items| == |others|
    requires forall i :: 0 <= i < |items| ==> SameItem(items[i], others[i])
    ensures Map(items, (item: InventoryItem) => MapItem(item, index))
         == Map(others, (item: InventoryItem) => MapItem(item, index))
  {
    forall i | 0 <= i < |items| ensures MapItem(items[i], index) == MapItem(others[i], index) {
      assert items[i] in items;
      InstallationOrderIrrelevant(items[i], others[i], index);
    }
  }

  lemma FoundIgnoresArrangement(raw: RawInventory, other: RawInventory, all: seq<Located>)
    requires Rearranged(raw.items, other.items)
    ensures AllFound(raw, all) <==> AllFound(other, all)
  {
    var order: seq<InventoryItem> :| RearrangedBy(raw.items, other.items, order);
    SameMultiset(order, raw.items);
    FoundByMembers(raw, all);
    FoundByMembers(other, all);
    FoundByMembers(raw.(items := order), all);
    forall i | 0 <= i < |order|
      ensures ItemFound(order[i], all) <==> ItemFound(other.items[i], all)
    {
      SameMultiset(order[i].installations, other.items[i].installations);
    }
    assert forall item :: item in order <==> item in raw.items;
    if AllFound(other, all) {
      forall item | item in order ensures ItemFound(item, all) {
        var i :| 0 <= i < |order| && order[i] == item;
        assert other.items[i] in other.items;
      }
    }
    if AllFound(raw, all) {
      forall item | item in other.items ensures ItemFound(item, all) {
        var i :| 0 <= i < |order| && other.items[i] == item;
        assert order[i] in order;
      }
    }
  }

  ghost predicate ItemFound(item: InventoryItem, all: seq<Located>) {
    forall installation :: installation in item.installations ==>
      FindEnvironment(all, installation.id).Some?
  }

  lemma FoundByMembers(raw: RawInventory, all: seq<Located>)
    ensures AllFound(raw, all) <==> forall item :: item in raw.items ==> ItemFound(item, all)
  {
    if forall item :: item in raw.items ==> ItemFound(item, all) {
      forall i, j | 0 <= i < |raw.items| && 0 <= j < |raw.items[i].installations|
        ensures FindEnvironment(all, raw.items[i].installations[j].id).Some?
      {
        assert ItemFound(raw.items[i], all);
        assert raw.items[i].installations[j] in raw.items[i].installations;
      }
    }
  }

  /** A catalog has one index. */
  lemma IndexIsUnique(index: Index, other: Index, all: seq<Located>)
    requires Indexes(index, all) && Indexes(other, all)
    ensures index == other
  {
    forall id ensures id in index <==> id in other {
      assert id in index ==> LocatedId(FindEnvironment(all, id).value) == id;
      assert id in other ==> LocatedId(FindEnvironment(all, id).value) == id;
    }
  }

  /** Joining does not see the arrangement of what was fetched. */
  lemma JoinIgnoresArrangement(
    raw: RawInventory, other: RawInventory, first: Snapshot, second: Snapshot,
    result: Result<Inventory, FetchError>, result': Result<Inventory, FetchError>)
    requires Joins(raw, first, second, result) && Joins(other, first, second, result')
    requires other.(items := []) == raw.(items := []) && Rearranged(raw.items, other.items)
    requires Distinct(Map(raw.items, Name)) && InstalledOnce(raw.items)
    ensures result == result'
  {
    if first.Ok? {
      FoundIgnoresArrangement(raw, other, AllEnvironments(first.value));
    }
    var used := if NeedsRefresh(raw, first) then second else first;
    if used.Ok? {
      var all := AllEnvironments(used.value);
      FoundIgnoresArrangement(raw, other, all);
      if result.Ok? {
        var index :| Indexes(index, all) && MapInventory(raw, index) == Some(result.value);
        var index' :| Indexes(index', all) && MapInventory(other, index') == Some(result'.value);
        IndexIsUnique(index, index', all);
        MapIgnoresArrangement(raw, other, index, all);
      }
    }
  }

  // ---------------------------------------------------------------- the whole call

  ghost predicate Within(listing: Listing, limits: Limits) {
    && |listing.items| <= limits.maxItems
    && PagesFrom(listing, 0) <= limits.maxPages
    && BytesFrom(listing, 0) <= limits.maxBodyBytes
  }

  function Whole(listing: Listing): RawInventory {
    RawInventory(|listing.items|, listing.refreshedAt, listing.items)
  }

  /** Against an honest server the call succeeds exactly if the list is within the limits and the
      catalog that decides, fetched once more if need be, knows every installation. */
  lemma InventoryIsComplete(
    server: Server, limits: Limits, first: Snapshot, second: Snapshot, listing: Listing,
    result: Result<Inventory, FetchError>, exchanges: seq<Exchange>)
    requires InventoryContract(server, limits, first, second, result, exchanges)
    requires WellCut(listing) && Honest(server, listing)
    ensures result.Ok? <==>
      && Within(listing, limits)
      && Joinable(Whole(listing), if NeedsRefresh(Whole(listing), first) then second else first)
    ensures Within(listing, limits) ==> Joins(Whole(listing), first, second, result)
  {
    var fetched :| Contract(server, limits, fetched, exchanges)
      && match fetched
         case Ok(raw) => Joins(raw, first, second, result)
         case Err(error) => result == Err(error);
    FetchIsComplete(server, limits, listing, fetched, exchanges);
  }

  /** Two honest servers with the same items, each in any order and with its installations in any
      order, cut into pages in any way, give the same outcome, inventory or error, whenever what
      they serve is within the limits; and where one succeeds it is. */
  lemma PagingIsInvisible(
    limits: Limits, first: Snapshot, second: Snapshot,
    server: Server, listing: Listing,
    result: Result<Inventory, FetchError>, exchanges: seq<Exchange>,
    server': Server, listing': Listing,
    result': Result<Inventory, FetchError>, exchanges': seq<Exchange>)
    requires InventoryContract(server, limits, first, second, result, exchanges)
    requires InventoryContract(server', limits, first, second, result', exchanges')
    requires WellCut(listing) && Honest(server, listing)
    requires WellCut(listing') && Honest(server', listing')
    requires Rearranged(listing.items, listing'.items) && InstalledOnce(listing.items)
    requires listing.refreshedAt == listing'.refreshedAt
    ensures Within(listing, limits) && Within(listing', limits) ==> result == result'
    ensures result.Ok? ==> Within(listing, limits)
    ensures result.Ok? && result'.Ok? ==> result == result'
  {
    InventoryIsComplete(server, limits, first, second, listing, result, exchanges);
    InventoryIsComplete(server', limits, first, second, listing', result', exchanges');
    if Within(listing, limits) && Within(listing', limits) {
      var order: seq<InventoryItem> :| RearrangedBy(listing.items, listing'.items, order);
      assert |multiset(order)| == |order| && |multiset(listing.items)| == |listing.items|;
      JoinIgnoresArrangement(
        Whole(listing), Whole(listing'), first, second, result, result');
    }
  }
}
