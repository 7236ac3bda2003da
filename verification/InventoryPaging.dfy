/** `fetch_inventory_pages_inner` against an arbitrary server. Transport and decoding are the
    server's: it answers a request with a decoded page and its length in bytes, or fails. */
module InventoryPaging {
  import opened Common

  datatype Installation = Installation(id: string, status: string, version: string)

  datatype InventoryItem = InventoryItem(
    name: string, title: string, latestVersion: Option<string>, installations: seq<Installation>)

  datatype InventoryPage =
    InventoryPage(total: nat, lastUpdatedAt: Option<string>, items: seq<InventoryItem>)

  datatype Response = TransportFailure | Page(bodyBytes: nat, page: InventoryPage)

  /** What the server answers to the k-th request, asked for a given offset. */
  type Server = (nat, nat) -> Response

  datatype Exchange = Exchange(offset: nat, response: Response)

  datatype Limits = Limits(maxItems: nat, maxPages: nat, maxBodyBytes: nat)

  const INVENTORY_PAGE_SIZE := 100
  const INVENTORY_LIMITS := Limits(100_000, 1_000, 128 * 1024 * 1024)

  datatype RawInventory =
    RawInventory(total: nat, refreshedAt: Option<string>, items: seq<InventoryItem>)

  datatype FetchError = Unreachable | ContractBroken

  function Name(item: InventoryItem): string {
    item.name
  }

  /** All items received, in order. */
  function Received(exchanges: seq<Exchange>): seq<InventoryItem> {
    if exchanges == [] then []
    else
      var n := |exchanges| - 1;
      Received(exchanges[..n])
      + if exchanges[n].response.Page? then exchanges[n].response.page.items else []
  }

  function BodyBytes(exchanges: seq<Exchange>): nat {
    if exchanges == [] then 0
    else
      var n := |exchanges| - 1;
      BodyBytes(exchanges[..n])
      + if exchanges[n].response.Page? then exchanges[n].response.bodyBytes else 0
  }

  /** The page fits what was received before it and the limits. */
  ghost predicate Fits(
    earlier: seq<Exchange>, bodyBytes: nat, page: InventoryPage, limits: Limits)
  {
    var items := Received(earlier) + page.items;
    && BodyBytes(earlier) + bodyBytes <= limits.maxBodyBytes
    && page.total <= limits.maxItems
    && (earlier != [] && earlier[0].response.Page? ==>
          page.total == earlier[0].response.page.total
          && page.lastUpdatedAt == earlier[0].response.page.lastUpdatedAt)
    && Distinct(Map(items, Name))
    && |page.items| <= INVENTORY_PAGE_SIZE
    && |items| <= page.total
  }

  /** More pages are to be asked for: the last one had items, and they were not all. */
  ghost predicate Unfinished(exchanges: seq<Exchange>) {
    exchanges == []
    || (var last := exchanges[|exchanges| - 1].response;
        last.Page? && last.page.items != [] && |Received(exchanges)| < last.page.total)
  }

  /** Exchanges none of which gave a reason to stop with an error. */
  ghost predicate Accepted(exchanges: seq<Exchange>, limits: Limits) {
    exchanges == []
    || (var n := |exchanges| - 1;
        var last := exchanges[n];
        && Accepted(exchanges[..n], limits) && Unfinished(exchanges[..n])
        && last.offset == |Received(exchanges[..n])| && last.response.Page?
        && Fits(exchanges[..n], last.response.bodyBytes, last.response.page, limits))
  }

  /** The server answered every request, and every request was needed, within the page limit, and
      asked for the next offset. */
  ghost predicate Sent(server: Server, limits: Limits, exchanges: seq<Exchange>) {
    && |exchanges| <= limits.maxPages
    && (forall k :: 0 <= k < |exchanges| ==>
          exchanges[k].response == server(k, exchanges[k].offset))
    && (exchanges != [] ==>
          var n := |exchanges| - 1;
          && Accepted(exchanges[..n], limits) && Unfinished(exchanges[..n])
          && exchanges[n].offset == |Received(exchanges[..n])|)
  }

  /** What a call sends and returns. Success is the accepted whole, and an error has a cause in the
      last exchange or in the page limit. */
  ghost predicate Contract(
    server: Server, limits: Limits,
    result: Result<RawInventory, FetchError>, exchanges: seq<Exchange>)
  {
    && Sent(server, limits, exchanges)
    && match result
       case Ok(raw) =>
         && exchanges != [] && Accepted(exchanges, limits)
         && raw.items == Received(exchanges) && |raw.items| == raw.total
         && raw.total == exchanges[|exchanges| - 1].response.page.total
         && exchanges[0].response.Page?
         && raw.refreshedAt == exchanges[0].response.page.lastUpdatedAt
       case Err(Unreachable) =>
         exchanges != [] && exchanges[|exchanges| - 1].response.TransportFailure?
       case Err(ContractBroken) =>
         if Accepted(exchanges, limits)
         then if Unfinished(exchanges) then |exchanges| == limits.maxPages
              else exchanges[|exchanges| - 1].response.page.items == []
                   && |Received(exchanges)| < exchanges[|exchanges| - 1].response.page.total
         else exchanges[|exchanges| - 1].response.Page?
  }

  function NamesOf(items: seq<InventoryItem>): set<string> {
    set item | item in items :: item.name
  }

  lemma NamesOfConcat(front: seq<InventoryItem>, back: seq<InventoryItem>)
    ensures NamesOf(front + back) == NamesOf(front) + NamesOf(back)
  {
    forall name | name in NamesOf(front) + NamesOf(back) ensures name in NamesOf(front + back) {
      var item :| (item in front || item in back) && item.name == name;
      assert item in front + back;
    }
  }

  lemma NameRepeats(items: seq<InventoryItem>, k: nat)
    requires k < |items| && items[k].name in NamesOf(items[..k])
    ensures !Distinct(Map(items, Name))
  {
    var item :| item in items[..k] && item.name == items[k].name;
    var i :| 0 <= i < k && items[i] == item;
    var mapped := Map(items, Name);
    assert mapped[i] == mapped[k];
  }

  lemma NextName(items: seq<InventoryItem>, k: nat)
    requires k < |items| && Distinct(Map(items[..k], Name))
    ensures NamesOf(items[..k + 1]) == NamesOf(items[..k]) + {items[k].name}
    ensures items[k].name !in NamesOf(items[..k]) ==> Distinct(Map(items[..k + 1], Name))
  {
    assert items[..k + 1] == items[..k] + [items[k]];
    NamesOfConcat(items[..k], [items[k]]);
    var longer, shorter := Map(items[..k + 1], Name), Map(items[..k], Name);
    assert forall i :: 0 <= i < k ==> longer[i] == shorter[i];
  }

  /** Insert names one by one until one is there already. */
  method AddNames(names: set<string>, items: seq<InventoryItem>)
    returns (duplicate: bool, all: set<string>)
    ensures !duplicate ==> all == names + NamesOf(items)
    ensures !duplicate <==>
      Distinct(Map(items, Name)) && forall i :: 0 <= i < |items| ==> items[i].name !in names
  {
    all := names;
    duplicate := false;
    for k := 0 to |items|
      invariant all == names + NamesOf(items[..k])
      invariant Distinct(Map(items[..k], Name))
      invariant forall i :: 0 <= i < k ==> items[i].name !in names
    {
      if items[k].name in all {
        if items[k].name !in names {
          NameRepeats(items, k);
        }
        return true, all;
      }
      NextName(items, k);
      all := all + {items[k].name};
    }
    assert items[..|items|] == items;
  }

  lemma DistinctConcat(front: seq<InventoryItem>, back: seq<InventoryItem>, names: set<string>)
    requires Distinct(Map(front, Name))
    requires names == NamesOf(front)
    ensures Distinct(Map(front + back, Name)) <==>
      Distinct(Map(back, Name)) && forall i :: 0 <= i < |back| ==> back[i].name !in names
  {
    assert forall i :: 0 <= i < |front| ==> front[i].name in names;
    var all, fs, bs := Map(front + back, Name), Map(front, Name), Map(back, Name);
    assert all == fs + bs;
    if Distinct(all) {
      forall i, j | 0 <= i < j < |bs| ensures bs[i] != bs[j] {
        assert all[|fs| + i] != all[|fs| + j];
      }
      forall i | 0 <= i < |back| ensures back[i].name !in names {
        forall j | 0 <= j < |front| ensures front[j].name != back[i].name {
          assert all[j] != all[|fs| + i];
        }
      }
    }
  }

  /** The running totals of the loop. */
  datatype Held = Held(
    expectedTotal: Option<nat>, refreshedAt: Option<string>, items: seq<InventoryItem>,
    names: set<string>, bodyBytes: nat)

  ghost predicate Tracks(exchanges: seq<Exchange>, held: Held) {
    && held.items == Received(exchanges) && held.bodyBytes == BodyBytes(exchanges)
    && Distinct(Map(held.items, Name))
    && held.names == NamesOf(held.items)
    && (if exchanges == [] then held.expectedTotal.None?
        else exchanges[0].response.Page?
             && held.expectedTotal == Some(exchanges[0].response.page.total)
             && held.refreshedAt == exchanges[0].response.page.lastUpdatedAt)
  }

  /** A page that fits brings the totals up to date. */
  lemma TracksMore(
    earlier: seq<Exchange>, held: Held, offset: nat, bodyBytes: nat, page: InventoryPage,
    limits: Limits)
    requires Tracks(earlier, held) && Fits(earlier, bodyBytes, page, limits)
    ensures Tracks(earlier + [Exchange(offset, Page(bodyBytes, page))],
              Held(Some(page.total), page.lastUpdatedAt, held.items + page.items,
                held.names + NamesOf(page.items), held.bodyBytes + bodyBytes))
  {
    NamesOfConcat(held.items, page.items);
    var exchanges := earlier + [Exchange(offset, Page(bodyBytes, page))];
    assert exchanges[..|earlier|] == earlier;
  }

  /** The checks on one page, in the order the loop makes them. */
  method TakePage(
    ghost earlier: seq<Exchange>, held: Held, bodyBytes: nat, page: InventoryPage, limits: Limits)
    returns (ok: bool, held': Held)
    requires Tracks(earlier, held)
    ensures ok <==> Fits(earlier, bodyBytes, page, limits)
    ensures ok ==> forall offset: nat ::
      Tracks(earlier + [Exchange(offset, Page(bodyBytes, page))], held')
  {
    held' := held;
    var total := held.bodyBytes + bodyBytes;
    if total > limits.maxBodyBytes {
      return false, held';
    }
    if page.total > limits.maxItems
       || (held.expectedTotal.Some? && held.expectedTotal.value != page.total) {
      return false, held';
    }
    if held.expectedTotal.Some? && page.lastUpdatedAt != held.refreshedAt {
      return false, held';
    }
    DistinctConcat(held.items, page.items, held.names);
    var duplicate, names := AddNames(held.names, page.items);
    if duplicate || |page.items| > INVENTORY_PAGE_SIZE {
      return false, held';
    }
    var length := |held.items| + |page.items|;
    if length > limits.maxItems || length > page.total {
      return false, held';
    }
    held' := Held(Some(page.total), page.lastUpdatedAt, held.items + page.items, names, total);
    forall offset: nat
      ensures Tracks(earlier + [Exchange(offset, Page(bodyBytes, page))], held')
    {
      TracksMore(earlier, held, offset, bodyBytes, page, limits);
    }
    return true, held';
  }

  /** One more exchange keeps the others accepted, and is accepted itself if its page fits. */
  lemma AcceptedStep(earlier: seq<Exchange>, next: Exchange, limits: Limits)
    requires Accepted(earlier, limits) && Unfinished(earlier)
    requires next.offset == |Received(earlier)|
    ensures (earlier + [next])[..|earlier|] == earlier
    ensures Accepted(earlier + [next], limits) <==>
      next.response.Page? && Fits(earlier, next.response.bodyBytes, next.response.page, limits)
  {
    assert (earlier + [next])[..|earlier|] == earlier;
  }

  lemma SentStep(server: Server, limits: Limits, earlier: seq<Exchange>, next: Exchange)
    requires Sent(server, limits, earlier) && Accepted(earlier, limits) && Unfinished(earlier)
    requires |earlier| < limits.maxPages
    requires next == Exchange(|Received(earlier)|, server(|earlier|, |Received(earlier)|))
    ensures Sent(server, limits, earlier + [next])
  {
    var exchanges := earlier + [next];
    assert exchanges[..|earlier|] == earlier;
    forall k | 0 <= k < |exchanges| ensures exchanges[k].response == server(k, exchanges[k].offset) {
      assert k < |earlier| ==> exchanges[k] == earlier[k];
    }
  }

  /** The paging loop. It ends because every turn uses up a page. */
  method FetchPages(server: Server, limits: Limits)
    returns (result: Result<RawInventory, FetchError>, exchanges: seq<Exchange>)
    ensures Contract(server, limits, result, exchanges)
  {
    var held := Held(None, None, [], {}, 0);
    var offset := 0;
    var pages := 0;
    exchanges := [];
    while true
      invariant |exchanges| == pages && Sent(server, limits, exchanges)
      invariant Accepted(exchanges, limits) && Unfinished(exchanges)
      invariant Tracks(exchanges, held) && offset == |held.items|
      decreases limits.maxPages - pages
    {
      if pages >= limits.maxPages {
        return Err(ContractBroken), exchanges;
      }
      ghost var earlier := exchanges;
      var response := server(pages, offset);
      AcceptedStep(earlier, Exchange(offset, response), limits);
      SentStep(server, limits, earlier, Exchange(offset, response));
      exchanges := exchanges + [Exchange(offset, response)];
      pages := pages + 1;
      if response.TransportFailure? {
        return Err(Unreachable), exchanges;
      }
      var page := response.page;
      var ok;
      ok, held := TakePage(earlier, held, response.bodyBytes, page, limits);
      if !ok {
        return Err(ContractBroken), exchanges;
      }
      if |held.items| == page.total {
        return Ok(RawInventory(page.total, held.refreshedAt, held.items)), exchanges;
      }
      if page.items == [] {
        return Err(ContractBroken), exchanges;
      }
      offset := |held.items|;
    }
  }
}
