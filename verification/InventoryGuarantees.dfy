/** What the paging contract means: soundness against any server, completeness against an honest
    one, and the reach of the production limits. */
module InventoryGuarantees {
  import opened Common
  import opened InventoryPaging

  lemma {:induction false} AcceptedPrefix(exchanges: seq<Exchange>, limits: Limits, k: nat)
    requires Accepted(exchanges, limits) && k < |exchanges|
    ensures Accepted(exchanges[..k], limits) && Unfinished(exchanges[..k])
    ensures exchanges[k].offset == |Received(exchanges[..k])| && exchanges[k].response.Page?
    ensures Fits(exchanges[..k], exchanges[k].response.bodyBytes, exchanges[k].response.page, limits)
  {
    var n := |exchanges| - 1;
    if k < n {
      AcceptedPrefix(exchanges[..n], limits, k);
      assert exchanges[..n][..k] == exchanges[..k];
    }
  }

  /** Against any server at all, a result is made of pages that agree on total and time stamp, each
      asked for at the offset of the items already held and none longer than a page may be; it has
      exactly `total` items, no name twice, and stayed within every budget. */
  lemma FetchIsSound(
    server: Server, limits: Limits, raw: RawInventory, exchanges: seq<Exchange>)
    requires Contract(server, limits, Ok(raw), exchanges)
    ensures raw.items == Received(exchanges) && |raw.items| == raw.total <= limits.maxItems
    ensures Distinct(Map(raw.items, Name))
    ensures 1 <= |exchanges| <= limits.maxPages && BodyBytes(exchanges) <= limits.maxBodyBytes
    ensures forall k :: 0 <= k < |exchanges| ==>
      && exchanges[k].offset == |Received(exchanges[..k])| < raw.total + 1
      && exchanges[k].response == server(k, exchanges[k].offset) && exchanges[k].response.Page?
      && exchanges[k].response.page.total == raw.total
      && exchanges[k].response.page.lastUpdatedAt == raw.refreshedAt
      && |exchanges[k].response.page.items| <= 100
      && (k < |exchanges| - 1 ==> exchanges[k].response.page.items != [])
  {
    var n := |exchanges| - 1;
    forall k | 0 <= k <= n
      ensures exchanges[k].offset == |Received(exchanges[..k])| < raw.total + 1
      ensures exchanges[k].response == server(k, exchanges[k].offset)
      ensures exchanges[k].response.Page?
      ensures exchanges[k].response.page.total == raw.total
      ensures exchanges[k].response.page.lastUpdatedAt == raw.refreshedAt
      ensures |exchanges[k].response.page.items| <= 100
      ensures k < |exchanges| - 1 ==> exchanges[k].response.page.items != []
    {
      AcceptedPrefix(exchanges, limits, k);
      SameHeader(exchanges, limits, k);
      SameHeader(exchanges, limits, n);
      if k < n {
        AcceptedPrefix(exchanges, limits, k + 1);
        assert exchanges[..k + 1][k] == exchanges[k];
      }
    }
  }

  /** A call is unreachable exactly if its last request got no answer, and otherwise it is the
      contract that is broken. */
  lemma FetchErrorsAreTrue(
    server: Server, limits: Limits, error: FetchError, exchanges: seq<Exchange>)
    requires Contract(server, limits, Err(error), exchanges)
    ensures error == Unreachable <==>
      exchanges != [] && exchanges[|exchanges| - 1].response == TransportFailure
    ensures forall k :: 0 <= k < |exchanges| - 1 ==> exchanges[k].response.Page?
  {
    forall k | 0 <= k < |exchanges| - 1 ensures exchanges[k].response.Page? {
      AcceptedPrefix(exchanges[..|exchanges| - 1], limits, k);
    }
  }

  lemma SameHeader(exchanges: seq<Exchange>, limits: Limits, k: nat)
    requires Accepted(exchanges, limits) && k < |exchanges|
    ensures exchanges[k].response.Page? && exchanges[0].response.Page?
    ensures exchanges[k].response.page.total == exchanges[0].response.page.total
    ensures exchanges[k].response.page.lastUpdatedAt == exchanges[0].response.page.lastUpdatedAt
  {
    AcceptedPrefix(exchanges, limits, k);
    AcceptedPrefix(exchanges, limits, 0);
    assert k > 0 ==> exchanges[..k][0] == exchanges[0];
  }

  // ---------------------------------------------------------------- an honest server

  /** A fixed list with distinct names, served in slices. `cut` is the length of the slice at an
      offset and `bodyBytes` the length of its encoding. */
  datatype Listing = Listing(
    items: seq<InventoryItem>, refreshedAt: Option<string>, cut: nat -> nat, bodyBytes: nat -> nat)

  ghost predicate WellCut(listing: Listing) {
    && Distinct(Map(listing.items, Name))
    && forall o: nat :: o < |listing.items| ==>
         1 <= listing.cut(o) <= 100 && o + listing.cut(o) <= |listing.items|
  }

  function SliceEnd(listing: Listing, o: nat): nat {
    if o < |listing.items| && o + listing.cut(o) <= |listing.items| then o + listing.cut(o)
    else |listing.items|
  }

  function Serve(listing: Listing, o: nat): Response
    requires o <= |listing.items|
  {
    Page(listing.bodyBytes(o),
      InventoryPage(|listing.items|, listing.refreshedAt, listing.items[o..SliceEnd(listing, o)]))
  }

  ghost predicate Honest(server: Server, listing: Listing) {
    forall k: nat, o: nat :: o <= |listing.items| ==> server(k, o) == Serve(listing, o)
  }

  /** Pages needed from an offset on; an empty list still takes one. */
  function PagesFrom(listing: Listing, o: nat): nat
    requires o <= |listing.items|
    decreases |listing.items| - o
  {
    var end := SliceEnd(listing, o);
    if o < end < |listing.items| then 1 + PagesFrom(listing, end) else 1
  }

  function BytesFrom(listing: Listing, o: nat): nat
    requires o <= |listing.items|
    decreases |listing.items| - o
  {
    var end := SliceEnd(listing, o);
    listing.bodyBytes(o) + if o < end < |listing.items| then BytesFrom(listing, end) else 0
  }

  /** After any number of accepted exchanges with an honest server the items held are a prefix of
      its list, and pages and bytes spent and still needed add up to those of the whole. */
  lemma {:induction false} HonestProgress(
    server: Server, limits: Limits, listing: Listing, exchanges: seq<Exchange>)
    requires WellCut(listing) && Honest(server, listing) && Accepted(exchanges, limits)
    requires forall k :: 0 <= k < |exchanges| ==>
      exchanges[k].response == server(k, exchanges[k].offset)
    ensures |Received(exchanges)| <= |listing.items|
    ensures Received(exchanges) == listing.items[..|Received(exchanges)|]
    ensures exchanges != [] ==>
      && exchanges[|exchanges| - 1].response.Page?
      && exchanges[|exchanges| - 1].response.page.total == |listing.items|
    ensures exchanges == [] || Unfinished(exchanges) ==>
      && |exchanges| + PagesFrom(listing, |Received(exchanges)|) == PagesFrom(listing, 0)
      && BodyBytes(exchanges) + BytesFrom(listing, |Received(exchanges)|) == BytesFrom(listing, 0)
    ensures exchanges != [] && |Received(exchanges)| == |listing.items| ==>
      |exchanges| == PagesFrom(listing, 0) && BodyBytes(exchanges) == BytesFrom(listing, 0)
  {
    if exchanges != [] {
      var n := |exchanges| - 1;
      HonestProgress(server, limits, listing, exchanges[..n]);
      var o := |Received(exchanges[..n])|;
      var end := SliceEnd(listing, o);
      assert exchanges[n].response == Serve(listing, o);
      SlicesJoin(listing.items, o, end);
      assert Received(exchanges) == listing.items[..end];
    }
  }

  lemma SlicesJoin<T>(xs: seq<T>, i: nat, j: nat)
    requires i <= j <= |xs|
    ensures xs[..i] + xs[i..j] == xs[..j]
  {
  }

  lemma HonestPrefix(server: Server, limits: Limits, listing: Listing, earlier: seq<Exchange>)
    requires WellCut(listing) && Honest(server, listing)
    requires Accepted(earlier, limits) && Unfinished(earlier)
    requires forall k :: 0 <= k < |earlier| ==> earlier[k].response == server(k, earlier[k].offset)
    ensures |Received(earlier)| <= |listing.items|
    ensures Received(earlier) == listing.items[..|Received(earlier)|]
    ensures BodyBytes(earlier) + listing.bodyBytes(|Received(earlier)|) <= BytesFrom(listing, 0)
  {
    HonestProgress(server, limits, listing, earlier);
  }

  /** What an honest server sends next always fits, as far as the budgets allow. */
  lemma HonestPageFits(server: Server, limits: Limits, listing: Listing, earlier: seq<Exchange>)
    requires WellCut(listing) && Honest(server, listing)
    requires Accepted(earlier, limits) && Unfinished(earlier)
    requires forall k :: 0 <= k < |earlier| ==> earlier[k].response == server(k, earlier[k].offset)
    requires |listing.items| <= limits.maxItems && BytesFrom(listing, 0) <= limits.maxBodyBytes
    ensures |Received(earlier)| <= |listing.items|
    ensures var next := Serve(listing, |Received(earlier)|);
      Fits(earlier, next.bodyBytes, next.page, limits)
  {
    HonestPrefix(server, limits, listing, earlier);
    var o := |Received(earlier)|;
    var end := SliceEnd(listing, o);
    SlicesJoin(listing.items, o, end);
    PrefixDistinct(listing.items, end);
    if earlier != [] {
      FirstIsServed(server, limits, listing, earlier);
    }
  }

  /** So the last exchange of a call is accepted too, and leaves nothing but the rest to ask for. */
  lemma HonestCallIsAccepted(
    server: Server, limits: Limits, listing: Listing, exchanges: seq<Exchange>)
    requires WellCut(listing) && Honest(server, listing)
    requires exchanges != [] && Sent(server, limits, exchanges)
    requires |listing.items| <= limits.maxItems && BytesFrom(listing, 0) <= limits.maxBodyBytes
    ensures Accepted(exchanges, limits)
    ensures Unfinished(exchanges) || |Received(exchanges)| == |listing.items|
  {
    var n := |exchanges| - 1;
    var earlier := exchanges[..n];
    HonestPageFits(server, limits, listing, earlier);
    assert exchanges[n].response == Serve(listing, |Received(earlier)|);
  }

  /** The first accepted page is the listing's first slice. */
  lemma FirstIsServed(server: Server, limits: Limits, listing: Listing, exchanges: seq<Exchange>)
    requires Honest(server, listing) && exchanges != [] && Accepted(exchanges, limits)
    requires exchanges[0].response == server(0, exchanges[0].offset)
    ensures exchanges[0].response == Serve(listing, 0)
  {
    AcceptedPrefix(exchanges, limits, 0);
  }

  lemma PrefixDistinct(items: seq<InventoryItem>, end: nat)
    requires end <= |items| && Distinct(Map(items, Name))
    ensures Distinct(Map(items[..end], Name))
  {
    var all, prefix := Map(items, Name), Map(items[..end], Name);
    assert forall i :: 0 <= i < end ==> prefix[i] == all[i];
  }

  /** Against an honest server the call returns the whole list, in order, exactly when the list and
      its pages fit the limits, however the server cuts it. */
  lemma FetchIsComplete(
    server: Server, limits: Limits, listing: Listing,
    result: Result<RawInventory, FetchError>, exchanges: seq<Exchange>)
    requires Contract(server, limits, result, exchanges)
    requires WellCut(listing) && Honest(server, listing)
    ensures result.Ok? <==>
      && |listing.items| <= limits.maxItems
      && PagesFrom(listing, 0) <= limits.maxPages
      && BytesFrom(listing, 0) <= limits.maxBodyBytes
    ensures result.Ok? ==>
      result.value == RawInventory(|listing.items|, listing.refreshedAt, listing.items)
  {
    if result.Ok? {
      FetchIsSound(server, limits, result.value, exchanges);
      HonestProgress(server, limits, listing, exchanges);
      assert exchanges[0].response == Serve(listing, 0);
    } else if |listing.items| <= limits.maxItems && BytesFrom(listing, 0) <= limits.maxBodyBytes {
      if exchanges != [] {
        HonestCallIsAccepted(server, limits, listing, exchanges);
        HonestProgress(server, limits, listing, exchanges);
      }
    }
  }

  lemma {:induction false} FullPages(listing: Listing, o: nat)
    requires o <= |listing.items|
    requires forall p: nat :: p < |listing.items| ==>
      listing.cut(p) == Min(100, |listing.items| - p)
    ensures PagesFrom(listing, o) ==
      if o == |listing.items| then 1
      else (|listing.items| - o + 99) / 100
    decreases |listing.items| - o
  {
    if o < SliceEnd(listing, o) < |listing.items| {
      FullPages(listing, SliceEnd(listing, o));
    }
  }

  /** With full pages the production page limit never cuts off a list the item limit admits. */
  lemma FullPagesAlwaysFit(
    server: Server, listing: Listing,
    result: Result<RawInventory, FetchError>, exchanges: seq<Exchange>)
    requires Contract(server, INVENTORY_LIMITS, result, exchanges)
    requires WellCut(listing) && Honest(server, listing)
    requires forall p: nat :: p < |listing.items| ==>
      listing.cut(p) == Min(100, |listing.items| - p)
    ensures result.Ok? <==>
      |listing.items| <= 100_000 && BytesFrom(listing, 0) <= 134_217_728
  {
    FetchIsComplete(server, INVENTORY_LIMITS, listing, result, exchanges);
    FullPages(listing, 0);
  }
}
