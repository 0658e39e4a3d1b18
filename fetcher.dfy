/**
 * The cache-or-fetch helper `fetchNotionData` (index.js:28-70) and the
 * module-level slot `notionCache` it reads and writes.
 *
 * The Notion client's two network calls are an abstract `Upstream` outcome,
 * `Date.now()` is the parameter `now`, and the two environment variables are
 * `Option<string>` parameters.
 */
module Fetcher {
  import opened Wrappers
  import opened Normalizer

  /** `15 * 60 * 1000`: the cache lifetime in milliseconds. */
  const TtlMillis: int := 900000

  /** Answer of `dataSources.query` for the first data source of the table. */
  datatype QueryOutcome = QueryFailed | QueryOk(results: seq<Page>)

  /**
   * What the Notion provider does when asked: `databases.retrieve` rejects,
   * or it answers with the table's data-source ids and the query of the
   * first of them has the outcome `query` (consulted only if there is one).
   */
  datatype Upstream =
    | RetrieveFailed
    | Retrieved(dataSourceIds: seq<string>, query: QueryOutcome)

  /** A value snapshot of `notionCache`; `data == None` is JavaScript `null`. */
  datatype CacheEntry = CacheEntry(data: Option<seq<Item>>, expires: int)

  /** What one call returns and what it leaves in the cache. */
  datatype FetchResult = FetchResult(items: seq<Item>, cache: CacheEntry)

  /** The state at process start: `{ data: null, expires: 0 }`. */
  const InitialEntry: CacheEntry := CacheEntry(None, 0)

  /**
   * `notionCache.data && notionCache.expires > now`. Any array is truthy in
   * JavaScript, so a cached empty sequence is a hit; the comparison is strict.
   */
  predicate IsFresh(e: CacheEntry, now: int)
    ensures IsFresh(e, now) ==> e.data.Some?
    ensures e.expires <= now ==> !IsFresh(e, now)
    ensures e.data == Some([]) && e.expires > now ==> IsFresh(e, now)
  {
    e.data.Some? && e.expires > now
  }

  /** `NOTION_TABLE_ID` and `NOTION_TOKEN` both truthy: set and non-empty. */
  predicate Configured(tableId: Option<string>, token: Option<string>)
    ensures Configured(tableId, token) ==> tableId.Some? && token.Some?
    ensures tableId == Some("") || token == Some("") ==> !Configured(tableId, token)
  {
    tableId.Some? && tableId.value != "" && token.Some? && token.value != ""
  }

  /** The pages the provider yields, when both calls resolve and a data source exists. */
  predicate Answers(u: Upstream, pages: seq<Page>) {
    u.Retrieved? && |u.dataSourceIds| > 0 && u.query == QueryOk(pages)
  }

  /** Both calls resolve and every page can be normalised: no exception in the `try`. */
  predicate Succeeds(u: Upstream)
    ensures Succeeds(u) <==>
              u.Retrieved? && |u.dataSourceIds| > 0 && u.query.QueryOk?
              && forall i :: 0 <= i < |u.query.results| ==> u.query.results[i].properties.Some?
  {
    u.Retrieved? && |u.dataSourceIds| > 0 && u.query.QueryOk? && NormalizeAll(u.query.results).Some?
  }

  /**
   * One call of `fetchNotionData` on the cache state `e` at time `now`, as a
   * value. `DataCache.FetchNotionData` below is specified by it.
   */
  function FetchOutcome(e: CacheEntry, now: int, tableId: Option<string>, token: Option<string>, u: Upstream): (r: FetchResult)
    // a fresh cache entry is returned as it is
    ensures IsFresh(e, now) ==> r.items == e.data.value && r.cache == e
    // missing configuration: empty result, cache untouched
    ensures !IsFresh(e, now) && !Configured(tableId, token) ==> r.items == [] && r.cache == e
    // any failure in the `try`: empty result, cache untouched
    ensures !IsFresh(e, now) && !Succeeds(u) ==> r.items == [] && r.cache == e
    // success: one item per page in order, cached with a new expiry
    ensures !IsFresh(e, now) && Configured(tableId, token) && Succeeds(u) ==>
              |r.items| == |u.query.results|
              && (forall i :: 0 <= i < |r.items| ==> NormalizePage(u.query.results[i]) == Some(r.items[i]))
              && r.cache == CacheEntry(Some(r.items), now + TtlMillis)
    // the cache is either left alone or overwritten in full by the returned sequence
    ensures r.cache == e || r.cache == CacheEntry(Some(r.items), now + TtlMillis)
  {
    if IsFresh(e, now) then FetchResult(e.data.value, e)
    else if !Configured(tableId, token) then FetchResult([], e)
    else match u
      case RetrieveFailed => FetchResult([], e)
      case Retrieved(ids, query) =>
        if |ids| == 0 then FetchResult([], e)
        else match query
          case QueryFailed => FetchResult([], e)
          case QueryOk(pages) =>
            match NormalizeAll(pages)
            case None => FetchResult([], e)
            case Some(mapped) => FetchResult(mapped, CacheEntry(Some(mapped), now + TtlMillis))
  }

  /** The mutable slot `notionCache` with its fetch helper. */
  class DataCache {
    var data: Option<seq<Item>>
    var expires: int

    function Entry(): CacheEntry
      reads this
    {
      CacheEntry(data, expires)
    }

    constructor ()
      ensures Entry() == InitialEntry
    {
      data := None;
      expires := 0;
    }

    /**
     * `fetchNotionData()`. The time is read once, at entry, before either
     * network call, and that value sets the new expiry.
     */
    method FetchNotionData(now: int, tableId: Option<string>, token: Option<string>, u: Upstream)
      returns (items: seq<Item>)
      modifies this
      ensures FetchResult(items, Entry()) == FetchOutcome(old(Entry()), now, tableId, token, u)
      ensures IsFresh(old(Entry()), now) ==> items == old(data).value && unchanged(this)
      ensures !IsFresh(old(Entry()), now) && !(Configured(tableId, token) && Succeeds(u)) ==>
                items == [] && unchanged(this)
      ensures forall pages :: !IsFresh(old(Entry()), now) && Configured(tableId, token) && Succeeds(u) && Answers(u, pages) ==>
                Some(items) == NormalizeAll(pages) && data == Some(items) && expires == now + TtlMillis
    {
      if data.Some? && expires > now {
        return data.value;
      }
      if !Configured(tableId, token) {
        return [];
      }
      match u
      case RetrieveFailed =>
        return [];
      case Retrieved(ids, query) =>
        if |ids| == 0 {
          // `dbResponse.data_sources[0].id` throws
          return [];
        }
        match query
        case QueryFailed =>
          return [];
        case QueryOk(pages) =>
          var mapped := NormalizeAll(pages);
          if mapped.None? {
            return [];
          }
          data := mapped;
          expires := now + TtlMillis;
          return mapped.value;
    }
  }

  /** The cache-hit path makes no use of the configuration or of the provider. */
  lemma HitIgnoresUpstream(e: CacheEntry, now: int, t1: Option<string>, k1: Option<string>, u1: Upstream,
                           t2: Option<string>, k2: Option<string>, u2: Upstream)
    requires IsFresh(e, now)
    ensures FetchOutcome(e, now, t1, k1, u1) == FetchOutcome(e, now, t2, k2, u2)
  {
  }

  /** At `now == expires` the entry is stale: a configured, successful fetch replaces it. */
  lemma ExpiryIsExclusive(e: CacheEntry, tableId: Option<string>, token: Option<string>, u: Upstream)
    requires e.data.Some? && Configured(tableId, token) && Succeeds(u)
    ensures FetchOutcome(e, e.expires, tableId, token, u).cache.expires == e.expires + TtlMillis
  {
  }

  /**
   * After a call that hit the cache or fetched successfully, a later call
   * before the (possibly new) expiry returns the same sequence, whatever the
   * configuration and the provider then do, and changes nothing.
   */
  lemma RepeatWithinTtl(e: CacheEntry, now: int, tableId: Option<string>, token: Option<string>, u: Upstream,
                        later: int, tableId2: Option<string>, token2: Option<string>, u2: Upstream)
    requires IsFresh(e, now) || (Configured(tableId, token) && Succeeds(u))
    requires now <= later < FetchOutcome(e, now, tableId, token, u).cache.expires
    ensures var first := FetchOutcome(e, now, tableId, token, u);
            FetchOutcome(first.cache, later, tableId2, token2, u2) == first
  {
  }

  /**
   * A call that is not configured or whose `try` fails leaves nothing any
   * later call can see: a still-fresh entry is still served, and a stale one
   * makes the next call go to the provider again.
   */
  lemma FailedCallIsInvisible(e: CacheEntry, now: int, tableId: Option<string>, token: Option<string>, u: Upstream,
                              later: int, tableId2: Option<string>, token2: Option<string>, u2: Upstream)
    requires !(Configured(tableId, token) && Succeeds(u))
    ensures FetchOutcome(FetchOutcome(e, now, tableId, token, u).cache, later, tableId2, token2, u2)
            == FetchOutcome(e, later, tableId2, token2, u2)
  {
  }

  /** From the initial state the first call always goes to the provider. */
  lemma InitialIsStale(now: int)
    ensures !IsFresh(InitialEntry, now)
  {
  }
}
