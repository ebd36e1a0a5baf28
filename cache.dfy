/** The popular-posts cache: `updatePopularPosts` replaces the stored list
    with the transform of an analytics response, and `getPopularPosts`
    serves whatever list is stored. Both share the namespace with the
    contact gate's rate-limit entries. */
module PopularCache {
  import opened Wrappers
  import opened Records
  import opened Ranking
  import opened Kv
  import opened Contact

  const PopularKey: string := "popular-posts"
  const FetchFailure: string := "Failed to fetch analytics data"

  /** The analytics call as the refresh sees it: a response that is not ok,
      or an ok response whose body may lack the
      `data.viewer.zones[0].httpRequestsAdaptiveGroups` path (None). */
  datatype AnalyticsResponse = NotOk | Ok(groups: Option<seq<Group>>)

  /** How a refresh ends: the list it stored, or the error it throws. */
  datatype RefreshResult = Refreshed(posts: seq<Post>) | RefreshFailed(message: string)

  /** The records of an ok response; a missing path reads as `[]`. */
  function ResponseGroups(resp: AnalyticsResponse): (gs: seq<Group>)
    requires resp.Ok?
    ensures resp.groups.None? ==> gs == []
    ensures resp.groups.Some? ==> gs == resp.groups.value
  {
    if resp.groups.Some? then resp.groups.value else []
  }

  /** The list `getPopularPosts` serves: the stored list, or `[]` when
      nothing is stored. */
  function Cached(m: Entries, now: int): (ps: seq<Post>)
    ensures PopularKey !in m ==> ps == []
    ensures ps != [] ==> m[PopularKey].value == PostList(ps) && IsLive(m[PopularKey], now)
  {
    match Lookup(m, PopularKey, now)
    case Some(PostList(ps)) => ps
    case _ => []
  }

  /** The store after a refresh: unchanged when the response is not ok,
      otherwise the popular-posts entry replaced whole, with no expiry. */
  function RefreshEntries(m: Entries, resp: AnalyticsResponse, now: int): (r: Entries)
    ensures resp.NotOk? ==> r == m
    ensures r.Keys <= m.Keys + {PopularKey}
    ensures forall k :: k in m && k != PopularKey ==> k in r && r[k] == m[k]
    ensures resp.Ok? ==> PopularKey in r && r[PopularKey].expiry.None? &&
                         r[PopularKey].value == PostList(PopularPosts(ResponseGroups(resp)))
  {
    if resp.NotOk? then m
    else m[PopularKey := Stamp(PostList(PopularPosts(ResponseGroups(resp))), None, now)]
  }

  /** `updatePopularPosts`. */
  method UpdatePopularPosts(store: Store, resp: AnalyticsResponse, now: int) returns (r: RefreshResult)
    modifies store
    ensures resp.NotOk? ==> r == RefreshFailed(FetchFailure) && store.entries == old(store.entries)
    ensures resp.Ok? ==> r == Refreshed(PopularPosts(ResponseGroups(resp)))
    ensures store.entries == RefreshEntries(old(store.entries), resp, now)
  {
    if resp.NotOk? {
      return RefreshFailed(FetchFailure);
    }
    var posts := PopularPosts(ResponseGroups(resp));
    store.Put(PopularKey, PostList(posts), None, now);
    r := Refreshed(posts);
  }

  /** `getPopularPosts`: reads, never writes. */
  method GetPopularPosts(store: Store, now: int) returns (posts: seq<Post>)
    ensures Lookup(store.entries, PopularKey, now).None? ==> posts == []
    ensures forall ps :: Lookup(store.entries, PopularKey, now) == Some(PostList(ps)) ==> posts == ps
    ensures forall t :: Lookup(store.entries, PopularKey, now) == Some(Text(t)) ==> posts == []
    ensures posts == Cached(store.entries, now)
  {
    var data := store.Get(PopularKey, now);
    if data.Some? && data.value.PostList? {
      posts := data.value.posts;
    } else {
      posts := [];
    }
  }

  /** The cache's invariant: either nothing is stored under the cache key,
      or a list of at most five blog posts that never expires. */
  predicate CacheWellFormed(m: Entries)
  {
    PopularKey in m ==>
      m[PopularKey].value.PostList? && m[PopularKey].expiry.None? &&
      |m[PopularKey].value.posts| <= TopCount &&
      forall k :: 0 <= k < |m[PopularKey].value.posts| ==> IsBlogPath(m[PopularKey].value.posts[k].path)
  }

  /** No rate-limit key is the cache key. */
  lemma RateLimitKeyIsNotCacheKey(client: string)
    ensures RateLimitKey(client) != PopularKey
  {
    assert RateLimitKey(client)[0] == 'r';
    assert PopularKey[0] == 'p';
  }

  /** Nothing stored under the cache key reads as the empty list. */
  lemma EmptyBeforeFirstRefresh(m: Entries, now: int)
    requires PopularKey !in m
    ensures Cached(m, now) == []
  {
  }

  /** After an ok refresh, a read at any later time returns exactly the
      list the refresh computed, and an empty one when the response lacked
      the data path. */
  lemma ReadAfterRefresh(m: Entries, resp: AnalyticsResponse, now: int, later: int)
    requires resp.Ok?
    ensures Cached(RefreshEntries(m, resp, now), later) == PopularPosts(ResponseGroups(resp))
    ensures resp.groups.None? ==> Cached(RefreshEntries(m, resp, now), later) == []
  {
  }

  /** A failed refresh leaves the cached list as it was. */
  lemma FailedRefreshKeepsCache(m: Entries, now: int, later: int)
    ensures Cached(RefreshEntries(m, NotOk, now), later) == Cached(m, later)
  {
  }

  /** A refresh never changes whether a client is rate-limited. */
  lemma RefreshKeepsRateLimits(m: Entries, resp: AnalyticsResponse, now: int, client: string, later: int)
    ensures Throttled(RefreshEntries(m, resp, now), client, later) == Throttled(m, client, later)
  {
    if resp.Ok? {
      RateLimitKeyIsNotCacheKey(client);
      LookupAfterPut(m, PopularKey, PostList(PopularPosts(ResponseGroups(resp))), None, now, RateLimitKey(client), later);
    }
  }

  /** A contact submission never changes the cached list. */
  lemma ContactKeepsCache(m: Entries, sub: Submission, header: Option<string>, now: int, later: int)
    ensures Cached(ContactEntries(m, sub, header, now), later) == Cached(m, later)
  {
    var key := RateLimitKey(ClientId(header));
    RateLimitKeyIsNotCacheKey(ClientId(header));
    LookupAfterPut(m, key, Text(Marker), Some(WindowSeconds), now, PopularKey, later);
  }

  /** Refreshes keep the cache well formed, whatever the response. */
  lemma RefreshKeepsCacheWellFormed(m: Entries, resp: AnalyticsResponse, now: int)
    requires CacheWellFormed(m)
    ensures CacheWellFormed(RefreshEntries(m, resp, now))
  {
  }

  /** Contact submissions keep the cache well formed. */
  lemma ContactKeepsCacheWellFormed(m: Entries, sub: Submission, header: Option<string>, now: int)
    requires CacheWellFormed(m)
    ensures CacheWellFormed(ContactEntries(m, sub, header, now))
  {
    RateLimitKeyIsNotCacheKey(ClientId(header));
  }

  /** In a well-formed store the served list has at most five posts, all
      with blog paths. */
  lemma ServedListIsBounded(m: Entries, now: int)
    requires CacheWellFormed(m)
    ensures |Cached(m, now)| <= TopCount
    ensures forall k :: 0 <= k < |Cached(m, now)| ==> IsBlogPath(Cached(m, now)[k].path)
  {
  }
}
