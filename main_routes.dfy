/** The main blueprint: the home timeline query (`User.followed_posts`) and
    the search page, which combines two index searches with the NSFW filter,
    self-exclusion and the next/previous page links. */
module MainRoutes {
  import opened Common
  import opened Search
  import opened Accounts
  import opened Comments

  // ---------------------------------------------------------------------------
  // Home timeline

  function NewestFirst(t: Tweet): int { -t.createdUtc }

  /** The tweets by the users `u` follows, or by `u`, without the NSFW ones
      when `u` filters them. */
  function Timeline(u: User, tweets: seq<Tweet>): (r: seq<Tweet>)
    reads u, tweets
    ensures forall i :: 0 <= i < |r| ==> r[i] in tweets
    ensures forall i :: 0 <= i < |r| ==> (r[i].userid in u.followed || r[i].userid == u.id) && !(u.filterNsfw && r[i].isNsfw)
    ensures forall i :: 0 <= i < |tweets| && (tweets[i].userid in u.followed || tweets[i].userid == u.id) && !(u.filterNsfw && tweets[i].isNsfw) ==>
      tweets[i] in r
    ensures |r| <= |tweets|
  {
    if tweets == [] then []
    else
      var t := tweets[|tweets| - 1];
      var keep := (t.userid in u.followed || t.userid == u.id) && !(u.filterNsfw && t.isNsfw);
      Timeline(u, tweets[..|tweets| - 1]) + (if keep then [t] else [])
  }

  /** `followed_posts`: the timeline, newest first. */
  function FollowedPosts(u: User, tweets: seq<Tweet>): (r: seq<Tweet>)
    reads u, tweets
    ensures SortedBy(r, NewestFirst)
    ensures multiset(r) == multiset(Timeline(u, tweets))
  {
    SortBy(Timeline(u, tweets), NewestFirst)
  }

  /** Every tweet of the timeline is in `followed_posts` and nothing else is:
      the sort neither adds nor drops a row. */
  lemma FollowedPostsMembers(u: User, tweets: seq<Tweet>, t: Tweet)
    ensures t in FollowedPosts(u, tweets) <==> t in Timeline(u, tweets)
  {
    assert t in FollowedPosts(u, tweets) <==> t in multiset(FollowedPosts(u, tweets));
  }

  // ---------------------------------------------------------------------------
  // Search

  /** Both searches ask the index for pages of three. */
  const PerPage: int := 3

  /** `query_index(index, expression, page, per_page)`: the ids on that page in
      rank order and the total number of hits. The index is external; the
      model takes whatever it answers. */
  type IndexQuery = (string, string, int, int) -> (seq<int>, int)

  datatype Viewer = Anonymous | Member(id: int, filterNsfw: bool)

  datatype TweetRow = TweetRow(id: int, isNsfw: bool)

  datatype SearchOutcome =
    | HomeRedirect
    | Failed
    | Results(tweetIds: seq<int>, userIds: seq<int>, totalTweets: int, totalUsers: int,
              next: Option<int>, prev: Option<int>)

  /** Whether NSFW tweets are removed from this viewer's results. */
  predicate HidesNsfw(v: Viewer)
  {
    v.Anonymous? || v.filterNsfw
  }

  /** The ids of `ids` whose tweet is not NSFW, in order. */
  function SafeIds(ids: seq<int>, store: map<int, TweetRow>): (r: seq<int>)
    requires forall i :: 0 <= i < |ids| ==> ids[i] in store
    ensures forall id :: id in r <==> id in ids && !store[id].isNsfw
    ensures forall i :: 0 <= i < |r| ==> r[i] in store && !store[r[i]].isNsfw
  {
    if ids == [] then []
    else
      var init, last := ids[..|ids| - 1], ids[|ids| - 1];
      SafeIds(init, store) + (if store[last].isNsfw then [] else [last])
  }

  /** Removing NSFW tweets keeps the index's rank order. */
  lemma {:induction false} SafeIdsInRankOrder(ids: seq<int>, s: seq<int>, store: map<int, TweetRow>)
    requires forall i :: 0 <= i < |s| ==> s[i] in store
    requires InRankOrder(s, ids)
    ensures InRankOrder(SafeIds(s, store), ids)
  {
    if s != [] {
      var init, last := s[..|s| - 1], s[|s| - 1];
      assert InRankOrder(init, ids);
      SafeIdsInRankOrder(ids, init, store);
      FilterStepInRankOrder(ids, s, SafeIds(init, store), !store[last].isNsfw);
    }
  }

  /** Leaving out the signed-in user keeps the index's rank order. */
  lemma {:induction false} WithoutInRankOrder(ids: seq<int>, s: seq<int>, x: int)
    requires InRankOrder(s, ids)
    ensures InRankOrder(Without(s, x), ids)
  {
    if s != [] {
      var init, last := s[..|s| - 1], s[|s| - 1];
      assert InRankOrder(init, ids);
      WithoutInRankOrder(ids, init, x);
      FilterStepInRankOrder(ids, s, Without(init, x), last != x);
    }
  }

  function TweetHits(q: string, page: int, query: IndexQuery, store: map<int, TweetRow>): Hits<TweetRow>
  {
    var (ids, total) := query("tweet", q, page, PerPage);
    Search.Search(ids, total, store)
  }

  function UserHits(q: string, page: int, query: IndexQuery, store: map<int, Doc>): Hits<Doc>
  {
    var (ids, total) := query("user", q, page, PerPage);
    Search.Search(ids, total, store)
  }

  /** `search` as it is meant to work for every visitor: an invalid form
      sends the visitor home; otherwise the page shows the tweet hits (NSFW
      ones removed for anonymous visitors and for users who filter them), the
      user hits (without the signed-in user), both totals, a next link when
      more tweets remain past this page and a previous link after page 1.
      `page` is the `page` query argument, if given. */
  function SearchResults(viewer: Viewer, formValid: bool, q: string, page: Option<int>, query: IndexQuery,
                         tweetStore: map<int, TweetRow>, userStore: map<int, Doc>): (r: SearchOutcome)
    ensures !formValid <==> r == HomeRedirect
    ensures r != Failed
    ensures r.Results? ==>
      var p := page.GetOr(1);
      var th, uh := TweetHits(q, p, query, tweetStore), UserHits(q, p, query, userStore);
      && r.totalTweets == th.total && r.totalUsers == uh.total
      && (forall id :: id in r.tweetIds <==> id in th.ids && !(HidesNsfw(viewer) && tweetStore[id].isNsfw))
      && (forall id :: id in r.userIds <==> id in uh.ids && !(viewer.Member? && id == viewer.id))
      && (forall id :: id in r.tweetIds ==> id in query("tweet", q, p, PerPage).0)
      && (forall id :: id in r.userIds ==> id in query("user", q, p, PerPage).0)
      && InRankOrder(r.tweetIds, query("tweet", q, p, PerPage).0)
      && InRankOrder(r.userIds, query("user", q, p, PerPage).0)
      && (r.next.Some? <==> r.totalTweets > p * PerPage)
      && (r.next.Some? ==> r.next.value == p + 1)
      && (r.prev.Some? <==> p > 1)
      && (r.prev.Some? ==> r.prev.value == p - 1)
  {
    if !formValid then HomeRedirect
    else
      var p := page.GetOr(1);
      var th := TweetHits(q, p, query, tweetStore);
      var tweets := if HidesNsfw(viewer) then SafeIds(th.ids, tweetStore) else th.ids;
      var uh := UserHits(q, p, query, userStore);
      var users :=
        if viewer.Member? then
          WithoutInRankOrder(query("user", q, p, PerPage).0, uh.ids, viewer.id);
          Without(uh.ids, viewer.id)
        else uh.ids;
      SafeIdsInRankOrder(query("tweet", q, p, PerPage).0, th.ids, tweetStore);
      Results(tweets, users, th.total, uh.total,
              if th.total > p * PerPage then Some(p + 1) else None,
              if p > 1 then Some(p - 1) else None)
  }

  /** The number of result pages for `total` tweet hits. */
  function NumPages(total: nat): nat
  {
    (total + PerPage - 1) / PerPage
  }

  /** The links follow the page count: from a page numbered 1 or more there
      is a next link exactly when a later page exists, and a previous link
      exactly when this is not the first page. */
  lemma LinksFollowPageCount(viewer: Viewer, q: string, page: Option<int>, query: IndexQuery,
                             tweetStore: map<int, TweetRow>, userStore: map<int, Doc>)
    requires page.GetOr(1) >= 1
    requires query("tweet", q, page.GetOr(1), PerPage).1 >= 0
    ensures var r := SearchResults(viewer, true, q, page, query, tweetStore, userStore);
      && r.Results?
      && (r.next.Some? <==> page.GetOr(1) < NumPages(r.totalTweets))
      && (r.prev.Some? <==> page.GetOr(1) >= 2)
  {
    var r := SearchResults(viewer, true, q, page, query, tweetStore, userStore);
    var p, t := page.GetOr(1), r.totalTweets;
    var n := (t + 2) / 3;
    assert t + 2 == 3 * n + (t + 2) % 3;
    if t > p * 3 {
      assert p < n;
    } else {
      assert 3 * n <= t + 2 <= 3 * p + 2;
    }
  }

  /** When the index keeps to the page size it is asked for, a results page
      never lists more than three tweets or three users. */
  lemma PageHoldsAtMostThree(viewer: Viewer, q: string, page: Option<int>, query: IndexQuery,
                             tweetStore: map<int, TweetRow>, userStore: map<int, Doc>)
    requires |query("tweet", q, page.GetOr(1), PerPage).0| <= PerPage
    requires |query("user", q, page.GetOr(1), PerPage).0| <= PerPage
    ensures var r := SearchResults(viewer, true, q, page, query, tweetStore, userStore);
      |r.tweetIds| <= PerPage && |r.userIds| <= PerPage
  {
    var p := page.GetOr(1);
    var th := TweetHits(q, p, query, tweetStore);
    if HidesNsfw(viewer) {
      SafeIdsShorter(th.ids, tweetStore);
    }
  }

  lemma {:induction false} SafeIdsShorter(ids: seq<int>, store: map<int, TweetRow>)
    requires forall i :: 0 <= i < |ids| ==> ids[i] in store
    ensures |SafeIds(ids, store)| <= |ids|
  {
    if ids != [] {
      SafeIdsShorter(ids[..|ids| - 1], store);
    }
  }

  /** `search` as written: the search form lives in `g` only for signed-in
      users, so for an anonymous visitor the first line fails (an unhandled
      AttributeError) before anything else happens. */
  function SearchAsWritten(viewer: Viewer, formValid: bool, q: string, page: Option<int>, query: IndexQuery,
                           tweetStore: map<int, TweetRow>, userStore: map<int, Doc>): (r: SearchOutcome)
    ensures viewer.Anonymous? ==> r == Failed
    ensures viewer.Member? ==> r == SearchResults(viewer, formValid, q, page, query, tweetStore, userStore)
  {
    if viewer.Anonymous? then Failed
    else SearchResults(viewer, formValid, q, page, query, tweetStore, userStore)
  }

  /** The discrepancy: for an anonymous visitor with a valid query the page as
      written fails, where the NSFW filter for anonymous visitors shows the
      intended outcome is a results page. */
  lemma AnonymousSearchFails(q: string, page: Option<int>, query: IndexQuery,
                             tweetStore: map<int, TweetRow>, userStore: map<int, Doc>)
    ensures SearchAsWritten(Anonymous, true, q, page, query, tweetStore, userStore) == Failed
    ensures SearchResults(Anonymous, true, q, page, query, tweetStore, userStore).Results?
    ensures forall id :: id in SearchResults(Anonymous, true, q, page, query, tweetStore, userStore).tweetIds ==>
      id in tweetStore && !tweetStore[id].isNsfw
  {
    var p := page.GetOr(1);
    var th := TweetHits(q, p, query, tweetStore);
    assert forall id :: id in th.ids ==> id in tweetStore;
  }
}
