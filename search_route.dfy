/**
 * `GET /api/search`: posts whose text or stored hashtag list contains the
 * query, newest first. No authentication is asked for.
 */
module SearchRoute {
  import opened Wrappers
  import opened Text
  import opened ApiTypes
  import opened Query
  import opened Database

  /** The default number of results. */
  const DefaultLimit: nat := 20

  /** `query.trim().toLowerCase()`. */
  function SearchTerm(query: string): (term: string)
    ensures |term| <= |query|
    ensures term == [] <==> IsBlank(query)
  {
    TrimEmptyIffBlank(query);
    Lower(Trim(query))
  }

  /** The `OR` of the two `contains` filters; a post without hashtags can match on its text only. */
  function Matches(term: string): (m: Post -> bool)
    ensures forall p: Post :: Contains(p.content, term) ==> m(p)
    ensures forall p: Post :: p.hashtags.Some? && Contains(p.hashtags.value, term) ==> m(p)
    ensures forall p: Post :: m(p) ==> Contains(p.content, term) || (p.hashtags.Some? && Contains(p.hashtags.value, term))
    ensures forall p: Post :: p.hashtags.None? ==> (m(p) <==> Contains(p.content, term))
  {
    (p: Post) => Contains(p.content, term) || (p.hashtags.Some? && Contains(p.hashtags.value, term))
  }

  /** `GET /api/search?q=&limit=`. */
  function Search(t: Tables, q: Option<string>, limit: Option<nat>): (r: Reply<seq<PostWithDetails>>)
    ensures r.body.success && r.status == 200 && r.body.data.Some?
    ensures |r.body.data.value| <= limit.GetOr(20)
  {
    if q.None? || IsBlank(q.value) then Ok(Some([]), None)
    else
      Ok(Some(DetailsAll(t, Listing(t.posts, Matches(SearchTerm(q.value)), PostId, None, limit.GetOr(DefaultLimit)))), None)
  }

  // ------------------------------------------------------------ lemmas

  /** A missing or blank query succeeds with no results, whatever the tables hold: nothing is read. */
  lemma BlankQueryReadsNothing(t: Tables, other: Tables, q: Option<string>, limit: Option<nat>)
    requires q.None? || IsBlank(q.value)
    ensures Search(t, q, limit) == Ok(Some([]), None)
    ensures Search(other, q, limit) == Search(t, q, limit)
  {
  }

  /**
   * The results of a non-blank query are posts of the table that match the
   * trimmed, lower-cased query, newest first, `limit` of them (20 when not
   * given) or every match when fewer match, each with its details.
   */
  lemma SearchResults(t: Tables, q: string, limit: Option<nat>)
    requires !IsBlank(q)
    requires Ascending(t.posts, PostId)
    ensures var r := Search(t, Some(q), limit);
      && r.body.success && r.body.data.Some?
      && |r.body.data.value| == Min(limit.GetOr(20), |Filter(t.posts, Matches(SearchTerm(q)))|)
      && (forall i :: 0 <= i < |r.body.data.value| ==>
            var d := r.body.data.value[i];
            d.post in t.posts && Matches(SearchTerm(q))(d.post) && d == Details(t, d.post))
      && (forall i, j :: 0 <= i < j < |r.body.data.value| ==> r.body.data.value[i].post.id > r.body.data.value[j].post.id)
  {
    var keep := Matches(SearchTerm(q));
    var page := Listing(t.posts, keep, PostId, None, limit.GetOr(DefaultLimit));
    ListingPage(t.posts, keep, PostId, None, limit.GetOr(DefaultLimit));
    var views := DetailsAll(t, page);
    SearchListing(t, q, limit);
    forall i | 0 <= i < |views|
      ensures views[i].post == page[i] && views[i] == Details(t, page[i])
      ensures page[i] in t.posts && keep(page[i])
    {
    }
    forall i, j | 0 <= i < j < |views| ensures views[i].post.id > views[j].post.id {
      assert PostId(page[i]) > PostId(page[j]);
    }
  }

  /** The results of a non-blank query, as the listing they are built from. */
  lemma SearchListing(t: Tables, q: string, limit: Option<nat>)
    requires !IsBlank(q)
    ensures Search(t, Some(q), limit).body.data == Some(DetailsAll(t, Listing(t.posts, Matches(SearchTerm(q)), PostId, None, limit.GetOr(20))))
  {
  }

  /** When no more than `limit` posts match, every matching post is among the results. */
  lemma SearchComplete(t: Tables, q: string, limit: Option<nat>, p: Post)
    requires !IsBlank(q)
    requires |Filter(t.posts, Matches(SearchTerm(q)))| <= limit.GetOr(20)
    requires p in t.posts && Matches(SearchTerm(q))(p)
    ensures exists i :: 0 <= i < |Search(t, Some(q), limit).body.data.value| && Search(t, Some(q), limit).body.data.value[i].post == p
  {
    var keep := Matches(SearchTerm(q));
    var n := limit.GetOr(DefaultLimit);
    var rows := Newest(Filter(t.posts, keep));
    NewestFilterComplete(t.posts, keep, p);
    assert Listing(t.posts, keep, PostId, None, n) == rows;
    var views := DetailsAll(t, rows);
    SearchListing(t, q, limit);
    var i :| 0 <= i < |rows| && rows[i] == p;
    assert views[i].post == p;
  }

  /**
   * However many posts match, none is missed: a matching post is among the
   * results unless they already fill `limit` with newer posts.
   */
  lemma SearchListsNewest(t: Tables, q: string, limit: Option<nat>, p: Post)
    requires !IsBlank(q)
    requires Ascending(t.posts, PostId)
    requires p in t.posts && Matches(SearchTerm(q))(p)
    ensures PostListedUnlessFull(Search(t, Some(q), limit).body.data.value, limit.GetOr(20), p)
  {
    var keep := Matches(SearchTerm(q));
    var n := limit.GetOr(DefaultLimit);
    ListingComplete(t.posts, keep, PostId, n, p);
    PostViewsListed(t, Listing(t.posts, keep, PostId, None, n), n, p);
    SearchListing(t, q, limit);
  }
}
