/**
 * The search page: the query being typed, the posts found, and whether a
 * search has run (which decides between the hint and "No posts found").
 */
module SearchPage {
  import opened Wrappers
  import opened Text
  import opened ApiTypes
  import opened Database
  import opened LikeCounts
  import opened SearchRoute

  class Page {
    var query: string
    var posts: seq<PostWithDetails>
    var hasSearched: bool

    constructor ()
      ensures query == [] && posts == [] && !hasSearched
    {
      query := [];
      posts := [];
      hasSearched := false;
    }

    /**
     * Runs a search. `response` is what the request resolved to, or `None`
     * when it threw. Returns the text sent as `q`, if any: a blank query
     * sends nothing and resets the page.
     */
    method SearchPosts(searchQuery: string, response: Option<ApiResponse<seq<PostWithDetails>>>)
      returns (sent: Option<string>)
      modifies this
      ensures query == old(query)
      ensures sent.Some? <==> !IsBlank(searchQuery)
      ensures sent.Some? ==> sent.value == Trim(searchQuery)
      ensures hasSearched <==> sent.Some?
      ensures posts == if sent.Some? && response.Some? && response.value.success && response.value.data.Some?
                       then response.value.data.value else []
    {
      if IsBlank(searchQuery) {
        posts := [];
        hasSearched := false;
        return None;
      }
      sent := Some(Trim(searchQuery));
      if response.Some? && response.value.success && response.value.data.Some? {
        posts := response.value.data.value;
      } else {
        posts := [];
      }
      hasSearched := true;
    }

    /** Submitting the form searches for the query typed so far. */
    method HandleSearch(response: Option<ApiResponse<seq<PostWithDetails>>>) returns (sent: Option<string>)
      modifies this
      ensures query == old(query)
      ensures sent.Some? <==> !IsBlank(query)
      ensures sent.Some? ==> sent.value == Trim(query)
      ensures hasSearched <==> sent.Some?
      ensures posts == if sent.Some? && response.Some? && response.value.success && response.value.data.Some?
                       then response.value.data.value else []
    {
      sent := SearchPosts(query, response);
    }

    /** Typing into the search box. */
    method OnQueryChange(value: string)
      modifies this
      ensures query == value && posts == old(posts) && hasSearched == old(hasSearched)
    {
      query := value;
    }

    /** "Clear search": back to the empty page. */
    method ClearSearch()
      modifies this
      ensures query == [] && posts == [] && !hasSearched
    {
      query := [];
      hasSearched := false;
      posts := [];
    }

    /** A card reported a like or an unlike: the list follows. */
    method HandleLikeChange(postId: Id, isLiked: bool)
      modifies this
      ensures posts == ApplyLikeChange(old(posts), postId, isLiked)
      ensures query == old(query) && hasSearched == old(hasSearched)
    {
      posts := ApplyLikeChange(posts, postId, isLiked);
    }
  }

  /**
   * Trimming on the page changes nothing on the server: the term the
   * server searches for is the one it would derive from the raw query.
   */
  lemma SentQuerySameTerm(query: string)
    ensures SearchTerm(Trim(query)) == SearchTerm(query)
  {
    TrimIdempotent(query);
  }

  /** The server answers the trimmed query the page sends exactly as it would answer the raw query. */
  lemma SentQueryAnswered(t: Tables, query: string, limit: Option<nat>)
    ensures Search(t, Some(Trim(query)), limit) == Search(t, Some(query), limit)
  {
    TrimBlankIff(query);
    SentQuerySameTerm(query);
  }
}
