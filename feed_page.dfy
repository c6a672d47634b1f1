/**
 * The feed: the list of posts fetched once the user is known, and the
 * first-load flag that switches the spinner off.
 */
module FeedPage {
  import opened Wrappers
  import opened ApiTypes
  import opened Database
  import opened LikeCounts

  class Page {
    var posts: seq<PostWithDetails>
    var isInitialLoad: bool

    constructor ()
      ensures posts == [] && isInitialLoad
    {
      posts := [];
      isInitialLoad := true;
    }

    /**
     * Loads the feed. `response` is what the request resolved to, or `None`
     * when it threw: only a successful reply with data replaces the list.
     */
    method FetchPosts(response: Option<ApiResponse<seq<PostWithDetails>>>)
      modifies this
      ensures response.Some? && response.value.success && response.value.data.Some? ==>
                posts == response.value.data.value
      ensures !(response.Some? && response.value.success && response.value.data.Some?) ==>
                posts == old(posts)
      ensures !isInitialLoad
    {
      if response.Some? && response.value.success && response.value.data.Some? {
        posts := response.value.data.value;
      }
      isInitialLoad := false;
    }

    /**
     * The effect that runs when the signed-in user or the auth flag changes:
     * the feed is fetched only once there is a user and auth has settled.
     */
    method OnAuthChange(user: Option<AuthUser>, authLoading: bool,
                        response: Option<ApiResponse<seq<PostWithDetails>>>) returns (fetched: bool)
      modifies this
      ensures fetched <==> user.Some? && !authLoading
      ensures !fetched ==> posts == old(posts) && isInitialLoad == old(isInitialLoad)
      ensures fetched ==> !isInitialLoad
      ensures fetched && response.Some? && response.value.success && response.value.data.Some? ==>
                posts == response.value.data.value
    {
      fetched := user.Some? && !authLoading;
      if fetched {
        FetchPosts(response);
      }
    }

    /** A card reported a like or an unlike: the list follows. */
    method HandleLikeChange(postId: Id, isLiked: bool)
      modifies this
      ensures posts == ApplyLikeChange(old(posts), postId, isLiked)
      ensures isInitialLoad == old(isInitialLoad)
    {
      posts := ApplyLikeChange(posts, postId, isLiked);
    }
  }
}
