/**
 * How a list of posts follows a card's like or unlike: the feed and the
 * search page both rewrite their copy of the list the same way.
 */
module LikeCounts {
  import opened ApiTypes
  import opened Database

  /** The like count moved by one, up for a like and down for an unlike. */
  function Bumped(p: PostWithDetails, isLiked: bool): (q: PostWithDetails)
    ensures q == p.(likeCount := q.likeCount)
    ensures q.likeCount == p.likeCount + 1 <==> isLiked
    ensures q.likeCount == p.likeCount - 1 <==> !isLiked
  {
    p.(likeCount := if isLiked then p.likeCount + 1 else p.likeCount - 1)
  }

  /** `handleLikeChange`: the post with id `postId` gets its count moved; the others stay as they are. */
  function ApplyLikeChange(posts: seq<PostWithDetails>, postId: Id, isLiked: bool): (r: seq<PostWithDetails>)
    ensures |r| == |posts|
    ensures forall i :: 0 <= i < |posts| && posts[i].post.id != postId ==> r[i] == posts[i]
    ensures forall i :: 0 <= i < |posts| && posts[i].post.id == postId ==> r[i] == Bumped(posts[i], isLiked)
  {
    seq(|posts|, i requires 0 <= i < |posts| =>
      if posts[i].post.id == postId then Bumped(posts[i], isLiked) else posts[i])
  }

  /** The list keeps its order and every post but the counts: only `likeCount` can differ. */
  lemma OnlyCountsChange(posts: seq<PostWithDetails>, postId: Id, isLiked: bool)
    ensures var r := ApplyLikeChange(posts, postId, isLiked);
      forall i :: 0 <= i < |posts| ==> r[i] == posts[i].(likeCount := r[i].likeCount)
  {
  }

  /** An unlike after a like leaves the list as it was. */
  lemma LikeThenUnlike(posts: seq<PostWithDetails>, postId: Id)
    ensures ApplyLikeChange(ApplyLikeChange(posts, postId, true), postId, false) == posts
  {
    var r := ApplyLikeChange(ApplyLikeChange(posts, postId, true), postId, false);
    forall i | 0 <= i < |posts| ensures r[i] == posts[i] {
      if posts[i].post.id == postId {
        assert r[i] == Bumped(Bumped(posts[i], true), false);
      }
    }
  }

  /** A change for a post that is not in the list leaves the list alone. */
  lemma UnlistedPostUntouched(posts: seq<PostWithDetails>, postId: Id, isLiked: bool)
    requires forall i :: 0 <= i < |posts| ==> posts[i].post.id != postId
    ensures ApplyLikeChange(posts, postId, isLiked) == posts
  {
  }
}
