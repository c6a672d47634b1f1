/**
 * `POST /api/likes` (like a post) and `DELETE /api/likes` (unlike it).
 *
 * `LikeOutcome` and `UnlikeOutcome` give the reply and the tables after a
 * request; the methods `LikePost` and `UnlikePost` perform the same steps on
 * a `Store` and are proved to agree with them. The request body is reduced
 * to its `postId` (`None` when missing or empty).
 */
module LikesRoute {
  import opened Wrappers
  import opened ApiTypes
  import opened Auth
  import opened Query
  import opened Database

  /** A reply together with the tables it leaves behind. */
  datatype Outcome = Outcome(reply: Reply<()>, after: Tables)

  function LikedMessage(u: AuthUser): string {
    ActorName(u) + " liked your post"
  }

  /** The outcome of `POST /api/likes` for the caller `auth`. */
  function LikeOutcome(t: Tables, auth: AuthOutcome, postId: Option<Id>): (o: Outcome)
    ensures Answered(o.reply, {400, 401, 404, 409, 500})
    ensures !o.reply.body.success ==> o.after == t
    ensures o.after.users == t.users && o.after.posts == t.posts && o.after.comments == t.comments
  {
    if auth.MissingToken? then Outcome(Fail(401, "Authentication required"), t)
    else if auth.InvalidToken? then Outcome(Fail(401, "Invalid token"), t)
    else if postId.None? then Outcome(Fail(400, "Post ID is required"), t)
    else match FindPost(t.posts, postId.value)
      case None => Outcome(Fail(404, "Post not found"), t)
      case Some(post) =>
        var like := Like(auth.user.id, post.id);
        if like in t.likes then Outcome(Fail(409, "Post already liked"), t)
        // the like row references the token's user: a foreign-key failure lands in the catch block
        else if FindUser(t.users, auth.user.id).None? then Outcome(Fail(500, "Failed to like post"), t)
        else Liked(t, auth.user, post)
  }

  /** What an accepted like writes and answers: the like row, then a notification for the post's author unless the author liked it. */
  function Liked(t: Tables, user: AuthUser, post: Post): Outcome {
    var notes := if post.authorId != user.id
      then t.notifications + [Notification(post.authorId, LIKE, LikedMessage(user))]
      else t.notifications;
    Outcome(Ok(None, Some("Post liked successfully")), t.(likes := t.likes + [Like(user.id, post.id)], notifications := notes))
  }

  function Without(likes: seq<Like>, like: Like): seq<Like> {
    Filter(likes, (l: Like) => l != like)
  }

  /** The outcome of `DELETE /api/likes` for the caller `auth`. */
  function UnlikeOutcome(t: Tables, auth: AuthOutcome, postId: Option<Id>): (o: Outcome)
    ensures Answered(o.reply, {400, 401, 404})
    ensures o.after == t.(likes := o.after.likes)
    ensures |o.after.likes| <= |t.likes|
  {
    if auth.MissingToken? then Outcome(Fail(401, "Authentication required"), t)
    else if auth.InvalidToken? then Outcome(Fail(401, "Invalid token"), t)
    else if postId.None? then Outcome(Fail(400, "Post ID is required"), t)
    else
      var like := Like(auth.user.id, postId.value);
      if like !in t.likes then Outcome(Fail(404, "Like not found"), t)
      else Outcome(Ok(None, Some("Post unliked successfully")), t.(likes := Without(t.likes, like)))
  }

  // ---------------------------------------------------------- handlers

  method LikePost(db: Store, lib: JwtLibrary, now: int, authorization: Option<string>, postId: Option<Id>)
    returns (reply: Reply<()>)
    requires db.Valid()
    modifies db
    ensures db.Valid()
    ensures var o := LikeOutcome(old(db.Contents()), Authenticate(lib, now, authorization), postId);
      reply == o.reply && db.Contents() == o.after
  {
    var auth := Authenticate(lib, now, authorization);
    if auth.MissingToken? {
      return Fail(401, "Authentication required");
    }
    if auth.InvalidToken? {
      return Fail(401, "Invalid token");
    }
    var user := auth.user;
    if postId.None? {
      return Fail(400, "Post ID is required");
    }
    var post := FindPost(db.posts, postId.value);
    if post.None? {
      return Fail(404, "Post not found");
    }
    if Like(user.id, postId.value) in db.likes {
      return Fail(409, "Post already liked");
    }
    if FindUser(db.users, user.id).None? {
      return Fail(500, "Failed to like post");
    }
    ghost var t := db.Contents();
    reply := StoreLike(db, user, post.value);
    LikeKeepsValid(t, auth, postId);
  }

  /** The writes of an accepted like: the like row, then the author's notification unless the author liked it. */
  method StoreLike(db: Store, user: AuthUser, post: Post) returns (reply: Reply<()>)
    modifies db
    ensures var o := Liked(old(db.Contents()), user, post);
      reply == o.reply && db.Contents() == o.after
  {
    db.likes := db.likes + [Like(user.id, post.id)];
    if post.authorId != user.id {
      db.notifications := db.notifications + [Notification(post.authorId, LIKE, LikedMessage(user))];
    }
    reply := Ok(None, Some("Post liked successfully"));
  }

  method UnlikePost(db: Store, lib: JwtLibrary, now: int, authorization: Option<string>, postId: Option<Id>)
    returns (reply: Reply<()>)
    requires db.Valid()
    modifies db
    ensures db.Valid()
    ensures var o := UnlikeOutcome(old(db.Contents()), Authenticate(lib, now, authorization), postId);
      reply == o.reply && db.Contents() == o.after
  {
    ghost var t := db.Contents();
    var auth := Authenticate(lib, now, authorization);
    if auth.MissingToken? {
      return Fail(401, "Authentication required");
    }
    if auth.InvalidToken? {
      return Fail(401, "Invalid token");
    }
    var user := auth.user;
    if postId.None? {
      return Fail(400, "Post ID is required");
    }
    if Like(user.id, postId.value) !in db.likes {
      return Fail(404, "Like not found");
    }
    db.likes := Without(db.likes, Like(user.id, postId.value));
    reply := Ok(None, Some("Post unliked successfully"));
    UnlikeKeepsValid(t, auth, postId);
  }

  // ------------------------------------------------------------ lemmas

  /**
   * The checks of a like request, in order: token present, token valid,
   * post id present, post exists, not yet liked.
   */
  lemma LikeCheckOrder(t: Tables, auth: AuthOutcome, postId: Option<Id>)
    ensures var r := LikeOutcome(t, auth, postId).reply;
      && (auth.MissingToken? ==> r == Fail(401, "Authentication required"))
      && (auth.InvalidToken? ==> r == Fail(401, "Invalid token"))
      && (auth.Authenticated? && postId.None? ==> r == Fail(400, "Post ID is required"))
      && (auth.Authenticated? && postId.Some? && !HasPost(t.posts, postId.value) ==> r == Fail(404, "Post not found"))
      && (auth.Authenticated? && postId.Some? && HasPost(t.posts, postId.value) && Like(auth.user.id, postId.value) in t.likes
          ==> r == Fail(409, "Post already liked"))
  {
  }

  /** A like request that does not succeed writes nothing. */
  lemma LikeFailureWritesNothing(t: Tables, auth: AuthOutcome, postId: Option<Id>)
    ensures !LikeOutcome(t, auth, postId).reply.body.success ==> LikeOutcome(t, auth, postId).after == t
  {
  }

  /**
   * A like succeeds exactly when the caller is authenticated, names an
   * existing post it has not liked yet, and has an account; it then adds
   * exactly that pair and leaves users, posts and comments alone.
   */
  lemma LikeSuccess(t: Tables, auth: AuthOutcome, postId: Option<Id>)
    ensures var o := LikeOutcome(t, auth, postId);
      o.reply.body.success <==>
        auth.Authenticated? && postId.Some? && HasPost(t.posts, postId.value)
        && Like(auth.user.id, postId.value) !in t.likes && HasUser(t.users, auth.user.id)
    ensures var o := LikeOutcome(t, auth, postId);
      o.reply.body.success ==>
        && o.reply == Ok(None, Some("Post liked successfully"))
        && o.after.likes == t.likes + [Like(auth.user.id, postId.value)]
        && o.after.users == t.users && o.after.posts == t.posts && o.after.comments == t.comments
        && o.after.nextId == t.nextId
  {
  }

  /**
   * A successful like notifies the post's author, with the liker's name,
   * if and only if the liker is someone else.
   */
  lemma LikeNotifiesOthersOnly(t: Tables, auth: AuthOutcome, postId: Option<Id>, post: Post)
    requires LikeOutcome(t, auth, postId).reply.body.success
    requires post in t.posts && post.id == postId.value
    requires Ascending(t.posts, PostId)
    ensures var after := LikeOutcome(t, auth, postId).after;
      && (post.authorId != auth.user.id ==>
            after.notifications == t.notifications + [Notification(post.authorId, LIKE, ActorName(auth.user) + " liked your post")])
      && (post.authorId == auth.user.id ==> after.notifications == t.notifications)
  {
    var found := FindPost(t.posts, postId.value).value;
    var a :| 0 <= a < |t.posts| && t.posts[a] == post;
    var b :| 0 <= b < |t.posts| && t.posts[b] == found;
    AscendingKeysDistinct(t.posts, PostId, a, b);
  }

  /** Liking twice: the second request is refused with 409 and changes nothing. */
  lemma LikeTwiceConflicts(t: Tables, auth: AuthOutcome, postId: Option<Id>)
    requires LikeOutcome(t, auth, postId).reply.body.success
    ensures var t1 := LikeOutcome(t, auth, postId).after;
      LikeOutcome(t1, auth, postId) == Outcome(Fail(409, "Post already liked"), t1)
  {
    var t1 := LikeOutcome(t, auth, postId).after;
    var like := Like(auth.user.id, postId.value);
    assert t1.likes[|t1.likes| - 1] == like;
    assert t1.posts == t.posts;
  }

  lemma {:induction false} WithoutAbsent(likes: seq<Like>, like: Like)
    requires like !in likes
    ensures Without(likes, like) == likes
    decreases |likes|
  {
    if likes != [] {
      WithoutAbsent(likes[1..], like);
      assert [likes[0]] + likes[1..] == likes;
    }
  }

  /** Removing a pair from the like table removes that pair and nothing else. */
  lemma WithoutRemoves(likes: seq<Like>, like: Like)
    ensures like !in Without(likes, like)
    ensures forall l :: l in likes && l != like ==> l in Without(likes, like)
  {
    forall l | l in likes && l != like ensures l in Without(likes, like) {
      var i :| 0 <= i < |likes| && likes[i] == l;
    }
  }

  /** Unliking right after a successful like restores the like table. */
  lemma UnlikeUndoesLike(t: Tables, auth: AuthOutcome, postId: Option<Id>)
    requires LikeOutcome(t, auth, postId).reply.body.success
    ensures var t1 := LikeOutcome(t, auth, postId).after;
      var o := UnlikeOutcome(t1, auth, postId);
      o.reply.body.success && o.after.likes == t.likes
  {
    var t1 := LikeOutcome(t, auth, postId).after;
    var like := Like(auth.user.id, postId.value);
    assert t1.likes[|t1.likes| - 1] == like;
    FilterAppend(t.likes, like, (l: Like) => l != like);
    WithoutAbsent(t.likes, like);
  }

  /** An unlike of an absent pair is a 404 that changes nothing. */
  lemma UnlikeAbsent(t: Tables, user: AuthUser, postId: Id)
    requires Like(user.id, postId) !in t.likes
    ensures UnlikeOutcome(t, Authenticated(user), Some(postId)) == Outcome(Fail(404, "Like not found"), t)
  {
  }

  /**
   * A successful unlike removes exactly that pair and creates no
   * notification; it never looks at the post table.
   */
  lemma UnlikeSuccess(t: Tables, auth: AuthOutcome, postId: Option<Id>, posts: seq<Post>)
    ensures UnlikeOutcome(t.(posts := posts), auth, postId).reply == UnlikeOutcome(t, auth, postId).reply
    ensures var o := UnlikeOutcome(t, auth, postId);
      o.reply.body.success ==>
        && o.after == t.(likes := o.after.likes)
        && Like(auth.user.id, postId.value) !in o.after.likes
        && (forall l :: l in t.likes && l != Like(auth.user.id, postId.value) ==> l in o.after.likes)
  {
    if auth.Authenticated? && postId.Some? {
      WithoutRemoves(t.likes, Like(auth.user.id, postId.value));
    }
  }

  // ------------------------------------------------ invariant preservation

  lemma LikeKeepsValid(t: Tables, auth: AuthOutcome, postId: Option<Id>)
    requires ValidTables(t)
    ensures ValidTables(LikeOutcome(t, auth, postId).after)
  {
    var o := LikeOutcome(t, auth, postId);
    if o.reply.body.success {
      var post := FindPost(t.posts, postId.value).value;
      var like := Like(auth.user.id, post.id);
      InsertLikeValid(t, like);
      var t1 := t.(likes := t.likes + [like]);
      if post.authorId != auth.user.id {
        PostAuthorExists(t, post);
        InsertNotificationValid(t1, Notification(post.authorId, LIKE, LikedMessage(auth.user)));
      }
    }
  }

  lemma UnlikeKeepsValid(t: Tables, auth: AuthOutcome, postId: Option<Id>)
    requires ValidTables(t)
    ensures ValidTables(UnlikeOutcome(t, auth, postId).after)
  {
    var o := UnlikeOutcome(t, auth, postId);
    if o.reply.body.success {
      var like := Like(auth.user.id, postId.value);
      var keep := (l: Like) => l != like;
      UniqueFilter(t.likes, keep);
      var r := Without(t.likes, like);
      forall i | 0 <= i < |r| ensures HasUser(t.users, r[i].userId) && HasPost(t.posts, r[i].postId) {
        var j :| 0 <= j < |t.likes| && t.likes[j] == r[i];
      }
    }
  }
}
