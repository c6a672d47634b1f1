/**
 * `POST /api/comments` (add a comment and notify the post's author) and
 * `GET /api/comments` (one page of a post's comments, newest first).
 */
module CommentsRoute {
  import opened Wrappers
  import opened Text
  import opened ApiTypes
  import opened Auth
  import opened Query
  import opened Database

  datatype Outcome = Outcome(reply: Reply<CommentWithAuthor>, after: Tables)

  function CommentedMessage(u: AuthUser): string {
    ActorName(u) + " commented on your post"
  }

  /** The outcome of `POST /api/comments`; `content` is `None` when the body lacks it. */
  function AddCommentOutcome(t: Tables, auth: AuthOutcome, postId: Option<Id>, content: Option<string>): (o: Outcome)
    ensures Answered(o.reply, {400, 401, 404, 500})
    ensures !o.reply.body.success ==> o.after == t
    ensures o.after.users == t.users && o.after.posts == t.posts && o.after.likes == t.likes
  {
    if auth.MissingToken? then Outcome(Fail(401, "Authentication required"), t)
    else if auth.InvalidToken? then Outcome(Fail(401, "Invalid token"), t)
    else if postId.None? || content.None? || IsBlank(content.value) then
      Outcome(Fail(400, "Post ID and content are required"), t)
    else match FindPost(t.posts, postId.value)
      case None => Outcome(Fail(404, "Post not found"), t)
      case Some(post) =>
        // the comment row references the token's user: a foreign-key failure lands in the catch block
        if FindUser(t.users, auth.user.id).None? then Outcome(Fail(500, "Failed to add comment"), t)
        else Commented(t, auth.user, post, content.value)
  }

  /**
   * What an accepted comment writes and answers: the trimmed comment under
   * the next id, then a notification for the post's author unless the
   * author commented.
   */
  function Commented(t: Tables, user: AuthUser, post: Post, text: string): Outcome {
    var comment := Comment(t.nextId, user.id, post.id, Trim(text));
    var notes := if post.authorId != user.id
      then t.notifications + [Notification(post.authorId, COMMENT, CommentedMessage(user))]
      else t.notifications;
    var view := CommentWithAuthor(comment, Summary(t.users, user.id));
    Outcome(Ok(Some(view), Some("Comment added successfully")),
            t.(comments := t.comments + [comment], notifications := notes, nextId := t.nextId + 1))
  }

  /** The default page size of the comment listing. */
  const DefaultLimit: nat := 20

  /**
   * `GET /api/comments`: the comments of `postId`, newest first, one page of
   * at most `limit` (default 20), starting after `cursor` when one is given.
   */
  function ListComments(t: Tables, postId: Option<Id>, limit: Option<nat>, cursor: Option<Id>)
    : (r: Reply<seq<CommentWithAuthor>>)
    ensures Answered(r, {400})
    ensures r.body.success <==> postId.Some?
    ensures r.body.success ==> r.body.data.Some? && |r.body.data.value| <= limit.GetOr(20)
  {
    if postId.None? then Fail(400, "Post ID is required")
    else
      Ok(Some(WithAuthor(t.users, Listing(t.comments, CommentOnPost(postId.value), CommentId, cursor, limit.GetOr(DefaultLimit)))), None)
  }

  // ---------------------------------------------------------- handler

  method AddComment(db: Store, lib: JwtLibrary, now: int, authorization: Option<string>,
                    postId: Option<Id>, content: Option<string>)
    returns (reply: Reply<CommentWithAuthor>)
    requires db.Valid()
    modifies db
    ensures db.Valid()
    ensures var o := AddCommentOutcome(old(db.Contents()), Authenticate(lib, now, authorization), postId, content);
      reply == o.reply && db.Contents() == o.after
  {
    var auth := Authenticate(lib, now, authorization);
    if auth.MissingToken? {
      return Fail(401, "Authentication required");
    }
    if auth.InvalidToken? {
      return Fail(401, "Invalid token");
    }
    var user := auth.user;
    if postId.None? || content.None? || IsBlank(content.value) {
      return Fail(400, "Post ID and content are required");
    }
    var post := FindPost(db.posts, postId.value);
    if post.None? {
      return Fail(404, "Post not found");
    }
    if FindUser(db.users, user.id).None? {
      return Fail(500, "Failed to add comment");
    }
    ghost var t := db.Contents();
    reply := StoreComment(db, user, post.value, content.value);
    AddCommentKeepsValid(t, auth, postId, content);
  }

  /** The writes of an accepted comment: the comment row, then the author's notification unless the author commented. */
  method StoreComment(db: Store, user: AuthUser, post: Post, text: string) returns (reply: Reply<CommentWithAuthor>)
    modifies db
    ensures var o := Commented(old(db.Contents()), user, post, text);
      reply == o.reply && db.Contents() == o.after
  {
    var comment := Comment(db.nextId, user.id, post.id, Trim(text));
    var view := CommentWithAuthor(comment, Summary(db.users, user.id));
    db.comments, db.nextId := db.comments + [comment], db.nextId + 1;
    if post.authorId != user.id {
      db.notifications := db.notifications + [Notification(post.authorId, COMMENT, CommentedMessage(user))];
    }
    reply := Ok(Some(view), Some("Comment added successfully"));
  }

  // ------------------------------------------------------------ lemmas

  /** Both authentication failures come before the body is looked at. */
  lemma AddCommentAuthFirst(t: Tables, auth: AuthOutcome, postId: Option<Id>, content: Option<string>)
    requires !auth.Authenticated?
    ensures var o := AddCommentOutcome(t, auth, postId, content);
      o.reply.status == 401 && o.after == t
      && o == AddCommentOutcome(t, auth, None, None)
  {
  }

  /** Missing post id, missing content and white-space-only content are a 400 that writes nothing. */
  lemma AddCommentRequiresContent(t: Tables, user: AuthUser, postId: Option<Id>, content: Option<string>)
    requires postId.None? || content.None? || IsBlank(content.value)
    ensures AddCommentOutcome(t, Authenticated(user), postId, content)
         == Outcome(Fail(400, "Post ID and content are required"), t)
  {
  }

  /** A comment on an unknown post is a 404 that writes nothing. */
  lemma AddCommentUnknownPost(t: Tables, user: AuthUser, postId: Id, content: string)
    requires !IsBlank(content) && !HasPost(t.posts, postId)
    ensures AddCommentOutcome(t, Authenticated(user), Some(postId), Some(content))
         == Outcome(Fail(404, "Post not found"), t)
  {
  }

  /**
   * A stored comment holds the trimmed text, the caller as author and the
   * named post, is the newest comment, and is echoed back in the reply; the
   * post's author is notified exactly when the commenter is someone else.
   */
  lemma AddCommentStores(t: Tables, auth: AuthOutcome, postId: Option<Id>, content: Option<string>)
    requires ValidTables(t)
    requires AddCommentOutcome(t, auth, postId, content).reply.body.success
    ensures var o := AddCommentOutcome(t, auth, postId, content);
      var c := Comment(t.nextId, auth.user.id, postId.value, Trim(content.value));
      && o.after.comments == t.comments + [c]
      && o.reply.body.data.value.comment == c
      && o.after.users == t.users && o.after.posts == t.posts && o.after.likes == t.likes
      && (forall p :: p in t.posts && p.id == postId.value ==>
            o.after.notifications == t.notifications + (if p.authorId != auth.user.id then
              [Notification(p.authorId, COMMENT, ActorName(auth.user) + " commented on your post")] else []))
  {
    var found := FindPost(t.posts, postId.value).value;
    forall p | p in t.posts && p.id == postId.value ensures p == found {
      var a :| 0 <= a < |t.posts| && t.posts[a] == p;
      var b :| 0 <= b < |t.posts| && t.posts[b] == found;
      AscendingKeysDistinct(t.posts, PostId, a, b);
    }
  }

  /** Without a post id the listing is a 400. */
  lemma ListCommentsRequiresPost(t: Tables, limit: Option<nat>, cursor: Option<Id>)
    ensures ListComments(t, None, limit, cursor) == Fail(400, "Post ID is required")
  {
  }

  /**
   * A comment page holds only comments of the requested post, newest first,
   * at most `limit` of them (20 when not given), all older than the cursor
   * comment. Without a cursor the page is as full as `limit` and the
   * post's comments allow.
   */
  lemma ListCommentsPage(t: Tables, postId: Id, limit: Option<nat>, cursor: Option<Id>)
    requires Ascending(t.comments, CommentId)
    ensures var r := ListComments(t, Some(postId), limit, cursor);
      && r.body.success && r.body.data.Some?
      && |r.body.data.value| <= limit.GetOr(20)
      && (cursor.None? ==> |r.body.data.value| == Min(limit.GetOr(20), |Filter(t.comments, CommentOnPost(postId))|))
      && (forall i :: 0 <= i < |r.body.data.value| ==>
            r.body.data.value[i].comment in t.comments && r.body.data.value[i].comment.postId == postId)
      && (forall i, j :: 0 <= i < j < |r.body.data.value| ==>
            r.body.data.value[i].comment.id > r.body.data.value[j].comment.id)
      && (cursor.Some? ==> forall i :: 0 <= i < |r.body.data.value| ==> r.body.data.value[i].comment.id < cursor.value)
  {
    var page := Listing(t.comments, CommentOnPost(postId), CommentId, cursor, limit.GetOr(DefaultLimit));
    ListingPage(t.comments, CommentOnPost(postId), CommentId, cursor, limit.GetOr(DefaultLimit));
    var views := WithAuthor(t.users, page);
    assert ListComments(t, Some(postId), limit, cursor) == Ok(Some(views), None);
    forall i | 0 <= i < |views| ensures views[i].comment in t.comments && views[i].comment.postId == postId {
      assert views[i].comment == page[i] && CommentOnPost(postId)(page[i]);
    }
    forall i, j | 0 <= i < j < |views| ensures views[i].comment.id > views[j].comment.id {
      assert views[i].comment == page[i] && views[j].comment == page[j];
      assert CommentId(page[i]) > CommentId(page[j]);
    }
    if cursor.Some? {
      forall i | 0 <= i < |views| ensures views[i].comment.id < cursor.value {
        assert views[i].comment == page[i];
      }
    }
  }

  /**
   * No comment is missed: a comment of the post is on the first page unless
   * that page is full of newer comments, and the same holds of the page
   * after any comment of the post that is newer than it.
   */
  lemma ListCommentsComplete(t: Tables, postId: Id, limit: Option<nat>, c: Comment)
    requires Ascending(t.comments, CommentId)
    requires c in t.comments && c.postId == postId
    ensures CommentListedUnlessFull(ListComments(t, Some(postId), limit, None).body.data.value, limit.GetOr(20), c)
    ensures forall newer :: newer in t.comments && newer.postId == postId && c.id < newer.id ==>
      CommentListedUnlessFull(ListComments(t, Some(postId), limit, Some(newer.id)).body.data.value, limit.GetOr(20), c)
  {
    var keep := CommentOnPost(postId);
    var n := limit.GetOr(DefaultLimit);
    ListingComplete(t.comments, keep, CommentId, n, c);
    CommentViewsListed(t.users, Listing(t.comments, keep, CommentId, None, n), n, c);
    assert ListComments(t, Some(postId), limit, None).body.data.value == WithAuthor(t.users, Listing(t.comments, keep, CommentId, None, n));
    forall newer | newer in t.comments && newer.postId == postId && c.id < newer.id
      ensures CommentListedUnlessFull(ListComments(t, Some(postId), limit, Some(newer.id)).body.data.value, n, c)
    {
      assert keep(newer) && CommentId(newer) == newer.id;
      CommentViewsListed(t.users, Listing(t.comments, keep, CommentId, Some(newer.id), n), n, c);
      assert ListComments(t, Some(postId), limit, Some(newer.id)).body.data.value
          == WithAuthor(t.users, Listing(t.comments, keep, CommentId, Some(newer.id), n));
    }
  }


  // ------------------------------------------------ invariant preservation

  lemma AddCommentKeepsValid(t: Tables, auth: AuthOutcome, postId: Option<Id>, content: Option<string>)
    requires ValidTables(t)
    ensures ValidTables(AddCommentOutcome(t, auth, postId, content).after)
  {
    var o := AddCommentOutcome(t, auth, postId, content);
    if o.reply.body.success {
      var post := FindPost(t.posts, postId.value).value;
      var c := Comment(t.nextId, auth.user.id, post.id, Trim(content.value));
      InsertCommentValid(t, c);
      var t1 := t.(comments := t.comments + [c], nextId := t.nextId + 1);
      if post.authorId != auth.user.id {
        PostAuthorExists(t, post);
        InsertNotificationValid(t1, Notification(post.authorId, COMMENT, CommentedMessage(auth.user)));
      }
    }
  }
}
