/**
 * `POST /api/posts` (publish a post with its extracted hashtags) and
 * `GET /api/posts` (one page of posts, newest first, optionally by one author).
 */
module PostsRoute {
  import opened Wrappers
  import opened Text
  import opened ApiTypes
  import opened Auth
  import opened Query
  import opened Database
  import opened Hashtags
  import opened HashtagsJson

  datatype Outcome = Outcome(reply: Reply<PostWithDetails>, after: Tables)

  /** The stored form of a tag list: `stringifyHashtags(tags)`, or null for no tags. */
  function StoredHashtags(tags: seq<string>): (h: Option<string>)
    ensures h.None? <==> tags == []
    ensures ParseHashtags(h) == tags
  {
    if |tags| > 0 then
      RoundTrip(tags);
      Some(StringifyHashtags(tags))
    else None
  }

  /** The outcome of `POST /api/posts`; `content` is `None` when the body lacks it. */
  function CreatePostOutcome(t: Tables, auth: AuthOutcome, content: Option<string>): (o: Outcome)
    ensures Answered(o.reply, {400, 401, 500})
    ensures !o.reply.body.success ==> o.after == t
    ensures o.after.users == t.users && o.after.likes == t.likes && o.after.comments == t.comments
  {
    if auth.MissingToken? then Outcome(Fail(401, "Authentication required"), t)
    else if auth.InvalidToken? then Outcome(Fail(401, "Invalid token"), t)
    else if content.None? || IsBlank(content.value) then Outcome(Fail(400, "Content is required"), t)
    // the post row references the token's user: a foreign-key failure lands in the catch block
    else if FindUser(t.users, auth.user.id).None? then Outcome(Fail(500, "Failed to create post"), t)
    else Published(t, auth.user, content.value)
  }

  /** What an accepted post writes and answers: the trimmed text and its hashtags under the next id. */
  function Published(t: Tables, user: AuthUser, text: string): Outcome {
    var post := Post(t.nextId, user.id, Trim(text), StoredHashtags(ExtractHashtags(text)));
    var after := t.(posts := t.posts + [post], nextId := t.nextId + 1);
    Outcome(Ok(Some(Details(after, post)), Some("Post created successfully")), after)
  }

  /** The default page size of the post listing. */
  const DefaultLimit: nat := 10

  /** `userId ? { authorId: userId } : {}`. */
  function ByAuthor(userId: Option<Id>): Post -> bool {
    (p: Post) => userId.None? || p.authorId == userId.value
  }

  /** `GET /api/posts`: posts newest first, by `userId` when given, one page of at most `limit` (default 10). */
  function ListPosts(t: Tables, limit: Option<nat>, cursor: Option<Id>, userId: Option<Id>)
    : (r: Reply<seq<PostWithDetails>>)
    ensures r.body.success && r.status == 200 && r.body.data.Some?
    ensures |r.body.data.value| <= limit.GetOr(10)
  {
    Ok(Some(DetailsAll(t, Listing(t.posts, ByAuthor(userId), PostId, cursor, limit.GetOr(DefaultLimit)))), None)
  }

  // ---------------------------------------------------------- handler

  method CreatePost(db: Store, lib: JwtLibrary, now: int, authorization: Option<string>, content: Option<string>)
    returns (reply: Reply<PostWithDetails>)
    requires db.Valid()
    modifies db
    ensures db.Valid()
    ensures var o := CreatePostOutcome(old(db.Contents()), Authenticate(lib, now, authorization), content);
      reply == o.reply && db.Contents() == o.after
  {
    var auth := Authenticate(lib, now, authorization);
    if auth.MissingToken? {
      return Fail(401, "Authentication required");
    }
    if auth.InvalidToken? {
      return Fail(401, "Invalid token");
    }
    var user := auth.user;
    if content.None? || IsBlank(content.value) {
      return Fail(400, "Content is required");
    }
    if FindUser(db.users, user.id).None? {
      return Fail(500, "Failed to create post");
    }
    ghost var t := db.Contents();
    reply := StorePost(db, user, content.value);
    CreatePostKeepsValid(t, auth, content);
  }

  /** The write of an accepted post: one row under the next id. */
  method StorePost(db: Store, user: AuthUser, text: string) returns (reply: Reply<PostWithDetails>)
    modifies db
    ensures var o := Published(old(db.Contents()), user, text);
      reply == o.reply && db.Contents() == o.after
  {
    var tags := ExtractHashtags(text);
    var post := Post(db.nextId, user.id, Trim(text), StoredHashtags(tags));
    ghost var after := old(db.Contents()).(posts := db.posts + [post], nextId := db.nextId + 1);
    db.posts, db.nextId := db.posts + [post], db.nextId + 1;
    assert db.Contents() == after;
    reply := Ok(Some(Details(db.Contents(), post)), Some("Post created successfully"));
  }

  // ------------------------------------------------------------ lemmas

  /** Both authentication failures come before the body is looked at. */
  lemma CreatePostAuthFirst(t: Tables, auth: AuthOutcome, content: Option<string>)
    requires !auth.Authenticated?
    ensures var o := CreatePostOutcome(t, auth, content);
      o.reply.status == 401 && o.after == t && o == CreatePostOutcome(t, auth, None)
  {
  }

  /** Missing or white-space-only content is a 400 "Content is required" that creates nothing. */
  lemma CreatePostRequiresContent(t: Tables, user: AuthUser, content: Option<string>)
    requires content.None? || IsBlank(content.value)
    ensures CreatePostOutcome(t, Authenticated(user), content) == Outcome(Fail(400, "Content is required"), t)
  {
  }

  /**
   * Publishing succeeds for any non-blank content of any length from a
   * caller with an account. The new post is the newest row; it holds the
   * trimmed text and the caller as author; its stored hashtags are null
   * exactly when the text has none, and they decode to the tags of the
   * stored text.
   */
  lemma CreatePostStores(t: Tables, auth: AuthOutcome, content: Option<string>)
    ensures var o := CreatePostOutcome(t, auth, content);
      o.reply.body.success <==>
        auth.Authenticated? && content.Some? && !IsBlank(content.value) && HasUser(t.users, auth.user.id)
    ensures var o := CreatePostOutcome(t, auth, content);
      o.reply.body.success ==>
        var p := o.after.posts[|o.after.posts| - 1];
        && o.after.posts == t.posts + [p]
        && p.id == t.nextId && p.authorId == auth.user.id && p.content == Trim(content.value)
        && (p.hashtags.None? <==> ExtractHashtags(p.content) == [])
        && ParseHashtags(p.hashtags) == ExtractHashtags(p.content)
        && o.after.users == t.users && o.after.likes == t.likes && o.after.comments == t.comments
        && o.after.notifications == t.notifications
        && o.reply.body.data == Some(Details(o.after, p))
  {
    var o := CreatePostOutcome(t, auth, content);
    if o.reply.body.success {
      ExtractIgnoresTrim(content.value);
    }
  }

  /**
   * A post page holds posts of the table, by `userId` when one is given,
   * newest first, at most `limit` of them (10 when not given), all older
   * than the cursor post; each comes with its details. Without a cursor the
   * page is as full as `limit` and the matching posts allow.
   */
  lemma ListPostsPage(t: Tables, limit: Option<nat>, cursor: Option<Id>, userId: Option<Id>)
    requires Ascending(t.posts, PostId)
    ensures var r := ListPosts(t, limit, cursor, userId);
      && r.body.success && r.body.data.Some?
      && |r.body.data.value| <= limit.GetOr(10)
      && (cursor.None? ==> |r.body.data.value| == Min(limit.GetOr(10), |Filter(t.posts, ByAuthor(userId))|))
      && (forall i :: 0 <= i < |r.body.data.value| ==>
            var d := r.body.data.value[i];
            d.post in t.posts && (userId.Some? ==> d.post.authorId == userId.value) && d == Details(t, d.post))
      && (forall i, j :: 0 <= i < j < |r.body.data.value| ==> r.body.data.value[i].post.id > r.body.data.value[j].post.id)
      && (cursor.Some? ==> forall i :: 0 <= i < |r.body.data.value| ==> r.body.data.value[i].post.id < cursor.value)
  {
    var page := Listing(t.posts, ByAuthor(userId), PostId, cursor, limit.GetOr(DefaultLimit));
    ListingPage(t.posts, ByAuthor(userId), PostId, cursor, limit.GetOr(DefaultLimit));
    var views := DetailsAll(t, page);
    assert ListPosts(t, limit, cursor, userId) == Ok(Some(views), None);
    forall i | 0 <= i < |views|
      ensures views[i].post == page[i] && views[i] == Details(t, page[i])
      ensures page[i] in t.posts && (userId.Some? ==> page[i].authorId == userId.value)
    {
      assert ByAuthor(userId)(page[i]);
    }
    forall i, j | 0 <= i < j < |views| ensures views[i].post.id > views[j].post.id {
      assert PostId(page[i]) > PostId(page[j]);
    }
  }

  /**
   * No post is missed: a post (by `userId`, when given) is on the first
   * page unless that page is full of newer posts, and the same holds of the
   * page after any such post that is newer than it.
   */
  lemma ListPostsComplete(t: Tables, limit: Option<nat>, userId: Option<Id>, p: Post)
    requires Ascending(t.posts, PostId)
    requires p in t.posts && (userId.Some? ==> p.authorId == userId.value)
    ensures PostListedUnlessFull(ListPosts(t, limit, None, userId).body.data.value, limit.GetOr(10), p)
    ensures forall newer :: newer in t.posts && (userId.Some? ==> newer.authorId == userId.value) && p.id < newer.id ==>
      PostListedUnlessFull(ListPosts(t, limit, Some(newer.id), userId).body.data.value, limit.GetOr(10), p)
  {
    var keep := ByAuthor(userId);
    var n := limit.GetOr(DefaultLimit);
    assert keep(p);
    ListingComplete(t.posts, keep, PostId, n, p);
    PostViewsListed(t, Listing(t.posts, keep, PostId, None, n), n, p);
    assert ListPosts(t, limit, None, userId).body.data.value == DetailsAll(t, Listing(t.posts, keep, PostId, None, n));
    forall newer | newer in t.posts && (userId.Some? ==> newer.authorId == userId.value) && p.id < newer.id
      ensures PostListedUnlessFull(ListPosts(t, limit, Some(newer.id), userId).body.data.value, n, p)
    {
      assert keep(newer) && PostId(newer) == newer.id;
      PostViewsListed(t, Listing(t.posts, keep, PostId, Some(newer.id), n), n, p);
      assert ListPosts(t, limit, Some(newer.id), userId).body.data.value
          == DetailsAll(t, Listing(t.posts, keep, PostId, Some(newer.id), n));
    }
  }

  /** Each listed post shows at most three comments, and exact like and comment counts. */
  lemma ListedPostDetails(t: Tables, limit: Option<nat>, cursor: Option<Id>, userId: Option<Id>, i: nat)
    requires ListPosts(t, limit, cursor, userId).body.data.Some?
    requires i < |ListPosts(t, limit, cursor, userId).body.data.value|
    ensures var d := ListPosts(t, limit, cursor, userId).body.data.value[i];
      && |d.comments| <= 3
      && d.likeCount == |Filter(t.likes, LikeOnPost(d.post.id))|
      && d.commentCount == |Filter(t.comments, CommentOnPost(d.post.id))|
  {
  }

  // ------------------------------------------------ invariant preservation

  lemma CreatePostKeepsValid(t: Tables, auth: AuthOutcome, content: Option<string>)
    requires ValidTables(t)
    ensures ValidTables(CreatePostOutcome(t, auth, content).after)
  {
    var o := CreatePostOutcome(t, auth, content);
    if o.reply.body.success {
      InsertPostValid(t, Post(t.nextId, auth.user.id, Trim(content.value), StoredHashtags(ExtractHashtags(content.value))));
    }
  }
}
