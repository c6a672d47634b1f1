/**
 * The database the handlers talk to, as in-memory tables.
 *
 * Rows are kept in creation order and every created row takes the next id
 * from one counter, so "newest first" is the reverse of table order and ids
 * grow with creation time. `ValidTables` collects what the schema's keys and
 * unique constraints guarantee and what every handler keeps true.
 */
module Database {
  import opened Wrappers
  import opened ApiTypes
  import opened Query

  datatype User = User(
    id: Id,
    email: string,
    username: string,
    displayName: string,
    password: string,
    bio: Option<string>,
    avatar: Option<string>)

  /** `hashtags` holds `stringifyHashtags` of the post's tags, or null when it has none. */
  datatype Post = Post(id: Id, authorId: Id, content: string, hashtags: Option<string>)

  datatype Like = Like(userId: Id, postId: Id)

  datatype Comment = Comment(id: Id, userId: Id, postId: Id, content: string)

  datatype NotificationType = LIKE | COMMENT

  /** A notification addressed to user `userId`. */
  datatype Notification = Notification(userId: Id, kind: NotificationType, message: string)

  datatype Tables = Tables(
    users: seq<User>,
    posts: seq<Post>,
    likes: seq<Like>,
    comments: seq<Comment>,
    notifications: seq<Notification>,
    nextId: Id)

  function UserId(u: User): Id { u.id }
  function PostId(p: Post): Id { p.id }
  function CommentId(c: Comment): Id { c.id }

  predicate HasUser(users: seq<User>, id: Id) {
    exists i | 0 <= i < |users| :: users[i].id == id
  }

  predicate HasPost(posts: seq<Post>, id: Id) {
    exists i | 0 <= i < |posts| :: posts[i].id == id
  }

  /** No two accounts share an email or a username. */
  predicate UniqueAccounts(users: seq<User>) {
    forall i, j :: 0 <= i < j < |users| ==> users[i].email != users[j].email && users[i].username != users[j].username
  }

  /** Under unique accounts, an email picks out one row. */
  lemma EmailIdentifiesAccount(users: seq<User>, a: nat, b: nat)
    requires UniqueAccounts(users) && a < |users| && b < |users| && users[a].email == users[b].email
    ensures a == b
  {
  }

  /** The `@@unique([userId, postId])` key of the like table. */
  predicate UniqueLikes(likes: seq<Like>) {
    forall i, j :: 0 <= i < j < |likes| ==> likes[i] != likes[j]
  }

  ghost predicate ValidTables(t: Tables) {
    && Ascending(t.users, UserId) && Ascending(t.posts, PostId) && Ascending(t.comments, CommentId)
    && (forall i :: 0 <= i < |t.users| ==> t.users[i].id < t.nextId)
    && (forall i :: 0 <= i < |t.posts| ==> t.posts[i].id < t.nextId)
    && (forall i :: 0 <= i < |t.comments| ==> t.comments[i].id < t.nextId)
    && UniqueAccounts(t.users)
    && UniqueLikes(t.likes)
    && (forall i :: 0 <= i < |t.posts| ==> HasUser(t.users, t.posts[i].authorId))
    && (forall i :: 0 <= i < |t.likes| ==> HasUser(t.users, t.likes[i].userId) && HasPost(t.posts, t.likes[i].postId))
    && (forall i :: 0 <= i < |t.comments| ==> HasUser(t.users, t.comments[i].userId) && HasPost(t.posts, t.comments[i].postId))
    && (forall i :: 0 <= i < |t.notifications| ==> HasUser(t.users, t.notifications[i].userId))
  }

  /** `findUnique({ where: { id } })` on the user table. */
  function FindUser(users: seq<User>, id: Id): (u: Option<User>)
    ensures u.Some? <==> HasUser(users, id)
    ensures u.Some? ==> u.value in users && u.value.id == id
  {
    match IndexOf(users, UserId, id)
    case None => None
    case Some(k) => Some(users[k])
  }

  /** `findUnique({ where: { id } })` on the post table. */
  function FindPost(posts: seq<Post>, id: Id): (p: Option<Post>)
    ensures p.Some? <==> HasPost(posts, id)
    ensures p.Some? ==> p.value in posts && p.value.id == id
  {
    match IndexOf(posts, PostId, id)
    case None => None
    case Some(k) => Some(posts[k])
  }

  /** `findUnique({ where: { email } })` on the user table. */
  function FindByEmail(users: seq<User>, email: string): (u: Option<User>)
    ensures u.Some? ==> u.value in users && u.value.email == email
    ensures u.None? ==> forall i :: 0 <= i < |users| ==> users[i].email != email
  {
    if users == [] then None
    else if users[0].email == email then Some(users[0])
    else FindByEmail(users[1..], email)
  }

  /** The account as the API shows it: every column but the password hash. */
  function PublicUser(u: User): (a: AuthUser)
    ensures a.id == u.id && a.email == u.email && a.username == u.username && a.displayName == u.displayName
    ensures a.bio == u.bio && a.avatar == u.avatar
  {
    AuthUser(u.id, u.email, u.username, u.displayName, u.bio, u.avatar)
  }

  /** `user.displayName || user.username`: the name a notification shows. */
  function ActorName(u: AuthUser): (name: string)
    ensures name == u.displayName || name == u.username
    ensures name == "" ==> u.displayName == "" && u.username == ""
  {
    if u.displayName != "" then u.displayName else u.username
  }

  // ------------------------------------------------------------ the store

  /** The database connection: the tables, updated in place by the handlers. */
  class Store {
    var users: seq<User>
    var posts: seq<Post>
    var likes: seq<Like>
    var comments: seq<Comment>
    var notifications: seq<Notification>
    var nextId: Id

    function Contents(): Tables
      reads this
    {
      Tables(users, posts, likes, comments, notifications, nextId)
    }

    ghost predicate Valid()
      reads this
    {
      ValidTables(Contents())
    }

    constructor ()
      ensures Valid() && Contents() == Tables([], [], [], [], [], 0)
    {
      users, posts, likes, comments, notifications, nextId := [], [], [], [], [], 0;
    }
  }

  // ------------------------------------------- rows with their relations

  /** The `select: { id, username, displayName, avatar }` of a related user. */
  datatype UserSummary = UserSummary(id: Id, username: string, displayName: string, avatar: Option<string>)

  /** `CommentWithAuthor`: a comment and its author. */
  datatype CommentWithAuthor = CommentWithAuthor(comment: Comment, user: UserSummary)

  /** `PostWithDetails`: a post, its author, its likers, up to three recent comments and the `_count`s. */
  datatype PostWithDetails = PostWithDetails(
    post: Post,
    author: UserSummary,
    likes: seq<Id>,
    comments: seq<CommentWithAuthor>,
    likeCount: int,
    commentCount: int)

  /** The summary of user `id`; the schema's foreign keys guarantee it exists wherever it is asked for. */
  function Summary(users: seq<User>, id: Id): (s: UserSummary)
    ensures s.id == id
    ensures HasUser(users, id) ==> exists u :: u in users && u.id == id && s == UserSummary(id, u.username, u.displayName, u.avatar)
  {
    match FindUser(users, id)
    case Some(u) => UserSummary(u.id, u.username, u.displayName, u.avatar)
    case None => UserSummary(id, "", "", None)
  }

  function LikeOnPost(postId: Id): Like -> bool {
    (l: Like) => l.postId == postId
  }

  function CommentOnPost(postId: Id): Comment -> bool {
    (c: Comment) => c.postId == postId
  }

  function WithAuthor(users: seq<User>, cs: seq<Comment>): (r: seq<CommentWithAuthor>)
    ensures |r| == |cs|
    ensures forall i :: 0 <= i < |cs| ==> r[i].comment == cs[i] && r[i].user.id == cs[i].userId
  {
    seq(|cs|, i requires 0 <= i < |cs| => CommentWithAuthor(cs[i], Summary(users, cs[i].userId)))
  }

  function Likers(likes: seq<Like>): (ids: seq<Id>)
    ensures |ids| == |likes|
    ensures forall i :: 0 <= i < |likes| ==> ids[i] == likes[i].userId
  {
    seq(|likes|, i requires 0 <= i < |likes| => likes[i].userId)
  }

  /** The `include` of the post listings: author, likers, the three newest comments and both counts. */
  function Details(t: Tables, p: Post): (d: PostWithDetails)
    ensures d.post == p && d.author.id == p.authorId
    ensures d.likeCount == |d.likes| == |Filter(t.likes, LikeOnPost(p.id))|
    ensures d.commentCount == |Filter(t.comments, CommentOnPost(p.id))|
    ensures |d.comments| == Min(3, d.commentCount)
    ensures forall i :: 0 <= i < |d.comments| ==> d.comments[i].comment in t.comments && d.comments[i].comment.postId == p.id
  {
    var likes := Filter(t.likes, LikeOnPost(p.id));
    var comments := Filter(t.comments, CommentOnPost(p.id));
    var recent := Take(Newest(comments), 3);
    PostWithDetails(p, Summary(t.users, p.authorId), Likers(likes), WithAuthor(t.users, recent), |likes|, |comments|)
  }

  function DetailsAll(t: Tables, ps: seq<Post>): (ds: seq<PostWithDetails>)
    ensures |ds| == |ps|
    ensures forall i :: 0 <= i < |ps| ==> ds[i] == Details(t, ps[i])
  {
    seq(|ps|, i requires 0 <= i < |ps| => Details(t, ps[i]))
  }

  /** Comment `c` is on the page, or the page is full of comments newer than `c`. */
  predicate CommentListedUnlessFull(views: seq<CommentWithAuthor>, limit: nat, c: Comment) {
    (exists i :: 0 <= i < |views| && views[i].comment == c)
    || (|views| == limit && forall i :: 0 <= i < |views| ==> c.id < views[i].comment.id)
  }

  lemma CommentViewsListed(users: seq<User>, page: seq<Comment>, limit: nat, c: Comment)
    requires c in page || FullAbove(page, limit, CommentId, c)
    ensures CommentListedUnlessFull(WithAuthor(users, page), limit, c)
  {
    var views := WithAuthor(users, page);
    if c in page {
      var i :| 0 <= i < |page| && page[i] == c;
      assert views[i].comment == c;
    } else {
      forall i | 0 <= i < |views| ensures c.id < views[i].comment.id {
        assert views[i].comment == page[i] && CommentId(c) < CommentId(page[i]);
      }
    }
  }

  /** Post `p` is on the page, or the page is full of posts newer than `p`. */
  predicate PostListedUnlessFull(views: seq<PostWithDetails>, limit: nat, p: Post) {
    (exists i :: 0 <= i < |views| && views[i].post == p)
    || (|views| == limit && forall i :: 0 <= i < |views| ==> p.id < views[i].post.id)
  }

  lemma PostViewsListed(t: Tables, page: seq<Post>, limit: nat, p: Post)
    requires p in page || FullAbove(page, limit, PostId, p)
    ensures PostListedUnlessFull(DetailsAll(t, page), limit, p)
  {
    var views := DetailsAll(t, page);
    if p in page {
      var i :| 0 <= i < |page| && page[i] == p;
      assert views[i].post == p;
    } else {
      forall i | 0 <= i < |views| ensures p.id < views[i].post.id {
        assert views[i].post == page[i] && PostId(p) < PostId(page[i]);
      }
    }
  }

  // ------------------------------------------------------------ lemmas

  /** The likers shown with a post are exactly the users with a like row on it. */
  lemma DetailsLikers(t: Tables, p: Post, u: Id)
    ensures u in Details(t, p).likes <==> Like(u, p.id) in t.likes
  {
    var likes := Filter(t.likes, LikeOnPost(p.id));
    var d := Details(t, p);
    if u in d.likes {
      var i :| 0 <= i < |d.likes| && d.likes[i] == u;
      assert likes[i] in t.likes && likes[i].postId == p.id;
      assert likes[i] == Like(u, p.id);
    }
    if Like(u, p.id) in t.likes {
      var j :| 0 <= j < |t.likes| && t.likes[j] == Like(u, p.id);
      assert LikeOnPost(p.id)(t.likes[j]);
      var i :| 0 <= i < |likes| && likes[i] == Like(u, p.id);
      assert d.likes[i] == u;
    }
  }

  /** The like count shown with a post is the number of distinct users who like it. */
  lemma {:induction false} LikersDistinct(t: Tables, p: Post)
    requires ValidTables(t)
    ensures forall i, j :: 0 <= i < j < |Details(t, p).likes| ==> Details(t, p).likes[i] != Details(t, p).likes[j]
  {
    var likes := Filter(t.likes, LikeOnPost(p.id));
    UniqueFilter(t.likes, LikeOnPost(p.id));
    var d := Details(t, p);
    forall i, j | 0 <= i < j < |d.likes| ensures d.likes[i] != d.likes[j] {
      assert likes[i].postId == p.id && likes[j].postId == p.id;
      assert likes[i] != likes[j];
    }
  }

  lemma {:induction false} UniqueFilter(likes: seq<Like>, keep: Like -> bool)
    requires UniqueLikes(likes)
    ensures UniqueLikes(Filter(likes, keep))
    decreases |likes|
  {
    if likes != [] {
      UniqueFilter(likes[1..], keep);
      var r := Filter(likes[1..], keep);
      forall i | 0 <= i < |r| ensures r[i] != likes[0] {
        var j :| 0 <= j < |likes[1..]| && likes[1..][j] == r[i];
        assert likes[j + 1] == r[i];
      }
    }
  }

  /** The recent comments of a post come newest first. */
  lemma RecentCommentsNewestFirst(t: Tables, p: Post)
    requires Ascending(t.comments, CommentId)
    ensures forall i, j :: 0 <= i < j < |Details(t, p).comments| ==>
      Details(t, p).comments[i].comment.id > Details(t, p).comments[j].comment.id
  {
    var comments := Filter(t.comments, CommentOnPost(p.id));
    FilterAscending(t.comments, CommentOnPost(p.id), CommentId);
    NewestDescending(comments, CommentId);
    var newest := Newest(comments);
    var d := Details(t, p);
    assert d.comments == WithAuthor(t.users, Take(newest, 3));
    forall i, j | 0 <= i < j < |d.comments| ensures d.comments[i].comment.id > d.comments[j].comment.id {
      assert d.comments[i].comment == newest[i];
      assert d.comments[j].comment == newest[j];
    }
  }

  /**
   * The embedded comments are the post's three newest: each comment on the
   * post is shown, unless three newer ones already are.
   */
  lemma RecentAreNewest(t: Tables, p: Post, c: Comment)
    requires Ascending(t.comments, CommentId)
    requires c in t.comments && c.postId == p.id
    ensures CommentListedUnlessFull(Details(t, p).comments, 3, c)
  {
    var keep := CommentOnPost(p.id);
    var comments := Filter(t.comments, keep);
    FilterAscending(t.comments, keep, CommentId);
    NewestDescending(comments, CommentId);
    NewestFilterComplete(t.comments, keep, c);
    TakeComplete(Newest(comments), CommentId, 3, c);
    CommentViewsListed(t.users, Take(Newest(comments), 3), 3, c);
    assert Details(t, p).comments == WithAuthor(t.users, Take(Newest(comments), 3));
  }

  /** Under the foreign keys and the primary key, a post's author summary is its author's row. */
  lemma AuthorIsTheRealAuthor(t: Tables, p: Post, u: User)
    requires ValidTables(t) && p in t.posts && u in t.users && u.id == p.authorId
    ensures Details(t, p).author == UserSummary(u.id, u.username, u.displayName, u.avatar)
  {
    var w :| w in t.users && w.id == p.authorId && Details(t, p).author == UserSummary(w.id, w.username, w.displayName, w.avatar);
    var a :| 0 <= a < |t.users| && t.users[a] == u;
    var b :| 0 <= b < |t.users| && t.users[b] == w;
    AscendingKeysDistinct(t.users, UserId, a, b);
  }

  // ------------------------------------------- inserts keep the tables valid

  lemma HasUserAppend(users: seq<User>, u: User, id: Id)
    requires HasUser(users, id)
    ensures HasUser(users + [u], id)
  {
    var i :| 0 <= i < |users| && users[i].id == id;
    assert (users + [u])[i] == users[i];
  }

  lemma HasPostAppend(posts: seq<Post>, p: Post, id: Id)
    requires HasPost(posts, id)
    ensures HasPost(posts + [p], id)
  {
    var i :| 0 <= i < |posts| && posts[i].id == id;
    assert (posts + [p])[i] == posts[i];
  }

  /** Inserting a like for an existing user and post that is not yet in the table. */
  lemma InsertLikeValid(t: Tables, l: Like)
    requires ValidTables(t)
    requires l !in t.likes && HasUser(t.users, l.userId) && HasPost(t.posts, l.postId)
    ensures ValidTables(t.(likes := t.likes + [l]))
  {
    var likes := t.likes + [l];
    forall i | 0 <= i < |likes| ensures HasUser(t.users, likes[i].userId) && HasPost(t.posts, likes[i].postId) {
      if i < |t.likes| { assert likes[i] == t.likes[i]; }
    }
    forall i, j | 0 <= i < j < |likes| ensures likes[i] != likes[j] {
      if j < |t.likes| { assert likes[i] == t.likes[i] && likes[j] == t.likes[j]; }
      else { assert likes[i] == t.likes[i]; }
    }
  }

  /** Inserting a notification for an existing user. */
  lemma InsertNotificationValid(t: Tables, n: Notification)
    requires ValidTables(t) && HasUser(t.users, n.userId)
    ensures ValidTables(t.(notifications := t.notifications + [n]))
  {
    var ns := t.notifications + [n];
    forall i | 0 <= i < |ns| ensures HasUser(t.users, ns[i].userId) {
      if i < |t.notifications| { assert ns[i] == t.notifications[i]; }
    }
  }

  /** Inserting a comment under the next id, by an existing user, on an existing post. */
  lemma InsertCommentValid(t: Tables, c: Comment)
    requires ValidTables(t)
    requires c.id == t.nextId && HasUser(t.users, c.userId) && HasPost(t.posts, c.postId)
    ensures ValidTables(t.(comments := t.comments + [c], nextId := t.nextId + 1))
  {
    var cs := t.comments + [c];
    forall i, j | 0 <= i < j < |cs| ensures CommentId(cs[i]) < CommentId(cs[j]) {
      assert cs[i] == t.comments[i];
      if j < |t.comments| { assert cs[j] == t.comments[j]; }
    }
    forall i | 0 <= i < |cs| ensures cs[i].id < t.nextId + 1 && HasUser(t.users, cs[i].userId) && HasPost(t.posts, cs[i].postId) {
      if i < |t.comments| { assert cs[i] == t.comments[i]; }
    }
  }

  /** Inserting a post under the next id, by an existing user. */
  lemma InsertPostValid(t: Tables, p: Post)
    requires ValidTables(t)
    requires p.id == t.nextId && HasUser(t.users, p.authorId)
    ensures ValidTables(t.(posts := t.posts + [p], nextId := t.nextId + 1))
  {
    var ps := t.posts + [p];
    forall i, j | 0 <= i < j < |ps| ensures PostId(ps[i]) < PostId(ps[j]) {
      assert ps[i] == t.posts[i];
      if j < |t.posts| { assert ps[j] == t.posts[j]; }
    }
    forall i | 0 <= i < |ps| ensures ps[i].id < t.nextId + 1 && HasUser(t.users, ps[i].authorId) {
      if i < |t.posts| { assert ps[i] == t.posts[i]; }
    }
    forall i | 0 <= i < |t.likes| ensures HasPost(ps, t.likes[i].postId) {
      HasPostAppend(t.posts, p, t.likes[i].postId);
    }
    forall i | 0 <= i < |t.comments| ensures HasPost(ps, t.comments[i].postId) {
      HasPostAppend(t.posts, p, t.comments[i].postId);
    }
  }

  /** Inserting an account under the next id whose email and username are both unused. */
  lemma InsertUserValid(t: Tables, u: User)
    requires ValidTables(t)
    requires u.id == t.nextId
    requires forall i :: 0 <= i < |t.users| ==> t.users[i].email != u.email && t.users[i].username != u.username
    ensures ValidTables(t.(users := t.users + [u], nextId := t.nextId + 1))
  {
    var us := t.users + [u];
    forall i, j | 0 <= i < j < |us| ensures UserId(us[i]) < UserId(us[j]) && us[i].email != us[j].email && us[i].username != us[j].username {
      assert us[i] == t.users[i];
      if j < |t.users| { assert us[j] == t.users[j]; }
    }
    forall i | 0 <= i < |us| ensures us[i].id < t.nextId + 1 {
      if i < |t.users| { assert us[i] == t.users[i]; }
    }
    forall i | 0 <= i < |t.posts| ensures HasUser(us, t.posts[i].authorId) {
      HasUserAppend(t.users, u, t.posts[i].authorId);
    }
    forall i | 0 <= i < |t.likes| ensures HasUser(us, t.likes[i].userId) {
      HasUserAppend(t.users, u, t.likes[i].userId);
    }
    forall i | 0 <= i < |t.comments| ensures HasUser(us, t.comments[i].userId) {
      HasUserAppend(t.users, u, t.comments[i].userId);
    }
    forall i | 0 <= i < |t.notifications| ensures HasUser(us, t.notifications[i].userId) {
      HasUserAppend(t.users, u, t.notifications[i].userId);
    }
  }

  /** A post of the table has an author in the table. */
  lemma PostAuthorExists(t: Tables, p: Post)
    requires ValidTables(t) && p in t.posts
    ensures HasUser(t.users, p.authorId)
  {
    var k :| 0 <= k < |t.posts| && t.posts[k] == p;
  }
}
