/**
 * One post in a list: its heart button (liked or not, the count next to
 * it, a busy flag) and the way its text is laid out with hashtags
 * highlighted.
 */
module PostCard {
  import opened Wrappers
  import opened Text
  import opened ApiTypes
  import opened Database
  import opened Auth
  import opened LikesRoute

  /** The HTTP method of the request the heart button sends. */
  datatype Method = POST | DELETE

  class Card {
    const post: PostWithDetails
    /** The signed-in user when the card was first shown. */
    const user: Option<AuthUser>
    var isLiked: bool
    var likesCount: int
    var isLiking: bool

    /** The heart starts filled when the signed-in user is among the post's likers. */
    constructor (post: PostWithDetails, user: Option<AuthUser>)
      ensures this.post == post && this.user == user
      ensures isLiked <==> user.Some? && user.value.id in post.likes
      ensures likesCount == post.likeCount && !isLiking
    {
      this.post := post;
      this.user := user;
      isLiked := user.Some? && user.value.id in post.likes;
      likesCount := post.likeCount;
      isLiking := false;
    }

    /**
     * A press on the heart. `response` is what the request resolved to, or
     * `None` when it threw. Returns the method sent, if any, and the new
     * liked state reported to the list when the request succeeded.
     */
    method HandleLike(response: Option<ApiResponse<()>>) returns (request: Option<Method>, reported: Option<bool>)
      modifies this
      ensures request.Some? <==> user.Some? && !old(isLiking)
      ensures request.Some? ==> request.value == (if old(isLiked) then DELETE else POST) && !isLiking
      ensures request.None? ==> isLiking == old(isLiking)
      ensures reported.Some? <==> request.Some? && response.Some? && response.value.success
      ensures reported.Some? ==>
                reported.value == !old(isLiked) && isLiked == reported.value
                && likesCount == old(likesCount) + (if reported.value then 1 else -1)
      ensures reported.None? ==> isLiked == old(isLiked) && likesCount == old(likesCount)
    {
      if user.None? || isLiking {
        return None, None;
      }
      isLiking := true;
      var newIsLiked := !isLiked;
      request := Some(if newIsLiked then POST else DELETE);
      reported := None;
      if response.Some? && response.value.success {
        isLiked := newIsLiked;
        likesCount := if newIsLiked then likesCount + 1 else likesCount - 1;
        reported := Some(newIsLiked);
      }
      isLiking := false;
    }
  }

  /**
   * The server's answer to the request a card sends: a like when the heart
   * is empty, an unlike when it is filled.
   */
  function Toggle(t: Tables, user: AuthUser, postId: Id, isLiked: bool): (o: Outcome)
    ensures !o.reply.body.success ==> o.after == t
    ensures o.after.users == t.users && o.after.posts == t.posts && o.after.comments == t.comments
  {
    if isLiked then UnlikeOutcome(t, Authenticated(user), Some(postId))
    else LikeOutcome(t, Authenticated(user), Some(postId))
  }

  /**
   * A heart that shows whether the user's like is stored stays truthful:
   * when the request succeeds, the flipped heart again shows whether the
   * like is stored.
   */
  lemma HeartStaysTruthful(t: Tables, user: AuthUser, postId: Id, isLiked: bool)
    requires isLiked <==> Like(user.id, postId) in t.likes
    requires Toggle(t, user, postId, isLiked).reply.body.success
    ensures !isLiked <==> Like(user.id, postId) in Toggle(t, user, postId, isLiked).after.likes
  {
    if isLiked {
      UnlikeSuccess(t, Authenticated(user), Some(postId), t.posts);
    } else {
      LikeSuccess(t, Authenticated(user), Some(postId));
    }
  }

  /**
   * A card built from a listed post starts truthful: its heart, filled when
   * the user is among the post's likers, shows whether the like is stored,
   * and after a successful first click the flipped heart still does.
   */
  lemma ListedHeartTruthful(t: Tables, p: Post, user: AuthUser)
    ensures user.id in Details(t, p).likes <==> Like(user.id, p.id) in t.likes
    ensures var isLiked := user.id in Details(t, p).likes;
      Toggle(t, user, p.id, isLiked).reply.body.success ==>
        (!isLiked <==> Like(user.id, p.id) in Toggle(t, user, p.id, isLiked).after.likes)
  {
    DetailsLikers(t, p, user.id);
    var isLiked := user.id in Details(t, p).likes;
    if Toggle(t, user, p.id, isLiked).reply.body.success {
      HeartStaysTruthful(t, user, p.id, isLiked);
    }
  }

  /** A heart that is out of date is refused by the server and the store is left alone. */
  lemma StaleHeartRefused(t: Tables, user: AuthUser, postId: Id, isLiked: bool)
    requires isLiked <==> Like(user.id, postId) !in t.likes
    ensures !Toggle(t, user, postId, isLiked).reply.body.success
    ensures Toggle(t, user, postId, isLiked).after == t
  {
    if isLiked {
      UnlikeAbsent(t, user, postId);
    } else {
      LikeSuccess(t, Authenticated(user), Some(postId));
      LikeFailureWritesNothing(t, Authenticated(user), Some(postId));
    }
  }

  // ------------------------------------------------ hashtag highlighting

  /** `s.split(sep)`: the pieces between separators, empty ones included. */
  function Split(s: string, sep: char): (parts: seq<string>)
    ensures |parts| >= 1
    ensures forall i :: 0 <= i < |parts| ==> sep !in parts[i]
  {
    if s == [] then [[]]
    else
      var rest := Split(s[1..], sep);
      if s[0] == sep then [[]] + rest
      else [[s[0]] + rest[0]] + rest[1..]
  }

  /** `parts.join(sep)`. */
  function Join(parts: seq<string>, sep: char): string
    requires |parts| >= 1
  {
    if |parts| == 1 then parts[0] else parts[0] + [sep] + Join(parts[1..], sep)
  }

  /** One rendered word: highlighted when it starts with '#'; both carry a trailing blank. */
  datatype Piece = Plain(text: string) | Highlighted(text: string)

  /** `renderContent`: every word of the text, split at single blanks, followed by a blank. */
  function RenderContent(content: string): (pieces: seq<Piece>)
    ensures |pieces| == |Split(content, ' ')|
    ensures forall i :: 0 <= i < |pieces| ==>
              var word := Split(content, ' ')[i];
              pieces[i].text == word + " " && (pieces[i].Highlighted? <==> StartsWith(word, "#"))
  {
    var words := Split(content, ' ');
    seq(|words|, i requires 0 <= i < |words| =>
      if StartsWith(words[i], "#") then Highlighted(words[i] + " ") else Plain(words[i] + " "))
  }

  /** The text on screen: the pieces one after the other. */
  function Shown(pieces: seq<Piece>): string {
    if pieces == [] then [] else pieces[0].text + Shown(pieces[1..])
  }

  /** Splitting and joining again gives back the text. */
  lemma {:induction false} JoinSplit(s: string, sep: char)
    ensures Join(Split(s, sep), sep) == s
    decreases |s|
  {
    if s != [] {
      JoinSplit(s[1..], sep);
      var rest := Split(s[1..], sep);
      if s[0] == sep {
        assert Split(s, sep)[1..] == rest;
        assert s == [sep] + s[1..];
      } else {
        var parts := Split(s, sep);
        assert parts[1..] == rest[1..];
        if |rest| == 1 {
          assert s == [s[0]] + rest[0];
        } else {
          assert Join(rest, sep) == rest[0] + [sep] + Join(rest[1..], sep);
          assert s == [s[0]] + s[1..];
        }
      }
    }
  }

  /** Words with a blank after each, one after the other, are the joined words plus a final blank. */
  lemma {:induction false} ShownWords(pieces: seq<Piece>, words: seq<string>)
    requires |words| >= 1 && |pieces| == |words|
    requires forall i :: 0 <= i < |pieces| ==> pieces[i].text == words[i] + " "
    ensures Shown(pieces) == Join(words, ' ') + " "
    decreases |words|
  {
    if |words| > 1 {
      ShownWords(pieces[1..], words[1..]);
      assert pieces[0].text == words[0] + " ";
    } else {
      assert pieces[1..] == [];
    }
  }

  /** The rendered text is the post's text with one blank added at the end; nothing is lost or reordered. */
  lemma RenderKeepsText(content: string)
    ensures Shown(RenderContent(content)) == content + " "
  {
    ShownWords(RenderContent(content), Split(content, ' '));
    JoinSplit(content, ' ');
  }
}
