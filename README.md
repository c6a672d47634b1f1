# Bailanysta core, modelled in Dafny

Bailanysta is a small social network. People sign up and sign in. They
publish short text posts with `#hashtags`, like and unlike posts, comment
on them and search them. This project models the core of the application,
both its server side and the client pages that call it.

**Server side.** The HTTP handlers are `POST`/`GET /api/posts`,
`POST`/`DELETE /api/likes`, `POST`/`GET /api/comments`, `GET /api/search`,
`POST /api/auth/register` and `POST /api/auth/login`. They are backed by:

- the bearer-token helpers of `src/lib/auth.ts`;
- the hashtag utilities of `src/utils/hashtags.ts`.

**Client side.**

- `useAuth`: the session, kept in browser storage.
- `useApi`: the request helper.
- The sign-up and sign-in forms.
- The post card, with its heart button and hashtag highlighting.
- The feed, create and search pages.

## How it is modelled

**The database.** It is a `Database.Store` object. Its fields are the
tables (`users`, `posts`, `likes`, `comments`, `notifications`) plus an id
counter. Ids are natural numbers handed out in creation order, so
"newest first" means "highest id first". The Prisma client the handlers
share (`src/lib/db.ts`) is not part of this model; a new `Store` starts
with empty tables, which satisfy the table invariant.

**The handlers.** Each handler that writes has two parts:

- a pure function (`LikeOutcome`, `AddCommentOutcome`, `CreatePostOutcome`,
  `RegisterOutcome`, ...) that gives the reply and the tables afterwards;
- a method on the `Store` (`LikePost`, `AddComment`, `CreatePost`,
  `Register`, ...) that performs the same steps in place. It is proved to
  agree with its function and to keep the table invariant
  (`Database.ValidTables`).

The invariant covers:

- unique ids;
- unique emails and usernames;
- at most one like per user and post;
- foreign keys.

The listings (posts, comments, search) are pure functions. They are built
on `Query.Filter`, `Newest`, `Take`, `Skip` and the cursor-based
`Listing`. Like Prisma, `Listing` looks the cursor row up in the whole
table, not among the matching rows. The candidates are then the matching
rows up to and including the cursor row, newest first, and `skip: 1` drops
the first of them. That is the cursor row when it matches, and otherwise
the newest matching row older than it.

**Outside code.** The JWT library, bcrypt and the clock are parameters.
`Auth.SoundJwt` states what the application relies on from the JWT
library: a token it signed verifies to its own claims until it expires,
and never after. The lemmas take that property as a precondition.

**The client.** Each React component or hook is a class whose fields are
its state (`useState`). Its handlers are methods. What a `fetch` or a
`makeRequest` resolved to is a parameter of the handler; `None` stands for
a promise that rejected. Browser storage is a `map<string, string>`.
`JSON.stringify`/`JSON.parse` of a user are a `UserCodec` passed in, and
`AuthHook.SoundCodec` states the round trip they are assumed to satisfy.

Behaviour of the code worth knowing, which this model follows:

- `POST /api/posts` does not limit the length of a post. Only the create
  page refuses texts longer than 500 characters, and it measures the text
  before trimming it (`CreatePage.LimitCountsTrailingBlanks`).
- `GET /api/search` lower-cases the query before handing it to Prisma's
  `contains`. Whether the database then compares case-sensitively depends
  on its collation, which is not modelled: the model uses exact substring
  matching.
- The post and comment listings pass the cursor to Prisma together with
  the `where` filter. A cursor naming a row the filter rejects (a post of
  another author, say) is still found. `skip: 1` then drops the newest
  matching row older than it, so that row is not on the page requested
  with that cursor (`Query.ForeignCursorSkipsNewest`).
- The like handler checks for an existing like itself and answers 409. It
  does not rely on the database rejecting a duplicate.
- `makeRequest`, `login` and `register` catch every failure themselves and
  return an unsuccessful reply. So the `catch` branches of the forms and
  pages that call them ("An unexpected error occurred", "Failed to
  generate content with AI") are only reached if those helpers throw. The
  model keeps these branches, for a reply parameter of `None`.

## Model

| member | source | states |
|---|---|---|
| Auth.ExtractToken | src/lib/auth.ts:42-47 | A token is found exactly when the header starts with `"Bearer "`; the header is that prefix followed by the token |
| Auth.IssuedClaims | src/lib/auth.ts:16-26 | An issued token carries the account's id, email and username, no display name, and expires seven days after it is issued |
| Auth.GenerateToken | src/lib/auth.ts:16-26 | With a sound signing library, the token handed out verifies, at the moment of issue, to exactly the issued claims, and no longer verifies seven days later |
| Auth.ClaimsUser | src/lib/auth.ts:28-40 | A verified token stands for its claims' account; an absent or empty display name falls back to the username; bio and avatar are absent |
| Auth.VerifyToken | src/lib/auth.ts:28-40 | Verification fails exactly when the library rejects the token, and never throws |
| Auth.Authenticate | src/lib/auth.ts:28-47 | A missing or empty token, an invalid token and a valid one are told apart; a valid one is the user the token verifies to |
| Auth.ExtractBearer | src/lib/auth.ts:42-47 | The header the client builds from a token is read back to that same token |
| Auth.ExtractRequiresExactScheme | src/lib/auth.ts:42-47 | A header that does not begin with exactly `"Bearer "` carries no token |
| Auth.IssuedTokenVerifies | src/lib/auth.ts:16-40 | Within seven days, an issued token verifies to its account, with the username as display name |
| Auth.IssuedTokenExpires | src/lib/auth.ts:24 | From seven days after issue on, the token no longer verifies |
| Auth.VerifiedDisplayNameIsUsername | src/lib/auth.ts:18-22 | Tokens never carry a display name, so a verified user's display name is always the username |
| Auth.BearerOfIssuedTokenAuthenticates | src/lib/auth.ts:16-47 | A client holding a fresh token is authenticated as the account it was issued for |
| ApiTypes.Fail | src/types/index.ts:55-60 | A failure envelope carries `success: false`, the error message and the given status, and no data |
| ApiTypes.Ok | src/types/index.ts:55-60 | A success envelope carries status 200, `success: true`, no error, and the given data and message |
| Text.Trim | src/app/api/posts/route.ts:99-111 | `trim()` never lengthens the text, and its result neither starts nor ends with white space |
| Text.TrimBetweenBlanks | src/app/api/posts/route.ts:99-111 | The text is a blank lead, then the result of `trim()`, then a blank trail |
| Text.IsSpace | src/app/api/posts/route.ts:99 | The white space `trim()` strips: the ECMAScript WhiteSpace and LineTerminator characters, no more and no fewer (a character class with no contract of its own; `Trim` and `TrimBetweenBlanks` state what it bounds) |
| Text.TrimEmptyIffBlank | src/app/api/posts/route.ts:99 | A trimmed text is empty exactly when the text is blank |
| Text.TrimIdempotent | src/app/api/comments/route.ts:51 | Trimming a trimmed text changes nothing |
| Text.LowerIdempotent | src/utils/hashtags.ts:4 | Lower-casing twice is lower-casing once |
| Text.Lower | src/app/api/search/route.ts:20 | `toLowerCase()` keeps the length, lower-cases each position on its own, and leaves no upper-case ASCII letter behind |
| Text.LowerAppend | src/utils/hashtags.ts:4 | Lower-casing a joined text is lower-casing each part |
| Hashtags.WordRun | src/utils/hashtags.ts:2 | A greedy `[a-zA-Z0-9_]+` run stops at the first non-word character |
| Hashtags.ScanShorter | src/utils/hashtags.ts:1-5 | The scan behind `match` yields at most one piece per character, and no piece only for the empty text |
| Hashtags.ScanCanonical | src/utils/hashtags.ts:1-5 | The regular-expression scan yields maximal, left-to-right, non-overlapping matches |
| Hashtags.ScanSource | src/utils/hashtags.ts:1-5 | Scanning loses no character of the text |
| Hashtags.SourceScan | src/utils/hashtags.ts:1-5 | A maximal match list is the scan of its own text: the way a text splits into matches is unique |
| Hashtags.ExtractHashtags | src/utils/hashtags.ts:1-5 | Every extracted tag is a non-empty lower-case word of letters, digits and `_` |
| Hashtags.NoTagsIff | src/utils/hashtags.ts:1-5 | A text has no hashtag exactly when no position of it is a `#` followed by a word character (`MatchStart`) |
| Hashtags.ExtractIgnoresCase | src/utils/hashtags.ts:1-5 | Lower-casing the text first gives the same tags |
| Hashtags.LowerPiecesShape | src/utils/hashtags.ts:4 | Lower-casing the pieces keeps them a maximal match list, spells the lower-cased text, and lower-cases exactly the tag words |
| Hashtags.ExtractIgnoresTrim | src/utils/hashtags.ts:1-5 | Leading and trailing white space never changes the tags, so the trimmed post has the tags of the text as typed |
| Hashtags.ScanAppend | src/utils/hashtags.ts:1-5 | The scan of a text splits at any seam that no match can cross |
| Hashtags.ExampleDuplicates | src/utils/hashtags.ts:1-5 | Tags keep their order of occurrence, and duplicates are kept |
| Hashtags.ExampleAdjacent | src/utils/hashtags.ts:1-5 | A `#` ends one match and starts the next |
| Hashtags.ExampleStopsAtDash | src/utils/hashtags.ts:1-5 | A match stops at the first character outside the word class |
| Hashtags.FormatContentWrapsTags | src/utils/hashtags.ts:20-23 | `formatContent` keeps the text it is given, adding exactly one span's worth of characters for each extracted tag; a text without tags is returned unchanged |
| Hashtags.FormatContent | src/utils/hashtags.ts:20-23 | `formatContent` never shortens the text, and leaves a text with no hashtag exactly as it is |
| Hashtags.MarkupAppend | src/utils/hashtags.ts:20-23 | Rendering works piece by piece: the markup of two scans one after the other is their two markups one after the other |
| Hashtags.FormatContentAppend | src/utils/hashtags.ts:20-23 | At any seam no match can cross, formatting the joined text gives the two formatted parts joined |
| Hashtags.FormatContentChar | src/utils/hashtags.ts:20-23 | A single character on its own is left as it is |
| Hashtags.FormatContentTag | src/utils/hashtags.ts:20-23 | A `#` followed by a non-empty word is wrapped in exactly one span, the word kept as written |
| HashtagsJson.StringifyHashtags | src/utils/hashtags.ts:16-18 | The stored form of a tag list is a JSON array text |
| HashtagsJson.EscapeLonger | src/utils/hashtags.ts:16-18 | Escaping a string for `JSON.stringify` never shortens it |
| HashtagsJson.EscapeKeepsPlain | src/utils/hashtags.ts:16-18 | A string with no control character, quote or backslash is written unchanged between its quotes |
| HashtagsJson.ParseEscape | src/utils/hashtags.ts:10 | `JSON.parse` reads `\"`, `\\` and `\/` as the character itself, refuses any other character after a backslash than those and `bfnrtu`, and always consumes input |
| HashtagsJson.ParseList | src/utils/hashtags.ts:10 | A text `JSON.parse` reads as an array of strings starts, after white space, with `[` |
| HashtagsJson.ParseHashtags | src/utils/hashtags.ts:7-14 | Null, the empty text and malformed JSON give the empty list; otherwise the decoded list |
| HashtagsJson.RoundTrip | src/utils/hashtags.ts:7-18 | Parsing a stringified tag list gives the list back |
| Query.Filter | src/app/api/posts/route.ts:16-19 | A `where` keeps exactly the rows that satisfy it |
| Query.Newest | src/app/api/posts/route.ts:25 | Ordering by creation time, newest first, reverses creation order |
| Query.Take | src/app/api/search/route.ts:37 | `take: n` keeps the first `n` rows, or all of them when there are fewer |
| Query.Skip | src/app/api/posts/route.ts:21-22 | `skip: n` drops the first `n` rows, or all of them when there are fewer |
| Query.Listing | src/app/api/posts/route.ts:17-25 | A listing holds at most `limit` rows. Without a cursor it holds `limit` matching rows, or every matching row when there are fewer. An unknown cursor gives none |
| Query.CursorCandidates | src/app/api/posts/route.ts:20-24 | When the cursor row matches, `skip: 1` drops exactly it and the matching rows older than it remain. When it does not match, the newest of those older rows is dropped instead |
| Query.Candidates | src/app/api/posts/route.ts:17-25 | Without a cursor every matching row is a candidate; a cursor naming no row leaves none |
| Query.NewestDescending | src/app/api/posts/route.ts:25 | Newest-first rows come in decreasing id order |
| Query.CandidatesSound | src/app/api/posts/route.ts:17-25 | Every row that can be listed matches, is in the table, and is older than the cursor row; the rows come newest first |
| Query.CandidatesComplete | src/app/api/posts/route.ts:17-25 | Every matching row older than a matching cursor row can be listed after it |
| Query.TakeComplete | src/app/api/posts/route.ts:19 | A row of a newest-first list survives `take: limit`, unless the kept rows fill `limit` and are all newer than it |
| Query.ListingPage | src/app/api/posts/route.ts:17-25 | A listing page holds only matching rows of the table, newest first, at most `limit` of them, all older than the cursor row |
| Query.ListingComplete | src/app/api/posts/route.ts:17-25 | No matching row is skipped. It is on the first page, or that page is full of newer rows. The same holds of the page after any newer matching row |
| Query.ForeignCursorSkipsNewest | src/app/api/posts/route.ts:20-24 | With a cursor row that does not match, the newest matching row older than it is not on the page requested with that cursor, because `skip: 1` drops it |
| Database.FindUser | src/app/api/likes/route.ts:66-71 | The lookup by id finds a row exactly when one has that id |
| Database.FindPost | src/app/api/likes/route.ts:36-46 | The lookup by id finds a row exactly when one has that id |
| Database.FindByEmail | src/app/api/auth/login/route.ts:21-32 | The lookup by email finds a row with that email, or none when there is no such row |
| Database.PublicUser | src/app/api/auth/register/route.ts:49-57 | The account as the API shows it is every column but the password hash |
| Database.ActorName | src/app/api/likes/route.ts:78 | A notification names the display name, or the username when the display name is empty |
| Database.Details | src/app/api/posts/route.ts:26-59 | A listed post comes with its author, its likers, its three newest comments and exact like and comment counts |
| Database.DetailsLikers | src/app/api/posts/route.ts:35-39 | A user is among a listed post's likers exactly when a like row pairs that user with the post |
| Database.LikersDistinct | src/app/api/posts/route.ts:35-39 | A post's likers are distinct users, so the like count counts people |
| Database.RecentCommentsNewestFirst | src/app/api/posts/route.ts:40-42 | A listed post's recent comments come newest first |
| Database.RecentAreNewest | src/app/api/posts/route.ts:40-42 | A comment on a listed post is among its embedded comments, unless those are three comments all newer than it: the embedded comments are the three newest |
| Database.AuthorIsTheRealAuthor | src/app/api/posts/route.ts:27-34 | A listed post's author summary is its author's row |
| Database.EmailIdentifiesAccount | src/app/api/auth/login/route.ts:21-22 | Because emails are unique, an email identifies one account |
| LikesRoute.LikePost | src/app/api/likes/route.ts:8-96 | The like handler's reply and new tables are those of `LikeOutcome`, and the table invariant is kept |
| LikesRoute.LikeOutcome | src/app/api/likes/route.ts:8-96 | A like is answered 200, or with an error and one of 400, 401, 404, 409, 500; a failure writes nothing, and no like ever touches users, posts or comments |
| LikesRoute.StoreLike | src/app/api/likes/route.ts:65-87 | Once every check has passed, the writes and the reply are those `LikeOutcome` gives: one like row, and a notification for the author unless the caller wrote the post |
| LikesRoute.UnlikePost | src/app/api/likes/route.ts:99-165 | The unlike handler's reply and new tables are those of `UnlikeOutcome`, and the table invariant is kept |
| LikesRoute.UnlikeOutcome | src/app/api/likes/route.ts:99-165 | An unlike is answered 200, or with an error and one of 400, 401, 404; it changes the like table only, and never adds a like |
| LikesRoute.LikeCheckOrder | src/app/api/likes/route.ts:10-63 | A like's checks come in order: 401 no token, 401 invalid token, 400 no post id, 404 unknown post, 409 already liked |
| LikesRoute.LikeFailureWritesNothing | src/app/api/likes/route.ts:8-96 | A like request that fails writes nothing |
| LikesRoute.LikeSuccess | src/app/api/likes/route.ts:66-87 | A like succeeds exactly for an authenticated account naming an existing post it has not liked; it then adds exactly that pair and touches no other table |
| LikesRoute.LikeNotifiesOthersOnly | src/app/api/likes/route.ts:74-82 | The post's author is notified, with the liker's name, exactly when the liker is someone else |
| LikesRoute.LikeTwiceConflicts | src/app/api/likes/route.ts:49-63 | A second like of the same post is a 409 that changes nothing |
| LikesRoute.WithoutRemoves | src/app/api/likes/route.ts:144-151 | Deleting a like removes that pair and keeps every other one |
| LikesRoute.UnlikeUndoesLike | src/app/api/likes/route.ts:99-156 | An unlike right after a like succeeds and restores the like table |
| LikesRoute.UnlikeAbsent | src/app/api/likes/route.ts:127-141 | Unliking a post that is not liked is a 404 "Like not found" that changes nothing |
| LikesRoute.UnlikeSuccess | src/app/api/likes/route.ts:99-156 | An unlike never looks at the post table; on success it removes exactly that pair and nothing else |
| LikesRoute.LikeKeepsValid | src/app/api/likes/route.ts:66-82 | A like keeps the table invariant, at most one like per pair included |
| LikesRoute.UnlikeKeepsValid | src/app/api/likes/route.ts:144-151 | An unlike keeps the table invariant |
| CommentsRoute.AddComment | src/app/api/comments/route.ts:8-91 | The comment handler's reply and new tables are those of `AddCommentOutcome`, and the table invariant is kept |
| CommentsRoute.AddCommentOutcome | src/app/api/comments/route.ts:8-91 | A comment is answered 200, or with an error and one of 400, 401, 404, 500; a failure writes nothing, and no comment ever touches users, posts or likes |
| CommentsRoute.StoreComment | src/app/api/comments/route.ts:48-84 | Once every check has passed, the writes and the reply are those `AddCommentOutcome` gives: one trimmed comment row, and a notification for the author unless the caller wrote the post |
| CommentsRoute.AddCommentAuthFirst | src/app/api/comments/route.ts:10-24 | Both authentication failures are 401s decided before the body is read, and they write nothing |
| CommentsRoute.AddCommentRequiresContent | src/app/api/comments/route.ts:28-33 | A missing post id, missing content or blank content is a 400 that writes nothing |
| CommentsRoute.AddCommentUnknownPost | src/app/api/comments/route.ts:36-46 | A comment on an unknown post is a 404 that writes nothing |
| CommentsRoute.AddCommentStores | src/app/api/comments/route.ts:49-82 | A stored comment holds the trimmed text, the caller and the post; it is echoed back; the author is notified exactly when the commenter is someone else |
| CommentsRoute.ListCommentsRequiresPost | src/app/api/comments/route.ts:101-106 | Listing comments without a post id is a 400 |
| CommentsRoute.ListComments | src/app/api/comments/route.ts:94-126 | The listing succeeds exactly when a post id is given, and then holds at most `limit` comments (20 by default); otherwise it is a 400 with an error |
| CommentsRoute.ListCommentsPage | src/app/api/comments/route.ts:94-126 | A comment page holds only the post's comments, newest first, at most `limit` (20 by default), all older than the cursor comment. Without a cursor it holds `limit` comments, or all of them when there are fewer |
| CommentsRoute.ListCommentsComplete | src/app/api/comments/route.ts:108-115 | No comment of the post is missed. It is on the first page, or that page is full of newer comments. The same holds of the page after any newer comment of the post |
| CommentsRoute.AddCommentKeepsValid | src/app/api/comments/route.ts:49-76 | Adding a comment keeps the table invariant |
| PostsRoute.StoredHashtags | src/app/api/posts/route.ts:107-112 | The stored tag column is null exactly when there are no tags, and it parses back to the tags |
| PostsRoute.CreatePost | src/app/api/posts/route.ts:78-163 | The publish handler's reply and new tables are those of `CreatePostOutcome`, and the table invariant is kept |
| PostsRoute.CreatePostOutcome | src/app/api/posts/route.ts:78-163 | Publishing is answered 200, or with an error and one of 400, 401, 500; a failure writes nothing, and publishing never touches users, likes or comments |
| PostsRoute.StorePost | src/app/api/posts/route.ts:106-154 | Once every check has passed, the write and the reply are those `CreatePostOutcome` gives: one post row holding the trimmed text and its hashtags |
| PostsRoute.CreatePostAuthFirst | src/app/api/posts/route.ts:80-94 | Both authentication failures are 401s decided before the body is read |
| PostsRoute.CreatePostRequiresContent | src/app/api/posts/route.ts:99-104 | Missing or blank content is a 400 "Content is required" that creates nothing |
| PostsRoute.CreatePostStores | src/app/api/posts/route.ts:96-154 | Publishing succeeds exactly for non-blank content from an account. The new post is the newest, holds the trimmed text, and its stored tags are those of that text |
| PostsRoute.ListPostsPage | src/app/api/posts/route.ts:9-66 | A post page holds posts of the table, by the given author if one is given, newest first, at most `limit` (10 by default), all older than the cursor post, each with its details. Without a cursor it holds `limit` posts, or all matching ones when there are fewer |
| PostsRoute.ListPosts | src/app/api/posts/route.ts:9-66 | Listing posts always succeeds with status 200 and a page of at most `limit` posts (10 by default) |
| PostsRoute.ListPostsComplete | src/app/api/posts/route.ts:15-25 | No post (by the given author, if any) is missed. It is on the first page, or that page is full of newer posts. The same holds of the page after any newer such post |
| PostsRoute.ListedPostDetails | src/app/api/posts/route.ts:40-58 | Each listed post shows at most three comments and exact like and comment counts |
| PostsRoute.CreatePostKeepsValid | src/app/api/posts/route.ts:109-114 | Publishing keeps the table invariant |
| SearchRoute.SearchTerm | src/app/api/search/route.ts:20 | The search term is empty exactly when the query is blank |
| SearchRoute.Search | src/app/api/search/route.ts:9-38 | A search always succeeds with status 200 and at most `limit` results (20 by default) |
| SearchRoute.Matches | src/app/api/search/route.ts:22-36 | A post matches exactly when its text contains the term or its stored tag column does; a post with no stored tags matches exactly when its text contains the term |
| SearchRoute.BlankQueryReadsNothing | src/app/api/search/route.ts:13-18 | A missing or blank query succeeds with no results, whatever the tables hold |
| SearchRoute.SearchResults | src/app/api/search/route.ts:20-38 | Results are posts whose text or stored tags contain the trimmed, lower-cased term, newest first, `limit` of them (20 by default) or every match when fewer match, each with its details |
| SearchRoute.SearchComplete | src/app/api/search/route.ts:22-38 | When no more than `limit` posts match, every matching post is found |
| SearchRoute.SearchListsNewest | src/app/api/search/route.ts:22-38 | However many posts match, a matching post is found unless the results are full of newer matching posts |
| RegisterRoute.StoredBio | src/app/api/auth/register/route.ts:47 | An empty or missing bio is stored as null |
| RegisterRoute.Register | src/app/api/auth/register/route.ts:7-93 | The registration handler's reply and new tables are those of `RegisterOutcome`, and the table invariant is kept |
| RegisterRoute.RegisterOutcome | src/app/api/auth/register/route.ts:7-93 | Registration is answered 200, or with an error and one of 400, 409; a failure writes nothing; a success adds exactly one account and no post |
| RegisterRoute.StoreUser | src/app/api/auth/register/route.ts:41-81 | Once every check has passed, the write and the reply are those `Registered` gives: one user row, answered without its hash and with a token for the new account |
| RegisterRoute.RegisterValidatesFirst | src/app/api/auth/register/route.ts:13-18 | A missing or empty required field is a 400, decided before the user table is read |
| RegisterRoute.RegisterConflict | src/app/api/auth/register/route.ts:21-35 | An email or a username already in use is a 409 that creates nothing |
| RegisterRoute.RegisterCreates | src/app/api/auth/register/route.ts:37-84 | Registration succeeds exactly when all fields are given and neither the email nor the username is taken. It adds one account holding the hash, and answers with that account (no hash) and a token |
| RegisterRoute.RegisterTokenVerifies | src/app/api/auth/register/route.ts:61-68 | The token handed out on registration verifies to the new account for seven days |
| RegisterRoute.RegisterKeepsValid | src/app/api/auth/register/route.ts:21-58 | Registration never lets two accounts share an email or a username |
| LoginRoute.LoginFailuresLookAlike | src/app/api/auth/login/route.ts:34-48 | An unknown email and a wrong password get the very same 401 |
| LoginRoute.LoginReply | src/app/api/auth/login/route.ts:7-74 | A login is answered 200, or with an error and one of 400, 401; a success answers with the account of the email that was given |
| LoginRoute.LoginSucceedsIff | src/app/api/auth/login/route.ts:21-74 | A login succeeds exactly when the password matches the stored hash of the account with that email, and answers with that account and its token |
| LoginRoute.LoginRequiresBoth | src/app/api/auth/login/route.ts:13-18 | A missing email or password is a 400 |
| LoginRoute.RegisterThenLogin | src/app/api/auth/login/route.ts:21-74 | Logging in with just-registered credentials gives back the new account |
| FormRules.EmailError | src/components/auth/RegisterForm.tsx:32-36 | The email check passes exactly when the address matches the pattern; "Email is required" exactly for the empty input |
| FormRules.MessageOr | src/components/auth/RegisterForm.tsx:74 | A present, non-empty server message wins; otherwise the fallback is shown |
| FormRules.EmailShapeAccepted | src/components/auth/RegisterForm.tsx:34 | Every `user@host.tld` made of non-blank parts is accepted |
| FormRules.NoAtRejected | src/components/auth/RegisterForm.tsx:34 | A text without `@` is rejected |
| FormRules.EmailUnanchored | src/components/auth/RegisterForm.tsx:34 | The pattern is not anchored: text around an accepted address, blanks included, keeps it accepted |
| RegisterForm.With | src/components/auth/RegisterForm.tsx:87-90 | Typing into one input changes that input only |
| RegisterForm.UsernameError | src/components/auth/RegisterForm.tsx:38-44 | A username passes exactly when it has at least three characters, all letters, digits or `_` |
| RegisterForm.DisplayNameError | src/components/auth/RegisterForm.tsx:46-50 | A display name passes exactly when it has at least two characters |
| RegisterForm.PasswordError | src/components/auth/RegisterForm.tsx:52-56 | A password passes exactly when it has at least six characters |
| RegisterForm.Errors | src/components/auth/RegisterForm.tsx:29-60 | The error map has an entry exactly for each input whose rule fails, holding that rule's message, and none for the bio |
| RegisterForm.Form.constructor | src/components/auth/RegisterForm.tsx:19-27 | The form starts with empty inputs, no messages and not busy |
| RegisterForm.Form.ValidateForm | src/components/auth/RegisterForm.tsx:29-60 | Validation stores the error map of the current inputs and answers whether it is empty |
| RegisterForm.Form.HandleSubmit | src/components/auth/RegisterForm.tsx:62-82 | Sends the inputs exactly when they are valid. On failure, the server's message (or "Registration failed") is shown under the email |
| RegisterForm.Form.HandleInputChange | src/components/auth/RegisterForm.tsx:84-99 | Typing changes one input and clears only that input's message |
| RegisterForm.ValidIff | src/components/auth/RegisterForm.tsx:29-60 | The form is accepted exactly when every rule passes; the bio plays no part |
| RegisterForm.AcceptedFormPassesServerCheck | src/app/api/auth/register/route.ts:13-18 | A form the client accepts never gets the server's 400 |
| LoginForm.PasswordError | src/components/auth/LoginForm.tsx:33-35 | The sign-in password only has to be present |
| LoginForm.Errors | src/components/auth/LoginForm.tsx:24-40 | The error map has an entry exactly for each input whose rule fails, holding that rule's message |
| LoginForm.Form.constructor | src/components/auth/LoginForm.tsx:17-22 | The form starts with empty inputs, no messages and not busy |
| LoginForm.Form.ValidateForm | src/components/auth/LoginForm.tsx:24-40 | Validation stores the error map of the current inputs and answers whether it is empty |
| LoginForm.Form.HandleSubmit | src/components/auth/LoginForm.tsx:42-62 | Sends the inputs exactly when they are valid. On failure, the server's message (or "Login failed") is shown under the email |
| LoginForm.Form.HandleInputChange | src/components/auth/LoginForm.tsx:64-79 | Typing changes one input and clears only that input's message |
| LoginForm.ValidIff | src/components/auth/LoginForm.tsx:24-40 | The form is accepted exactly when the email matches the pattern and a password is typed |
| LoginForm.RegisteredCredentialsPass | src/components/auth/LoginForm.tsx:24-40 | Credentials the sign-up form accepts also pass the sign-in form |
| LoginForm.ShortPasswordAccepted | src/components/auth/LoginForm.tsx:33-35 | Sign-in has no length rule: a one-character password is accepted |
| CreatePage.SubmitCheck | src/app/create/page.tsx:31-39 | The page sends exactly a non-blank text of at most 500 characters; a blank one is told to write something |
| CreatePage.RemainingChars | src/app/create/page.tsx:101 | The counter is negative exactly past 500 characters, and shows 500 for an empty text |
| CreatePage.Colour | src/app/create/page.tsx:176-182 | The counter is red past the limit and yellow within 50 characters of it |
| CreatePage.Page.constructor | src/app/create/page.tsx:18-20 | The page starts with no text, no message and not generating |
| CreatePage.Page.HandleSubmit | src/app/create/page.tsx:28-61 | Sends the trimmed text exactly when the check passes; moves on to the feed on success; otherwise shows the server's message or "Failed to create post" |
| CreatePage.Page.GenerateWithAI | src/app/create/page.tsx:63-91 | Sends the text as the prompt unless it is blank; a successful reply replaces the text; otherwise shows the message; the flag is cleared at the end |
| CreatePage.Page.OnChange | src/app/create/page.tsx:149-152 | Typing replaces the text and clears the message |
| CreatePage.PublishEnabledIffSendable | src/app/create/page.tsx:200 | The publish button is enabled exactly when the submit handler would send the text |
| CreatePage.GenerateEnabledSendsPrompt | src/app/create/page.tsx:165 | The AI button is enabled only when the AI handler would send a prompt |
| CreatePage.StoredTrimmed | src/app/create/page.tsx:44-50 | The server stores a non-blank text from an account trimmed |
| CreatePage.SentTextAccepted | src/app/create/page.tsx:44-50 | The text the page sends always passes the server's content check |
| CreatePage.LimitCountsTrailingBlanks | src/app/create/page.tsx:36-39 | The limit counts trailing blanks: a text can be refused although the trimmed text that would be stored fits |
| PostCard.Card.constructor | src/components/posts/PostCard.tsx:21-25 | The heart starts filled exactly when the signed-in user is among the post's likers |
| PostCard.Card.HandleLike | src/components/posts/PostCard.tsx:27-52 | Sends nothing when signed out or busy; otherwise sends DELETE when liked and POST when not. On success it flips the heart, moves the count by one and reports the new state |
| PostCard.Toggle | src/components/posts/PostCard.tsx:32-41 | The request the heart sends (an unlike when liked, a like when not): a failed one changes nothing, and none touches users, posts or comments |
| PostCard.ListedHeartTruthful | src/components/posts/PostCard.tsx:21-25 | A card built from a listed post starts with a heart that shows whether the like is stored, and a successful first click keeps it so |
| PostCard.HeartStaysTruthful | src/components/posts/PostCard.tsx:27-52 | If the heart shows whether the like is stored, then after a successful request the flipped heart again shows it |
| PostCard.StaleHeartRefused | src/components/posts/PostCard.tsx:27-52 | A heart that is out of date gets its request refused and the store is left alone |
| PostCard.Split | src/components/posts/PostCard.tsx:56 | `split(' ')` yields at least one piece, and no piece holds a blank |
| PostCard.JoinSplit | src/components/posts/PostCard.tsx:56 | Joining the pieces of a split gives back the text |
| PostCard.RenderContent | src/components/posts/PostCard.tsx:54-66 | Each word is shown followed by a blank and highlighted exactly when it starts with `#` |
| PostCard.RenderKeepsText | src/components/posts/PostCard.tsx:54-66 | The rendered text is the post's text plus one final blank; nothing is lost or reordered |
| LikeCounts.Bumped | src/app/feed/page.tsx:49-55 | Only the like count changes: up by one for a like, down by one for an unlike |
| LikeCounts.ApplyLikeChange | src/app/feed/page.tsx:45-59 | The named post's count moves; every other post stays as it was |
| LikeCounts.OnlyCountsChange | src/app/feed/page.tsx:45-59 | The list keeps its order, and nothing but the like counts changes |
| LikeCounts.LikeThenUnlike | src/app/feed/page.tsx:45-59 | An unlike after a like gives back the list |
| LikeCounts.UnlistedPostUntouched | src/app/search/page.tsx:58-72 | A change for a post not in the list leaves the list alone |
| FeedPage.Page.constructor | src/app/feed/page.tsx:17-18 | The feed starts empty, on its first load |
| FeedPage.Page.FetchPosts | src/app/feed/page.tsx:20-31 | Only a successful reply with data replaces the list; the first-load flag is cleared in every case |
| FeedPage.Page.OnAuthChange | src/app/feed/page.tsx:39-43 | The feed is fetched exactly when a user is signed in and auth has settled |
| FeedPage.Page.HandleLikeChange | src/app/feed/page.tsx:45-59 | The list follows a card's like or unlike |
| SearchPage.Page.constructor | src/app/search/page.tsx:18-20 | The page starts with no query, no results and no search run |
| SearchPage.Page.SearchPosts | src/app/search/page.tsx:28-51 | A blank query resets the page and sends nothing. Otherwise the trimmed query is sent and the results are the reply's data, or none. The page is marked as searched |
| SearchPage.Page.HandleSearch | src/app/search/page.tsx:53-56 | Submitting searches for the query typed so far |
| SearchPage.Page.OnQueryChange | src/app/search/page.tsx:112 | Typing changes the query only |
| SearchPage.Page.ClearSearch | src/app/search/page.tsx:194-198 | Clearing empties the query and the results and forgets the search |
| SearchPage.Page.HandleLikeChange | src/app/search/page.tsx:58-72 | The results follow a card's like or unlike |
| SearchPage.SentQuerySameTerm | src/app/search/page.tsx:37 | Trimming on the page changes nothing: the server derives the same term |
| SearchPage.SentQueryAnswered | src/app/search/page.tsx:37 | The server answers the trimmed query exactly as it would answer the raw one |
| AuthHook.Lookup | src/hooks/useAuth.tsx:23-24 | `getItem` finds a value exactly when the key is stored |
| AuthHook.Restore | src/hooks/useAuth.tsx:21-37 | A session is restored only from two non-empty entries. Then a stored user that parses is the signed-in user and storage is untouched; one that does not parse leaves no user and wipes both entries |
| AuthHook.Merge | src/hooks/useAuth.tsx:97 | Each field given in the patch overrides; each absent one keeps its value |
| AuthHook.NetworkError | src/hooks/useAuth.tsx:58-61 | A failed request becomes the unsuccessful reply "Network error occurred" |
| AuthHook.AuthProvider.constructor | src/hooks/useAuth.tsx:18-19 | Nobody is signed in and the session is loading |
| AuthHook.AuthProvider.Mount | src/hooks/useAuth.tsx:21-37 | Mounting restores the stored session and stops loading |
| AuthHook.AuthProvider.Login | src/hooks/useAuth.tsx:39-62 | A successful reply with data signs the user in and stores token and user; anything else changes nothing; the reply is handed back |
| AuthHook.AuthProvider.Register | src/hooks/useAuth.tsx:64-87 | A successful reply with data signs the user in and stores token and user; anything else changes nothing; the reply is handed back |
| AuthHook.AuthProvider.Settle | src/hooks/useAuth.tsx:51-61 | What login and register share: a missing reply becomes "Network error occurred"; a successful reply with data signs its user in and stores token and user; anything else leaves user and storage alone; loading is never touched |
| AuthHook.AuthProvider.Logout | src/hooks/useAuth.tsx:89-93 | Nobody is signed in and both entries are removed |
| AuthHook.AuthProvider.UpdateUser | src/hooks/useAuth.tsx:95-101 | A signed-in user is patched and stored again; signed out, nothing changes |
| AuthHook.UseAuth | src/hooks/useAuth.tsx:115-121 | Outside a provider, the hook fails with its message |
| AuthHook.SessionSurvivesReload | src/hooks/useAuth.tsx:51-55 | A session stored on login is found again, unchanged, after a reload |
| AuthHook.UpdateSurvivesReload | src/hooks/useAuth.tsx:95-101 | A profile update is what a reload finds |
| AuthHook.LogoutSurvivesReload | src/hooks/useAuth.tsx:89-93 | After signing out, a reload finds nobody |
| AuthHook.NoTokenNoSession | src/hooks/useAuth.tsx:26 | Without a token, no session is restored, whatever the user entry holds |
| AuthHook.MergeLaws | src/hooks/useAuth.tsx:97 | An empty patch changes nothing, and applying a patch twice is applying it once |
| ApiHook.Config | src/hooks/useApi.tsx:17-48 | The request uses the given method (GET by default) and carries the stored token unless `includeAuth` is false. It carries a JSON body only for a non-GET with data (a truthy `data`). `Authorization` is added only when auth is included and a token is stored; `Content-Type` only with a body. Otherwise both headers, and all the caller's other headers, are as the caller gave them |
| ApiHook.Api.constructor | src/hooks/useApi.tsx:14-15 | Not loading and no error |
| ApiHook.Api.MakeRequest | src/hooks/useApi.tsx:17-65 | Sends the request `Config` builds. A rejected call becomes "Network error occurred". An unsuccessful reply sets the error to its message or "An error occurred". Loading ends false |
| ApiHook.Api.ClearError | src/hooks/useApi.tsx:67 | The error is cleared |
| ApiHook.HeaderCarriesStoredToken | src/hooks/useApi.tsx:29-34 | The server reads back from the header exactly the token the browser stored |
| ApiHook.NoTokenNoCredentials | src/hooks/useApi.tsx:29-34 | With no token stored, requests reach the server without credentials and get "Authentication required" |
| ApiHook.SignedInRequestsAuthenticate | src/hooks/useApi.tsx:29-34 | While the token is fresh, a signed-in browser is recognised as its account on every default request |
| ApiHook.GetHasNoBody | src/hooks/useApi.tsx:37-48 | A GET never carries a body or a content type of its own making |

## Left out

- JWT signing and verification, and bcrypt hashing and comparison, are not modelled inside. The JWT library is a pair of functions assumed to satisfy `Auth.SoundJwt`. The bcrypt hash is a parameter and the comparison is a function parameter. The fallback secret used when `JWT_SECRET` is unset is not modelled.
- The clock is a parameter (`now`). Creation timestamps are replaced by ids handed out in creation order, so two rows are never created at the same instant.
- Concurrency between requests is left out. Each handler runs alone, so races between the "already exists" check and the insert are not modelled.
- Requests whose body is not valid JSON, or whose fields are not strings, end in the handlers' 500 branches. The model takes the fields as `Option<string>`, and it models no other database failure than the missing author row.
- `parseInt` of the `limit` parameter is a `nat`. A limit that is not a number (NaN) or is negative is not modelled.
- Ids and creation times of likes and notifications, and the `read` flag of notifications, are left out.
- Text lengths are counted in Dafny characters, not in UTF-16 code units. `toLowerCase` is ASCII lower-casing. White space is JavaScript's `\s` set. Database collation is not modelled: `contains` is an exact substring test.
- HashtagsJson.ParseHashtags: a stored JSON text that is valid but is not an array of strings gives the empty list here; in the source it gives back that value.
- `encodeURIComponent` of the search query, and URLs in general, are left out: the query is the text the page sends.
- React rendering, effect scheduling, router navigation and `console.error` are left out. Navigation is a return value (`toFeed`, `fetched`). Setting a field's message to `undefined` in the forms' error object is modelled as removing the key.
- AuthHook.Restore: a stored user that parses to something other than a user object is not modelled. The codec either gives back a user or fails.
- ApiHook.Config: the caller's headers object is copied; the source writes the `Authorization` and `Content-Type` entries into the object it is given. That aliasing is not modelled. The source sends a body only for a truthy `data`; `data` is `None` for a missing or falsy value (undefined, null, 0, "", false), and `Some` only for a truthy one.
- The AI route (`src/app/api/ai/generate-content/route.ts`) is not part of this model. Its reply is a parameter of `CreatePage.Page.GenerateWithAI`.
- PostCard.Card.HandleLike: the signed-in user is the one given when the card is built; the source reads the current `useAuth().user` on every click. The two differ only if the session changes while the card is shown, which the modelled pages do not do.
- HashtagsJson.ParseEscape: a `\u` escape of a lone surrogate is refused, where `JSON.parse` accepts it. `JSON.stringify` of Dafny characters never writes one, so the round trip is unaffected.
- The single-post, profile and database-initialisation routes, the profile page, the navigation bar and the layout are not part of this model.
