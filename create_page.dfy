/**
 * The page for writing a post: the text typed so far, the message shown
 * under it, the "generating" flag of the AI helper, the checks made before
 * publishing and the state of its buttons and character counter.
 */
module CreatePage {
  import opened Wrappers
  import opened Text
  import opened ApiTypes
  import opened FormRules
  import opened Database
  import opened Auth
  import opened PostsRoute

  /** The longest text the page lets through, counted before trimming. */
  const MaxLength: nat := 500

  /** The `data` of the AI helper's reply. */
  datatype Generated = Generated(content: string)

  /** The message the submit handler stops with before sending anything, if any. */
  function SubmitCheck(content: string): (e: Option<string>)
    ensures e.None? <==> !IsBlank(content) && |content| <= MaxLength
    ensures IsBlank(content) ==> e == Some("Please write something to share")
  {
    if IsBlank(content) then Some("Please write something to share")
    else if |content| > MaxLength then Some("Post content must be 500 characters or less")
    else None
  }

  /** The counter under the text area; negative once the text is too long. */
  function RemainingChars(content: string): (n: int)
    ensures n < 0 <==> |content| > MaxLength
    ensures n == MaxLength <==> content == []
  {
    MaxLength - |content|
  }

  datatype CounterColour = Red | Yellow | Grey

  /** The counter is red past the limit and yellow within 50 characters of it. */
  function Colour(remaining: int): (c: CounterColour)
    ensures c == Red <==> remaining < 0
    ensures c == Yellow <==> 0 <= remaining < 50
  {
    if remaining < 0 then Red else if remaining < 50 then Yellow else Grey
  }

  /** Whether the "Publish Post" button is disabled. */
  function PublishDisabled(content: string, apiLoading: bool): bool {
    IsBlank(content) || |content| > MaxLength || apiLoading
  }

  /** Whether the "Generate with AI" button is disabled. */
  function GenerateDisabled(content: string, isGenerating: bool, apiLoading: bool): bool {
    IsBlank(content) || isGenerating || apiLoading
  }

  class Page {
    var content: string
    var error: string
    var isGenerating: bool

    constructor ()
      ensures content == [] && error == [] && !isGenerating
    {
      content := [];
      error := [];
      isGenerating := false;
    }

    /**
     * Publishes the text. `response` is what the request resolved to, or
     * `None` when it threw. Returns the text sent, if any, and whether the
     * page moves on to the feed.
     */
    method HandleSubmit(response: Option<ApiResponse<PostWithDetails>>) returns (sent: Option<string>, toFeed: bool)
      modifies this
      ensures content == old(content) && isGenerating == old(isGenerating)
      ensures sent.Some? <==> SubmitCheck(content).None?
      ensures sent.Some? ==> sent.value == Trim(content)
      ensures sent.None? ==> error == SubmitCheck(content).value
      ensures toFeed <==> sent.Some? && response.Some? && response.value.success
      ensures sent.Some? && response.None? ==> error == "An unexpected error occurred"
      ensures sent.Some? && response.Some? && response.value.success ==> error == []
      ensures sent.Some? && response.Some? && !response.value.success ==>
                error == MessageOr(response.value.error, "Failed to create post")
    {
      if IsBlank(content) {
        error := "Please write something to share";
        return None, false;
      }
      if |content| > MaxLength {
        error := "Post content must be 500 characters or less";
        return None, false;
      }
      error := [];
      sent := Some(Trim(content));
      toFeed := false;
      if response.None? {
        error := "An unexpected error occurred";
      } else if response.value.success {
        toFeed := true;
      } else {
        error := MessageOr(response.value.error, "Failed to create post");
      }
    }

    /**
     * Asks the AI helper to write a post from the text typed so far.
     * `response` is what the request resolved to, or `None` when it threw.
     * Returns the prompt sent, if any.
     */
    method GenerateWithAI(response: Option<ApiResponse<Generated>>) returns (prompt: Option<string>)
      modifies this
      ensures prompt.Some? <==> !IsBlank(old(content))
      ensures prompt.Some? ==> prompt.value == old(content) && !isGenerating
      ensures prompt.None? ==>
                content == old(content) && isGenerating == old(isGenerating)
                && error == "Please provide a prompt for AI generation"
      ensures prompt.Some? && response.Some? && response.value.success && response.value.data.Some? ==>
                content == response.value.data.value.content && error == []
      ensures prompt.Some? && response.Some? && !(response.value.success && response.value.data.Some?) ==>
                content == old(content) && error == MessageOr(response.value.error, "Failed to generate content")
      ensures prompt.Some? && response.None? ==>
                content == old(content) && error == "Failed to generate content with AI"
    {
      if IsBlank(content) {
        error := "Please provide a prompt for AI generation";
        return None;
      }
      isGenerating := true;
      error := [];
      prompt := Some(content);
      if response.None? {
        error := "Failed to generate content with AI";
      } else if response.value.success && response.value.data.Some? {
        content := response.value.data.value.content;
      } else {
        error := MessageOr(response.value.error, "Failed to generate content");
      }
      isGenerating := false;
    }

    /** Typing replaces the text and clears the message. */
    method OnChange(value: string)
      modifies this
      ensures content == value && error == [] && isGenerating == old(isGenerating)
    {
      content := value;
      error := [];
    }
  }

  // ------------------------------------------------------------ lemmas

  /** The "Publish Post" button is enabled exactly when the submit handler would send the text. */
  lemma PublishEnabledIffSendable(content: string, apiLoading: bool)
    ensures !PublishDisabled(content, apiLoading) <==> !apiLoading && SubmitCheck(content).None?
  {
  }

  /** The AI button is enabled only when the AI handler would send a prompt. */
  lemma GenerateEnabledSendsPrompt(content: string, isGenerating: bool, apiLoading: bool)
    ensures !GenerateDisabled(content, isGenerating, apiLoading) ==> !IsBlank(content)
  {
  }

  /** A non-blank text from an author with an account is stored trimmed. */
  lemma StoredTrimmed(t: Tables, user: AuthUser, c: string)
    requires !IsBlank(c)
    requires HasUser(t.users, user.id)
    ensures var o := CreatePostOutcome(t, Authenticated(user), Some(c));
      o.reply.body.success && o.after.posts[|o.after.posts| - 1].content == Trim(c)
  {
    CreatePostStores(t, Authenticated(user), Some(c));
  }

  /**
   * The text the page sends always gets past the server's content check:
   * an author with an account gets it published (stored trimmed once more,
   * which changes nothing by `TrimIdempotent`).
   */
  lemma SentTextAccepted(t: Tables, user: AuthUser, content: string)
    requires SubmitCheck(content).None?
    requires HasUser(t.users, user.id)
    ensures CreatePostOutcome(t, Authenticated(user), Some(Trim(content))).reply.body.success
  {
    TrimBlankIff(content);
    StoredTrimmed(t, user, Trim(content));
  }

  /** Text after index `k` that is all blank is cut off by trimming. */
  lemma TrimWithin(s: string, k: nat)
    requires k <= |s| && IsBlank(s[k..])
    ensures |Trim(s)| <= k
  {
    forall m | k <= m < |s| ensures IsSpace(s[m]) {
      assert s[k..][m - k] == s[m];
    }
    var r := Trim(s);
    if r != [] {
      TrimBetweenBlanks(s);
      var lead, trail :| IsBlank(lead) && IsBlank(trail) && s == lead + r + trail;
      assert s[|lead| + |r| - 1] == r[|r| - 1];
    }
  }

  /**
   * The limit is measured before trimming: trailing blanks can push a text
   * over it although the trimmed text that would be stored fits.
   */
  lemma LimitCountsTrailingBlanks(word: string, pad: string)
    requires !IsBlank(word) && IsBlank(pad)
    requires |word| <= MaxLength < |word + pad|
    ensures SubmitCheck(word + pad) == Some("Post content must be 500 characters or less")
    ensures |Trim(word + pad)| <= |word|
  {
    var s := word + pad;
    assert !IsBlank(s) by {
      var k :| 0 <= k < |word| && !IsSpace(word[k]);
      assert s[k] == word[k];
    }
    assert s[|word|..] == pad;
    TrimWithin(s, |word|);
  }
}
