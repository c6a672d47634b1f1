/**
 * The hashtag scanner of the post composer: the global regular expression
 * `#[a-zA-Z0-9_]+`, read left to right with greedy, non-overlapping matches.
 * One scanner, `Scan`, cuts a text into plain characters and hashtag matches;
 * `ExtractHashtags` and `FormatContent` are both read off its pieces.
 */
module Hashtags {
  import opened Text

  /** A piece of scanned text: a character outside any match, or a match `#word` (word without its `#`). */
  datatype Piece = Plain(c: char) | Tag(word: string)

  /** Length of the maximal run of word characters at the start of `s`: how far a greedy `[a-zA-Z0-9_]+` reaches. */
  function WordRun(s: string): (n: nat)
    ensures n <= |s|
    ensures AllWordChars(s[..n])
    ensures n == |s| || !IsWordChar(s[n])
  {
    if s == [] || !IsWordChar(s[0]) then 0
    else
      var n := 1 + WordRun(s[1..]);
      assert s[..n] == [s[0]] + s[1..][..n - 1];
      n
  }

  /** The regular-expression scan: at each position a match is tried; on success the scan resumes after it, otherwise one character is kept as is. */
  function Scan(s: string): seq<Piece>
    decreases |s|
  {
    if s == [] then []
    else if s[0] == '#' && WordRun(s[1..]) > 0 then
      var n := WordRun(s[1..]);
      [Tag(s[1..1 + n])] + Scan(s[1 + n..])
    else
      [Plain(s[0])] + Scan(s[1..])
  }

  /** The text a list of pieces stands for: the inverse of `Scan`. */
  function Source(ps: seq<Piece>): string {
    if ps == [] then []
    else
      match ps[0]
      case Plain(c) => [c] + Source(ps[1..])
      case Tag(w) => "#" + w + Source(ps[1..])
  }

  predicate StartsWithWordChar(ps: seq<Piece>) {
    |ps| > 0 && ps[0].Plain? && IsWordChar(ps[0].c)
  }

  /**
   * The shape of a maximal, left-to-right match list: every tag word is a
   * non-empty run of word characters that no word character follows, and a
   * `#` left as plain text is not followed by a word character either.
   */
  predicate Canonical(ps: seq<Piece>) {
    ps == [] ||
    ((match ps[0]
      case Tag(w) => w != [] && AllWordChars(w) && !StartsWithWordChar(ps[1..])
      case Plain(c) => c == '#' ==> !StartsWithWordChar(ps[1..]))
     && Canonical(ps[1..]))
  }

  /** The words of the matches, in order of occurrence, duplicates kept. */
  function TagWords(ps: seq<Piece>): seq<string> {
    if ps == [] then []
    else if ps[0].Tag? then [ps[0].word] + TagWords(ps[1..])
    else TagWords(ps[1..])
  }

  function LowerAll(ws: seq<string>): (r: seq<string>)
    ensures |r| == |ws|
    ensures forall i :: 0 <= i < |ws| ==> r[i] == Lower(ws[i])
  {
    if ws == [] then [] else [Lower(ws[0])] + LowerAll(ws[1..])
  }

  /** A well-formed stored tag: non-empty, made of lower-case ASCII letters, digits and `_`. */
  predicate IsTag(t: string) {
    t != [] && forall i :: 0 <= i < |t| ==> IsWordChar(t[i]) && !('A' <= t[i] <= 'Z')
  }

  /** `extractHashtags`: every match with its `#` dropped, case-folded to lower case. */
  function ExtractHashtags(content: string): (tags: seq<string>)
    ensures forall i :: 0 <= i < |tags| ==> IsTag(tags[i])
  {
    ScanCanonical(content);
    CanonicalWords(Scan(content));
    LowerAll(TagWords(Scan(content)))
  }

  const SpanOpen: string := "<span class=\"text-blue-500 cursor-pointer\">"
  const SpanClose: string := "</span>"

  function Markup(ps: seq<Piece>): string {
    if ps == [] then []
    else
      match ps[0]
      case Plain(c) => [c] + Markup(ps[1..])
      case Tag(w) => SpanOpen + "#" + w + SpanClose + Markup(ps[1..])
  }

  /** The markup of a scan is at least as long as the text, and a text without tags is its own markup. */
  lemma MarkupScanKeeps(s: string)
    ensures |Markup(Scan(s))| >= |s|
    ensures ExtractHashtags(s) == [] ==> Markup(Scan(s)) == s
  {
    var ps := Scan(s);
    ScanSource(s);
    MarkupLength(ps);
    if ExtractHashtags(s) == [] {
      assert |TagWords(ps)| == |ExtractHashtags(s)|;
      MarkupPlain(ps);
    }
  }

  /** `formatContent`: each match `#word` wrapped verbatim in a span, every other character kept. */
  function FormatContent(content: string): (r: string)
    ensures |r| >= |content|
    ensures ExtractHashtags(content) == [] ==> r == content
  {
    MarkupScanKeeps(content);
    Markup(Scan(content))
  }

  // ---------------------------------------------------------------- lemmas

  lemma CanonicalWords(ps: seq<Piece>)
    requires Canonical(ps)
    ensures forall i :: 0 <= i < |TagWords(ps)| ==> TagWords(ps)[i] != [] && AllWordChars(TagWords(ps)[i])
  {
    if ps != [] { CanonicalWords(ps[1..]); }
  }

  /** A scan of text that starts with a word character starts with that character as plain text. */
  lemma ScanHead(s: string)
    requires s != [] && IsWordChar(s[0])
    ensures StartsWithWordChar(Scan(s)) && Scan(s)[0] == Plain(s[0])
  {
  }

  /** A scan of text that is empty or starts with a non-word character does not start with a plain word character. */
  lemma ScanHeadNonWord(s: string)
    requires s == [] || !IsWordChar(s[0])
    ensures !StartsWithWordChar(Scan(s))
  {
  }

  /** The scanner produces a maximal match list. */
  lemma {:induction false} ScanCanonical(s: string)
    ensures Canonical(Scan(s))
    decreases |s|
  {
    if s == [] {
    } else if s[0] == '#' && WordRun(s[1..]) > 0 {
      var n := WordRun(s[1..]);
      ScanCanonical(s[1 + n..]);
      assert s[1 + n..] == s[1..][n..];
      ScanHeadNonWord(s[1 + n..]);
      assert s[1..1 + n] == s[1..][..n];
    } else {
      ScanCanonical(s[1..]);
      if s[0] == '#' { ScanHeadNonWord(s[1..]); }
    }
  }

  /** Every piece holds at least one character, so a scan has at most one piece per character, and none only for the empty text. */
  lemma {:induction false} ScanShorter(s: string)
    ensures |Scan(s)| <= |s|
    ensures Scan(s) == [] <==> s == []
    decreases |s|
  {
    if s != [] {
      if s[0] == '#' && WordRun(s[1..]) > 0 {
        ScanShorter(s[1 + WordRun(s[1..])..]);
      } else {
        ScanShorter(s[1..]);
      }
    }
  }

  /** Scanning loses nothing: the pieces spell the text back. */
  lemma {:induction false} ScanSource(s: string)
    ensures Source(Scan(s)) == s
    decreases |s|
  {
    if s == [] {
    } else if s[0] == '#' && WordRun(s[1..]) > 0 {
      var n := WordRun(s[1..]);
      ScanSource(s[1 + n..]);
      assert s == "#" + s[1..1 + n] + s[1 + n..];
    } else {
      ScanSource(s[1..]);
      assert s == [s[0]] + s[1..];
    }
  }

  lemma WordRunAppend(w: string, t: string)
    requires AllWordChars(w)
    requires t == [] || !IsWordChar(t[0])
    ensures WordRun(w + t) == |w|
    decreases |w|
  {
    if w != [] {
      assert (w + t)[1..] == w[1..] + t;
      WordRunAppend(w[1..], t);
    }
  }

  /** The text of a maximal match list never starts with a word character unless its first piece is one. */
  lemma SourceHead(ps: seq<Piece>)
    requires !StartsWithWordChar(ps)
    ensures Source(ps) == [] || !IsWordChar(Source(ps)[0])
  {
    if ps != [] && ps[0].Tag? {
      assert Source(ps) == "#" + ps[0].word + Source(ps[1..]);
    }
  }

  lemma ScanPlainCons(c: char, rest: string)
    requires c == '#' ==> rest == [] || !IsWordChar(rest[0])
    ensures Scan([c] + rest) == [Plain(c)] + Scan(rest)
  {
    var s := [c] + rest;
    assert s[1..] == rest;
  }

  lemma ScanTagCons(w: string, rest: string)
    requires w != [] && AllWordChars(w)
    requires rest == [] || !IsWordChar(rest[0])
    ensures Scan("#" + w + rest) == [Tag(w)] + Scan(rest)
  {
    var s := "#" + w + rest;
    assert s[1..] == w + rest;
    WordRunAppend(w, rest);
    assert s[1..1 + |w|] == w;
    assert s[1 + |w|..] == rest;
  }

  /** The text and the words of a list that starts with a tag. */
  lemma TagThen(w: string, rest: seq<Piece>)
    ensures Source([Tag(w)] + rest) == "#" + w + Source(rest)
    ensures TagWords([Tag(w)] + rest) == [w] + TagWords(rest)
  {
    assert ([Tag(w)] + rest)[1..] == rest;
  }

  /** The text and the words of a list that starts with a plain character. */
  lemma PlainThen(c: char, rest: seq<Piece>)
    ensures Source([Plain(c)] + rest) == [c] + Source(rest)
    ensures TagWords([Plain(c)] + rest) == TagWords(rest)
  {
    assert ([Plain(c)] + rest)[1..] == rest;
  }

  /** Scanning the text of a maximal match list gives that list back: the decomposition is unique. */
  lemma {:induction false} SourceScan(ps: seq<Piece>)
    requires Canonical(ps)
    ensures Scan(Source(ps)) == ps
  {
    if ps != [] {
      SourceScan(ps[1..]);
      assert ps == [ps[0]] + ps[1..];
      match ps[0]
      case Plain(c) => ScanPlainThen(c, ps[1..]);
      case Tag(w) => ScanTagThen(w, ps[1..]);
    }
  }

  lemma ScanPlainThen(c: char, rest: seq<Piece>)
    requires c == '#' ==> !StartsWithWordChar(rest)
    requires Scan(Source(rest)) == rest
    ensures Scan(Source([Plain(c)] + rest)) == [Plain(c)] + rest
  {
    PlainThen(c, rest);
    if c == '#' { SourceHead(rest); }
    ScanPlainCons(c, Source(rest));
  }

  lemma ScanTagThen(w: string, rest: seq<Piece>)
    requires w != [] && AllWordChars(w) && !StartsWithWordChar(rest)
    requires Scan(Source(rest)) == rest
    ensures Scan(Source([Tag(w)] + rest)) == [Tag(w)] + rest
  {
    TagThen(w, rest);
    SourceHead(rest);
    ScanTagCons(w, Source(rest));
  }

  /** Position `i` of `s` can start a match: a `#` followed by a word character. */
  predicate MatchStart(s: string, i: int) {
    0 <= i < |s| - 1 && s[i] == '#' && IsWordChar(s[i + 1])
  }

  lemma {:induction false} NoWordsIff(s: string)
    ensures TagWords(Scan(s)) == [] <==> forall i :: !MatchStart(s, i)
    decreases |s|
  {
    if s == [] {
    } else if s[0] == '#' && WordRun(s[1..]) > 0 {
      assert s[1] == s[1..][0];
      assert MatchStart(s, 0);
    } else {
      NoWordsIff(s[1..]);
      var ps := [Plain(s[0])] + Scan(s[1..]);
      assert ps[1..] == Scan(s[1..]);
      assert TagWords(Scan(s)) == TagWords(Scan(s[1..]));
      if |s| > 1 && s[0] == '#' {
        assert s[1..][0] == s[1];
      }
      forall i ensures MatchStart(s, i) <==> MatchStart(s[1..], i - 1) {
        if 0 < i < |s| - 1 {
          assert s[1..][i - 1] == s[i] && s[1..][i] == s[i + 1];
        }
      }
      if !forall i :: !MatchStart(s[1..], i) {
        var i :| MatchStart(s[1..], i);
        assert MatchStart(s, i + 1);
      }
    }
  }

  /** A text has no hashtag exactly when no `#` in it is followed by a word character. */
  lemma NoTagsIff(s: string)
    ensures ExtractHashtags(s) == [] <==> forall i :: !MatchStart(s, i)
  {
    NoWordsIff(s);
  }

  // ------------------------------------------------------- case folding

  function LowerPieces(ps: seq<Piece>): (r: seq<Piece>)
    ensures |r| == |ps|
  {
    if ps == [] then []
    else
      match ps[0]
      case Plain(c) => [Plain(LowerChar(c))] + LowerPieces(ps[1..])
      case Tag(w) => [Tag(Lower(w))] + LowerPieces(ps[1..])
  }

  lemma {:induction false} LowerPiecesShape(ps: seq<Piece>)
    requires Canonical(ps)
    ensures Canonical(LowerPieces(ps))
    ensures Source(LowerPieces(ps)) == Lower(Source(ps))
    ensures TagWords(LowerPieces(ps)) == LowerAll(TagWords(ps))
  {
    LowerKeepsCanonical(ps);
    LowerSource(ps);
    LowerTagWords(ps);
  }

  lemma LowerStartsWithWordChar(ps: seq<Piece>)
    ensures StartsWithWordChar(LowerPieces(ps)) <==> StartsWithWordChar(ps)
  {
  }

  lemma {:induction false} LowerKeepsCanonical(ps: seq<Piece>)
    requires Canonical(ps)
    ensures Canonical(LowerPieces(ps))
  {
    if ps != [] {
      LowerKeepsCanonical(ps[1..]);
      LowerStartsWithWordChar(ps[1..]);
      assert LowerPieces(ps)[1..] == LowerPieces(ps[1..]);
    }
  }

  lemma {:induction false} LowerSource(ps: seq<Piece>)
    ensures Source(LowerPieces(ps)) == Lower(Source(ps))
  {
    if ps != [] {
      LowerSource(ps[1..]);
      assert LowerPieces(ps)[1..] == LowerPieces(ps[1..]);
      match ps[0]
      case Plain(c) =>
        LowerAppend([c], Source(ps[1..]));
      case Tag(w) =>
        LowerAppend("#" + w, Source(ps[1..]));
        LowerAppend("#", w);
    }
  }

  lemma {:induction false} LowerTagWords(ps: seq<Piece>)
    ensures TagWords(LowerPieces(ps)) == LowerAll(TagWords(ps))
  {
    if ps != [] {
      LowerTagWords(ps[1..]);
      assert LowerPieces(ps)[1..] == LowerPieces(ps[1..]);
    }
  }

  /** Case folding commutes with the scan: lower-casing the text first yields the same tags. */
  lemma ExtractIgnoresCase(s: string)
    ensures ExtractHashtags(Lower(s)) == ExtractHashtags(s)
  {
    var ps := Scan(s);
    ScanCanonical(s);
    ScanSource(s);
    LowerPiecesShape(ps);
    SourceScan(LowerPieces(ps));
    assert Scan(Lower(s)) == LowerPieces(ps);
    var ws := TagWords(ps);
    forall i | 0 <= i < |ws| ensures Lower(Lower(ws[i])) == Lower(ws[i]) {
      LowerIdempotent(ws[i]);
    }
    assert LowerAll(LowerAll(ws)) == LowerAll(ws);
  }

  // ------------------------------------------------------- concatenation

  lemma {:induction false} SourceAppend(a: seq<Piece>, b: seq<Piece>)
    ensures Source(a + b) == Source(a) + Source(b)
  {
    if a == [] {
      assert a + b == b;
    } else {
      assert (a + b)[0] == a[0];
      assert (a + b)[1..] == a[1..] + b;
      SourceAppend(a[1..], b);
    }
  }

  lemma {:induction false} TagWordsAppend(a: seq<Piece>, b: seq<Piece>)
    ensures TagWords(a + b) == TagWords(a) + TagWords(b)
  {
    if a == [] {
      assert a + b == b;
    } else {
      assert (a + b)[0] == a[0];
      assert (a + b)[1..] == a[1..] + b;
      TagWordsAppend(a[1..], b);
    }
  }

  /** Two maximal match lists glue into one when the seam cannot extend a match. */
  lemma {:induction false} CanonicalAppend(a: seq<Piece>, b: seq<Piece>)
    requires Canonical(a) && Canonical(b)
    requires !StartsWithWordChar(b) || (a != [] && a[|a| - 1].Plain? && a[|a| - 1].c != '#')
    ensures Canonical(a + b)
  {
    if a == [] {
      assert a + b == b;
    } else {
      assert (a + b)[0] == a[0];
      assert (a + b)[1..] == a[1..] + b;
      if |a| == 1 {
        assert a[1..] + b == b;
      } else {
        assert a[1..][|a[1..]| - 1] == a[|a| - 1];
        CanonicalAppend(a[1..], b);
      }
    }
  }

  /** A hashtag never runs into a last character that cannot be part of a word. */
  lemma TagEndsBeforeLast(s: string)
    requires |s| > 1 && !IsWordChar(s[|s| - 1])
    ensures 1 + WordRun(s[1..]) < |s|
  {
    var n := WordRun(s[1..]);
    forall j | 1 <= j < 1 + n ensures IsWordChar(s[j]) {
      assert s[1..][..n][j - 1] == s[j];
    }
  }

  /** The last piece of a non-empty scan spells the last character of the text. */
  lemma {:induction false} ScanLast(s: string)
    requires s != [] && s[|s| - 1] != '#' && !IsWordChar(s[|s| - 1])
    ensures Scan(s) != [] && Scan(s)[|Scan(s)| - 1] == Plain(s[|s| - 1])
    decreases |s|
  {
    if s[0] == '#' && WordRun(s[1..]) > 0 {
      TagEndsBeforeLast(s);
      var n := WordRun(s[1..]);
      var rest := s[1 + n..];
      assert Scan(s) == [Tag(s[1..1 + n])] + Scan(rest);
      assert rest[|rest| - 1] == s[|s| - 1];
      ScanLast(rest);
    } else if |s| > 1 {
      var rest := s[1..];
      assert rest[|rest| - 1] == s[|s| - 1];
      ScanLast(rest);
    }
  }

  /** The scan of a text splits at a seam that no match can cross. */
  lemma ScanAppend(s: string, t: string)
    requires (t == [] || !IsWordChar(t[0])) || (s != [] && s[|s| - 1] != '#' && !IsWordChar(s[|s| - 1]))
    ensures Scan(s + t) == Scan(s) + Scan(t)
  {
    ScanCanonical(s);
    ScanCanonical(t);
    if t == [] || !IsWordChar(t[0]) {
      ScanHeadNonWord(t);
    } else {
      ScanLast(s);
    }
    CanonicalAppend(Scan(s), Scan(t));
    SourceAppend(Scan(s), Scan(t));
    ScanSource(s);
    ScanSource(t);
    SourceScan(Scan(s) + Scan(t));
  }

  lemma {:induction false} BlankHasNoTags(s: string)
    requires IsBlank(s)
    ensures TagWords(Scan(s)) == []
    decreases |s|
  {
    if s != [] {
      BlankHasNoTags(s[1..]);
    }
  }

  lemma WordsAfterBlank(lead: string, x: string)
    requires IsBlank(lead)
    ensures TagWords(Scan(lead + x)) == TagWords(Scan(x))
  {
    if lead == [] {
      assert lead + x == x;
    } else {
      assert IsSpace(lead[|lead| - 1]);
      ScanAppend(lead, x);
      TagWordsAppend(Scan(lead), Scan(x));
      BlankHasNoTags(lead);
    }
  }

  lemma WordsBeforeBlank(m: string, trail: string)
    requires IsBlank(trail)
    ensures TagWords(Scan(m + trail)) == TagWords(Scan(m))
  {
    if trail != [] {
      assert IsSpace(trail[0]);
    }
    ScanAppend(m, trail);
    TagWordsAppend(Scan(m), Scan(trail));
    BlankHasNoTags(trail);
  }

  lemma ExtractBetweenBlanks(lead: string, m: string, trail: string)
    requires IsBlank(lead) && IsBlank(trail)
    ensures ExtractHashtags(lead + m + trail) == ExtractHashtags(m)
  {
    WordsBeforeBlank(m, trail);
    WordsAfterBlank(lead, m + trail);
    assert lead + m + trail == lead + (m + trail);
  }

  /** Leading and trailing white space never changes the hashtags: the tags of a post's trimmed content are those of its raw content. */
  lemma ExtractIgnoresTrim(s: string)
    ensures ExtractHashtags(Trim(s)) == ExtractHashtags(s)
  {
    var m := Trim(s);
    TrimBetweenBlanks(s);
    var lead, trail :| IsBlank(lead) && IsBlank(trail) && s == lead + m + trail;
    ExtractBetweenBlanks(lead, m, trail);
  }

  // ------------------------------------------------------- formatting

  lemma {:induction false} MarkupPlain(ps: seq<Piece>)
    requires TagWords(ps) == []
    ensures Markup(ps) == Source(ps)
  {
    if ps != [] { MarkupPlain(ps[1..]); }
  }

  lemma {:induction false} MarkupLength(ps: seq<Piece>)
    ensures |Markup(ps)| == |Source(ps)| + |TagWords(ps)| * |SpanOpen + SpanClose|
  {
    if ps != [] { MarkupLength(ps[1..]); }
  }

  lemma {:induction false} MarkupAppend(ps: seq<Piece>, qs: seq<Piece>)
    ensures Markup(ps + qs) == Markup(ps) + Markup(qs)
    decreases |ps|
  {
    if ps == [] {
      assert ps + qs == qs;
    } else {
      assert (ps + qs)[0] == ps[0] && (ps + qs)[1..] == ps[1..] + qs;
      MarkupAppend(ps[1..], qs);
    }
  }

  /**
   * `formatContent` keeps every character of the text and adds exactly one
   * span around each maximal `#word` match; the wrapped words are the
   * extracted tags before case folding, and a text without tags is left as
   * it is.
   */
  lemma FormatContentWrapsTags(s: string)
    ensures Canonical(Scan(s)) && Source(Scan(s)) == s
    ensures |FormatContent(s)| == |s| + |ExtractHashtags(s)| * |SpanOpen + SpanClose|
    ensures ExtractHashtags(s) == [] ==> FormatContent(s) == s
  {
    ScanCanonical(s);
    ScanSource(s);
    MarkupLength(Scan(s));
    if ExtractHashtags(s) == [] {
      MarkupPlain(Scan(s));
    }
  }

  /** Formatting works piece by piece: it splits at any seam that no match can cross. */
  lemma FormatContentAppend(s: string, t: string)
    requires (t == [] || !IsWordChar(t[0])) || (s != [] && s[|s| - 1] != '#' && !IsWordChar(s[|s| - 1]))
    ensures FormatContent(s + t) == FormatContent(s) + FormatContent(t)
  {
    ScanAppend(s, t);
    MarkupAppend(Scan(s), Scan(t));
  }

  /** A single character is never a match and is kept as it is. */
  lemma FormatContentChar(c: char)
    ensures FormatContent([c]) == [c]
  {
    assert [c][1..] == [] && WordRun([]) == 0;
    assert Scan([c]) == [Plain(c)] + Scan([]);
    assert [Plain(c)][1..] == [];
    assert Markup([Plain(c)]) == [c] + Markup([]);
  }

  /** A `#` and a whole word are wrapped, verbatim, in one span. */
  lemma FormatContentTag(w: string)
    requires w != [] && AllWordChars(w)
    ensures FormatContent("#" + w) == SpanOpen + "#" + w + SpanClose
  {
    ScanTagCons(w, []);
    assert "#" + w + [] == "#" + w;
    assert Scan("#" + w) == [Tag(w)];
    assert [Tag(w)][1..] == [];
    assert Markup([Tag(w)]) == SpanOpen + "#" + w + SpanClose + Markup([]);
  }

  // ------------------------------------------------------- examples

  /** Order of occurrence is kept, and so are duplicates that differ only in case: `"#a #A"` gives `["a", "a"]`. */
  lemma ExampleDuplicates(w: string, v: string)
    requires w != [] && AllWordChars(w) && v != [] && AllWordChars(v)
    requires Lower(v) == Lower(w)
    ensures ExtractHashtags("#" + w + " #" + v) == [Lower(w), Lower(w)]
  {
    var last := [Tag(v)];
    var tail := [Plain(' ')] + last;
    var ps := [Tag(w)] + tail;
    TagThen(v, []);
    PlainThen(' ', last);
    TagThen(w, tail);
    assert last == [Tag(v)] + [];
    assert Canonical(last) && Canonical(tail) && Canonical(ps);
    assert "#" + w + ([' '] + ("#" + v + [])) == "#" + w + " #" + v;
    SourceScan(ps);
  }

  lemma ScanTwoTags(a: string, b: string)
    requires a != [] && AllWordChars(a) && b != [] && AllWordChars(b)
    ensures Scan("#" + a + "#" + b) == [Tag(a)] + [Tag(b)]
  {
    var second := "#" + b;
    ScanTagCons(b, "");
    assert "#" + b + "" == second;
    assert "#" + a + "#" + b == "#" + a + second;
    ScanTagCons(a, second);
  }

  /** A `#` ends a match and starts the next one: `"#foo#bar"` gives `["foo", "bar"]`. */
  lemma ExampleAdjacent(a: string, b: string)
    requires IsTag(a) && IsTag(b)
    ensures ExtractHashtags("#" + a + "#" + b) == [a, b]
  {
    ScanTwoTags(a, b);
    TagWordsAppend([Tag(a)], [Tag(b)]);
    assert TagWords([Tag(a)]) == [a];
    assert TagWords([Tag(b)]) == [b];
    assert Lower(a) == a;
    assert Lower(b) == b;
  }

  /** A match stops at the first character outside `[a-zA-Z0-9_]`: `"#foo-bar"` gives `["foo"]`. */
  lemma ExampleStopsAtDash(w: string, rest: string)
    requires w != [] && AllWordChars(w)
    requires forall i :: 0 <= i < |rest| ==> rest[i] != '#'
    ensures ExtractHashtags("#" + w + "-" + rest) == [Lower(w)]
  {
    var tail := "-" + rest;
    assert forall i :: 0 <= i < |tail| ==> tail[i] != '#';
    BlankWords(tail);
    assert "#" + w + "-" + rest == "#" + w + tail;
    ScanTagCons(w, tail);
    TagWordsAppend([Tag(w)], Scan(tail));
  }

  /** A text without `#` has no match. */
  lemma {:induction false} BlankWords(s: string)
    requires forall i :: 0 <= i < |s| ==> s[i] != '#'
    ensures TagWords(Scan(s)) == []
    decreases |s|
  {
    if s != [] { BlankWords(s[1..]); }
  }
}
