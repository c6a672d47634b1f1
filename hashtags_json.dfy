/**
 * Storage of a post's hashtag list as JSON text (RFC 8259): `stringifyHashtags`
 * is `JSON.stringify` on an array of strings and `parseHashtags` is
 * `JSON.parse` guarded so that an absent, empty or malformed text gives the
 * empty list. The parser accepts the JSON texts that denote arrays of strings.
 */
module HashtagsJson {
  import opened Wrappers

  // ------------------------------------------------------- writing

  function HexDigit(n: nat): (c: char)
    requires n < 16
  {
    if n < 10 then ('0' as int + n) as char else ('a' as int + n - 10) as char
  }

  /** How `JSON.stringify` writes one character inside a string literal. */
  function EscapeChar(c: char): string {
    if c == '"' then "\\\""
    else if c == '\\' then "\\\\"
    else if c == '\U{0008}' then "\\b"
    else if c == '\U{000C}' then "\\f"
    else if c == '\n' then "\\n"
    else if c == '\r' then "\\r"
    else if c == '\t' then "\\t"
    else if c < ' ' then "\\u00" + [HexDigit(c as int / 16), HexDigit(c as int % 16)]
    else [c]
  }

  function Escape(s: string): string {
    if s == [] then [] else EscapeChar(s[0]) + Escape(s[1..])
  }

  function Quoted(s: string): string {
    "\"" + Escape(s) + "\""
  }

  function JoinQuoted(tags: seq<string>): string {
    if tags == [] then []
    else if |tags| == 1 then Quoted(tags[0])
    else Quoted(tags[0]) + "," + JoinQuoted(tags[1..])
  }

  /** `stringifyHashtags`: `JSON.stringify` of an array of strings, without white space. */
  function StringifyHashtags(tags: seq<string>): (json: string)
    ensures |json| >= 2 && json[0] == '[' && json[|json| - 1] == ']'
  {
    "[" + JoinQuoted(tags) + "]"
  }

  // ------------------------------------------------------- reading

  predicate IsJsonSpace(c: char) {
    c == ' ' || c == '\t' || c == '\n' || c == '\r'
  }

  function SkipSpace(s: string): (r: string)
    ensures |r| <= |s|
    ensures r == [] || !IsJsonSpace(r[0])
  {
    if s != [] && IsJsonSpace(s[0]) then SkipSpace(s[1..]) else s
  }

  function HexValue(c: char): (r: Option<nat>)
    ensures r.Some? ==> r.value < 16
  {
    if '0' <= c <= '9' then Some(c as int - '0' as int)
    else if 'a' <= c <= 'f' then Some(c as int - 'a' as int + 10)
    else if 'A' <= c <= 'F' then Some(c as int - 'A' as int + 10)
    else None
  }

  /** The value of four hexadecimal digits at the start of `s`. */
  function Hex4(s: string): (r: Option<nat>)
    ensures r.Some? ==> |s| >= 4 && r.value < 0x10000
  {
    if |s| < 4 then None
    else
      match (HexValue(s[0]), HexValue(s[1]), HexValue(s[2]), HexValue(s[3]))
      case (Some(a), Some(b), Some(c), Some(d)) => Some(((a * 16 + b) * 16 + c) * 16 + d)
      case _ => None
  }

  /**
   * One escape sequence, `s` starting just after the backslash: the character
   * it denotes and the text after it. A `\u` escape of a surrogate pair denotes
   * one character; a lone surrogate is refused.
   */
  function ParseEscape(s: string): (r: Option<(char, string)>)
    ensures r.Some? ==> |r.value.1| < |s|
    ensures s != [] && (s[0] == '"' || s[0] == '\\' || s[0] == '/') ==> r == Some((s[0], s[1..]))
    ensures s == [] || !(s[0] in "\"\\/bfnrtu") ==> r.None?
  {
    if s == [] then None
    else if s[0] == '"' then Some(('"', s[1..]))
    else if s[0] == '\\' then Some(('\\', s[1..]))
    else if s[0] == '/' then Some(('/', s[1..]))
    else if s[0] == 'b' then Some(('\U{0008}', s[1..]))
    else if s[0] == 'f' then Some(('\U{000C}', s[1..]))
    else if s[0] == 'n' then Some(('\n', s[1..]))
    else if s[0] == 'r' then Some(('\r', s[1..]))
    else if s[0] == 't' then Some(('\t', s[1..]))
    else if s[0] == 'u' then
      match Hex4(s[1..])
      case None => None
      case Some(hi) =>
        if 0xD800 <= hi < 0xDC00 then
          if |s| >= 11 && s[5] == '\\' && s[6] == 'u' then
            match Hex4(s[7..])
            case Some(lo) =>
              if 0xDC00 <= lo < 0xE000 then
                Some(((0x10000 + (hi - 0xD800) * 0x400 + (lo - 0xDC00)) as char, s[11..]))
              else None
            case None => None
          else None
        else if 0xDC00 <= hi < 0xE000 then None
        else Some((hi as char, s[5..]))
    else None
  }

  /** The characters of a string literal, `s` starting just after its opening quote: the decoded text and what follows the closing quote. */
  function ParseChars(s: string): (r: Option<(string, string)>)
    ensures r.Some? ==> |r.value.1| < |s|
    decreases |s|
  {
    if s == [] then None
    else if s[0] == '"' then Some(([], s[1..]))
    else if s[0] == '\\' then
      match ParseEscape(s[1..])
      case None => None
      case Some((c, rest)) =>
        match ParseChars(rest)
        case None => None
        case Some((t, after)) => Some(([c] + t, after))
    else if s[0] < ' ' then None
    else
      match ParseChars(s[1..])
      case None => None
      case Some((t, after)) => Some(([s[0]] + t, after))
  }

  /** The elements of a non-empty array, `s` starting at its first string: the strings and what follows the closing bracket. */
  function ParseItems(s: string): (r: Option<(seq<string>, string)>)
    ensures r.Some? ==> |r.value.1| < |s|
    decreases |s|
  {
    if s == [] || s[0] != '"' then None
    else
      var quoted := ParseChars(s[1..]);
      if quoted.None? then None
      else
        var item := quoted.value.0;
        var rest := SkipSpace(quoted.value.1);
        if rest == [] then None
        else if rest[0] == ']' then Some(([item], rest[1..]))
        else if rest[0] != ',' then None
        else
          var more := ParseItems(SkipSpace(rest[1..]));
          if more.None? then None else Some(([item] + more.value.0, more.value.1))
  }

  /** A whole JSON text that denotes an array of strings, or `None`. */
  function ParseList(s: string): (r: Option<seq<string>>)
    ensures r.Some? ==> SkipSpace(s) != [] && SkipSpace(s)[0] == '['
  {
    var s1 := SkipSpace(s);
    if s1 == [] || s1[0] != '[' then None
    else
      var s2 := SkipSpace(s1[1..]);
      var items: Option<(seq<string>, string)> := if s2 != [] && s2[0] == ']' then Some(([], s2[1..])) else ParseItems(s2);
      match items
      case None => None
      case Some((tags, rest)) => if SkipSpace(rest) == [] then Some(tags) else None
  }

  /** `parseHashtags`: `null`, `undefined`, the empty text and anything malformed give the empty list. */
  function ParseHashtags(json: Option<string>): (tags: seq<string>)
    ensures json.None? || json == Some("") ==> tags == []
    ensures json.Some? && ParseList(json.value).None? ==> tags == []
    ensures json.Some? && json.value != "" && ParseList(json.value).Some? ==> tags == ParseList(json.value).value
  {
    if json.None? || json.value == [] then []
    else ParseList(json.value).GetOr([])
  }

  // ------------------------------------------------------- round trip

  lemma ParseEscapeControl(c: char, tail: string)
    requires c < ' '
    ensures ParseEscape("u00" + [HexDigit(c as int / 16), HexDigit(c as int % 16)] + tail) == Some((c, tail))
  {
    var s := "u00" + [HexDigit(c as int / 16), HexDigit(c as int % 16)] + tail;
    assert s[1..][..4] == "00" + [HexDigit(c as int / 16), HexDigit(c as int % 16)];
    assert HexValue(HexDigit(c as int / 16)) == Some(c as int / 16);
    assert HexValue(HexDigit(c as int % 16)) == Some(c as int % 16);
    assert Hex4(s[1..]) == Some(c as int);
    assert s[5..] == tail;
  }

  /** Reading back a character written as a two-character escape. */
  lemma ParseShortEscape(c: char, tail: string)
    requires c == '"' || c == '\\' || c == '\U{0008}' || c == '\U{000C}' || c == '\n' || c == '\r' || c == '\t'
    ensures ParseEscape((EscapeChar(c) + tail)[1..]) == Some((c, tail))
  {
    var s := EscapeChar(c) + tail;
    assert s[1..] == [EscapeChar(c)[1]] + tail;
    assert s[1..][1..] == tail;
  }

  /** Reading back one written character. */
  lemma ParseEscapedChar(c: char, tail: string)
    ensures ParseChars(EscapeChar(c) + tail) ==
      match ParseChars(tail)
      case None => None
      case Some((t, after)) => Some(([c] + t, after))
  {
    var s := EscapeChar(c) + tail;
    if c == '"' || c == '\\' || c == '\U{0008}' || c == '\U{000C}' || c == '\n' || c == '\r' || c == '\t' {
      ParseShortEscape(c, tail);
    } else if c < ' ' {
      assert s[1..] == "u00" + [HexDigit(c as int / 16), HexDigit(c as int % 16)] + tail;
      ParseEscapeControl(c, tail);
    } else {
      assert s[1..] == tail;
    }
  }

  lemma {:induction false} ParseCharsEscape(s: string, rest: string)
    ensures ParseChars(Escape(s) + "\"" + rest) == Some((s, rest))
    decreases |s|
  {
    if s == [] {
      assert Escape(s) + "\"" + rest == "\"" + rest;
      assert ("\"" + rest)[1..] == rest;
    } else {
      ParseCharsEscape(s[1..], rest);
      assert Escape(s) + "\"" + rest == EscapeChar(s[0]) + (Escape(s[1..]) + "\"" + rest);
      ParseEscapedChar(s[0], Escape(s[1..]) + "\"" + rest);
      assert [s[0]] + s[1..] == s;
    }
  }

  lemma ParseQuoted(head: string, tail: string)
    ensures ParseChars((Quoted(head) + tail)[1..]) == Some((head, tail))
  {
    assert (Quoted(head) + tail)[1..] == Escape(head) + "\"" + tail;
    ParseCharsEscape(head, tail);
  }

  lemma ParseItemsLast(head: string, rest: string)
    ensures ParseItems(Quoted(head) + "]" + rest) == Some(([head], rest))
  {
    var s := Quoted(head) + ("]" + rest);
    assert Quoted(head) + "]" + rest == s;
    ParseQuoted(head, "]" + rest);
    assert SkipSpace("]" + rest) == "]" + rest;
    assert ("]" + rest)[1..] == rest;
  }

  /** An element followed by a comma: the list goes on with the elements after the comma. */
  lemma ParseItemsComma(s: string, head: string, more: string)
    requires s != [] && s[0] == '"'
    requires ParseChars(s[1..]) == Some((head, "," + more))
    requires more != [] && more[0] == '"'
    ensures ParseItems(s) == if ParseItems(more).None? then None else Some(([head] + ParseItems(more).value.0, ParseItems(more).value.1))
  {
    var r := "," + more;
    assert SkipSpace(r) == r;
    assert r[1..] == more;
    assert SkipSpace(more) == more;
  }

  lemma ParseItemsMore(head: string, more: string, items: seq<string>, after: string)
    requires more != [] && more[0] == '"'
    requires ParseItems(more) == Some((items, after))
    ensures ParseItems(Quoted(head) + "," + more) == Some(([head] + items, after))
  {
    var s := Quoted(head) + ("," + more);
    assert Quoted(head) + "," + more == s;
    ParseQuoted(head, "," + more);
    ParseItemsComma(s, head, more);
  }

  lemma {:induction false} ParseItemsJoin(tags: seq<string>, rest: string)
    requires tags != []
    ensures ParseItems(JoinQuoted(tags) + "]" + rest) == Some((tags, rest))
    decreases |tags|
  {
    if |tags| == 1 {
      ParseItemsLast(tags[0], rest);
      assert JoinQuoted(tags) == Quoted(tags[0]);
      assert tags == [tags[0]];
    } else {
      var more := JoinQuoted(tags[1..]) + "]" + rest;
      assert JoinQuoted(tags) + "]" + rest == Quoted(tags[0]) + "," + more;
      ParseItemsJoin(tags[1..], rest);
      assert more[0] == '"';
      ParseItemsMore(tags[0], more, tags[1..], rest);
      assert [tags[0]] + tags[1..] == tags;
    }
  }

  /** A character that needs no escape is one with nothing to escape. */
  predicate Unescaped(c: char) {
    ' ' <= c && c != '"' && c != '\\'
  }

  /** Escaping never shortens a string. */
  lemma {:induction false} EscapeLonger(s: string)
    ensures |Escape(s)| >= |s|
  {
    if s != [] {
      EscapeLonger(s[1..]);
    }
  }

  /** A string with nothing to escape is written as it is. */
  lemma {:induction false} EscapeKeepsPlain(s: string)
    requires forall i :: 0 <= i < |s| ==> Unescaped(s[i])
    ensures Escape(s) == s
  {
    if s != [] {
      EscapeKeepsPlain(s[1..]);
      assert s == [s[0]] + s[1..];
    }
  }

  /** Reading back what was written gives the same list: `parseHashtags(stringifyHashtags(tags)) == tags`. */
  lemma RoundTrip(tags: seq<string>)
    ensures ParseList(StringifyHashtags(tags)) == Some(tags)
    ensures ParseHashtags(Some(StringifyHashtags(tags))) == tags
  {
    var s := StringifyHashtags(tags);
    assert SkipSpace(s) == s;
    var s2 := JoinQuoted(tags) + "]";
    assert s[1..] == s2;
    if tags == [] {
      assert s2 == "]";
      assert SkipSpace(s2) == s2;
    } else {
      assert s2[0] == '"';
      assert SkipSpace(s2) == s2;
      ParseItemsJoin(tags, "");
      assert JoinQuoted(tags) + "]" + "" == s2;
    }
  }
}
