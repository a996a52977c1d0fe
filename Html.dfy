/** `ResourceManager.escapeHtml`: makes a string safe to place in HTML text
    or, with `forAttribute`, inside a quoted attribute value. */
module Html {

  import opened Text

  /** The argument of `escapeHtml` is any JavaScript value; only strings are escaped. */
  datatype JsValue = JsString(s: string) | NonString

  /** The replacement of one character: `&`, `<`, `>` always become entities,
      the two quote characters only in attribute mode, everything else stays. */
  function EscapeChar(c: char, forAttribute: bool): string
  {
    if c == '&' then "&amp;"
    else if c == '<' then "&lt;"
    else if c == '>' then "&gt;"
    else if forAttribute && c == '"' then "&quot;"
    else if forAttribute && c == '\'' then "&#039;"
    else [c]
  }

  /** The global regular-expression replacement, one character at a time. */
  function EscapeChars(s: string, forAttribute: bool): string
    decreases |s|
  {
    if s == [] then "" else EscapeChar(s[0], forAttribute) + EscapeChars(s[1..], forAttribute)
  }

  /** `escapeHtml(text, forAttribute)`: a non-string gives the empty string,
      a string is escaped character by character. */
  function EscapeHtml(text: JsValue, forAttribute: bool): (r: string)
    ensures text.NonString? ==> r == ""
    ensures text.JsString? && text.s == "" ==> r == ""
    ensures text.JsString? ==> |r| >= |text.s|
    ensures text.JsString? ==> r == EscapeChars(text.s, forAttribute)
    ensures text.JsString? ==> Unescape(r) == text.s && '<' !in r && '>' !in r
    ensures text.JsString? && forAttribute ==> '"' !in r && '\'' !in r
  {
    match text
    case NonString => ""
    case JsString(s) =>
      EscapeLength(s, forAttribute);
      UnescapeEscape(s, forAttribute);
      EscapedIsInert(s, forAttribute);
      EscapeChars(s, forAttribute)
  }

  lemma {:induction false} EscapeLength(s: string, forAttribute: bool)
    ensures |EscapeChars(s, forAttribute)| >= |s|
    decreases |s|
  {
    if s != [] {
      EscapeLength(s[1..], forAttribute);
    }
  }

  /** Decodes the five entities `escapeHtml` produces; every other character is kept.
      This is the inverse the escaping is checked against. */
  function Unescape(s: string): string
    decreases |s|
  {
    if s == [] then ""
    else if StartsWith(s, "&amp;") then "&" + Unescape(s[5..])
    else if StartsWith(s, "&lt;") then "<" + Unescape(s[4..])
    else if StartsWith(s, "&gt;") then ">" + Unescape(s[4..])
    else if StartsWith(s, "&quot;") then "\"" + Unescape(s[6..])
    else if StartsWith(s, "&#039;") then "'" + Unescape(s[6..])
    else [s[0]] + Unescape(s[1..])
  }

  /** Decoding an entity followed by anything gives the entity's character
      followed by the decoding of the rest. */
  lemma UnescapeEntity(e: string, c: char, rest: string)
    requires c in {'&', '<', '>', '"', '\''} && e == EscapeChar(c, true)
    ensures Unescape(e + rest) == [c] + Unescape(rest)
  {
    var s := e + rest;
    assert s[..|e|] == e && s[|e|..] == rest;
    assert s[0] == '&' && s[1] == e[1];
    if c == '&' {
      assert StartsWith(s, "&amp;");
    } else if c == '<' {
      assert StartsWith(s, "&lt;");
    } else if c == '>' {
      assert StartsWith(s, "&gt;");
    } else if c == '"' {
      assert StartsWith(s, "&quot;");
    } else {
      assert StartsWith(s, "&#039;");
    }
  }

  /** Decoding the replacement of one character gives that character back,
      whatever follows it. */
  lemma UnescapeOne(c: char, forAttribute: bool, rest: string)
    ensures Unescape(EscapeChar(c, forAttribute) + rest) == [c] + Unescape(rest)
  {
    if Plain(c, forAttribute) {
      var s := [c] + rest;
      assert s[0] == c && s[1..] == rest;
      assert !StartsWith(s, "&amp;") && !StartsWith(s, "&lt;") && !StartsWith(s, "&gt;");
      assert !StartsWith(s, "&quot;") && !StartsWith(s, "&#039;");
    } else {
      UnescapeEntity(EscapeChar(c, forAttribute), c, rest);
    }
  }

  /** Escaping loses nothing: decoding the escaped string gives the original back,
      in both modes. */
  lemma {:induction false} UnescapeEscape(s: string, forAttribute: bool)
    ensures Unescape(EscapeChars(s, forAttribute)) == s
    decreases |s|
  {
    if s != [] {
      UnescapeOne(s[0], forAttribute, EscapeChars(s[1..], forAttribute));
      UnescapeEscape(s[1..], forAttribute);
    }
  }

  /** The escaped string cannot open or close a tag, and in attribute mode it
      cannot close the quoted value either. */
  lemma {:induction false} EscapedIsInert(s: string, forAttribute: bool)
    ensures '<' !in EscapeChars(s, forAttribute) && '>' !in EscapeChars(s, forAttribute)
    ensures forAttribute ==> '"' !in EscapeChars(s, forAttribute) && '\'' !in EscapeChars(s, forAttribute)
    decreases |s|
  {
    if s != [] {
      EscapedIsInert(s[1..], forAttribute);
      EscapeCharInert(s[0], forAttribute);
      assert EscapeChars(s, forAttribute) == EscapeChar(s[0], forAttribute) + EscapeChars(s[1..], forAttribute);
    }
  }

  /** The replacement of one character holds no `<` or `>`, and in attribute
      mode no quote character. */
  lemma EscapeCharInert(c: char, forAttribute: bool)
    ensures '<' !in EscapeChar(c, forAttribute) && '>' !in EscapeChar(c, forAttribute)
    ensures forAttribute ==> '"' !in EscapeChar(c, forAttribute) && '\'' !in EscapeChar(c, forAttribute)
  {
    var e := EscapeChar(c, forAttribute);
    if c == '&' {
      assert e == ['&', 'a', 'm', 'p', ';'];
    } else if c == '<' {
      assert e == ['&', 'l', 't', ';'];
    } else if c == '>' {
      assert e == ['&', 'g', 't', ';'];
    } else if forAttribute && c == '"' {
      assert e == ['&', 'q', 'u', 'o', 't', ';'];
    } else if forAttribute && c == '\'' {
      assert e == ['&', '#', '0', '3', '9', ';'];
    }
  }

  /** The characters the pattern does not match */
  predicate Plain(c: char, forAttribute: bool)
  {
    c !in {'&', '<', '>'} && (forAttribute ==> c !in {'"', '\''})
  }

  /** A string without any character the pattern matches is returned unchanged. */
  lemma {:induction false} PlainUnchanged(s: string, forAttribute: bool)
    requires forall k :: 0 <= k < |s| ==> Plain(s[k], forAttribute)
    ensures EscapeChars(s, forAttribute) == s
    decreases |s|
  {
    if s != [] {
      PlainUnchanged(s[1..], forAttribute);
      assert s == [s[0]] + s[1..];
    }
  }

  /** In text mode only `&` (by four characters) and `<`, `>` (by three) make the
      string longer: the quote characters pass through untouched. */
  lemma {:induction false} TextModeGrowth(s: string)
    ensures |EscapeChars(s, false)| == |s| + 4 * CountOf(s, '&') + 3 * CountOf(s, '<') + 3 * CountOf(s, '>')
    decreases |s|
  {
    if s != [] {
      TextModeGrowth(s[1..]);
    }
  }

  /** Occurrences of `c` in `s`. */
  function CountOf(s: string, c: char): nat
    decreases |s|
  {
    if s == [] then 0 else (if s[0] == c then 1 else 0) + CountOf(s[1..], c)
  }
}
