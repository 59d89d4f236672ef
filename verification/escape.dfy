/** `escapeHtml`: the five characters that are special in HTML text and
    attribute values are replaced by character references. */
module Escape {
  import opened Optional

  /** The characters `escapeHtml` replaces. */
  predicate IsSpecial(c: char) {
    c == '&' || c == '<' || c == '>' || c == '"' || c == '\''
  }

  /** The characters that may not survive escaping: everything special
      except `&`, which reappears as the start of a reference. */
  predicate IsMarkup(c: char) {
    c == '<' || c == '>' || c == '"' || c == '\''
  }

  /** The replacement table of `escapeHtml`. */
  function EscapeChar(c: char): string {
    match c
    case '&' => "&amp;"
    case '<' => "&lt;"
    case '>' => "&gt;"
    case '"' => "&quot;"
    case '\'' => "&#039;"
    case _ => [c]
  }

  /** The replacement applied to every character of `s`. */
  function EscapeString(s: string): (r: string)
    ensures |r| >= |s|
    ensures |r| == |s| <==> forall i :: 0 <= i < |s| ==> !IsSpecial(s[i])
    ensures forall i :: 0 <= i < |r| ==> !IsMarkup(r[i])
  {
    if |s| == 0 then []
    else
      var head := EscapeChar(s[0]);
      var rest := EscapeString(s[1..]);
      assert forall i :: 1 <= i < |s| ==> s[i] == s[1..][i - 1];
      head + rest
  }

  /** `escapeHtml(unsafe)`: `null` and `undefined` give the empty string;
      any other value is escaped, and decoding the result gives it back. */
  function EscapeHtml(unsafe: Option<string>): (r: string)
    ensures unsafe.None? ==> r == []
    ensures unsafe.Some? ==> r == EscapeString(unsafe.value)
    ensures unsafe.Some? ==> |r| >= |unsafe.value| && Unescape(r) == unsafe.value
    ensures forall i :: 0 <= i < |r| ==> !IsMarkup(r[i])
  {
    match unsafe
    case None => []
    case Some(s) =>
      UnescapeEscape(s);
      EscapeString(s)
  }

  /** Escaping works character by character, so it distributes over
      concatenation. */
  lemma {:induction false} EscapeConcat(a: string, b: string)
    ensures EscapeString(a + b) == EscapeString(a) + EscapeString(b)
  {
    if |a| == 0 {
      assert a + b == b;
    } else {
      assert (a + b)[0] == a[0];
      assert (a + b)[1..] == a[1..] + b;
      EscapeConcat(a[1..], b);
    }
  }

  /** Text without special characters passes through unchanged. */
  lemma {:induction false} EscapePlain(s: string)
    requires forall i :: 0 <= i < |s| ==> !IsSpecial(s[i])
    ensures EscapeString(s) == s
  {
    if |s| > 0 {
      EscapePlain(s[1..]);
    }
  }

  /** Decoding of the five references `escapeHtml` produces; every other
      character, a stray `&` included, is copied. */
  function Unescape(s: string): string
    decreases |s|
  {
    if |s| == 0 then []
    else if "&amp;" <= s then "&" + Unescape(s[5..])
    else if "&lt;" <= s then "<" + Unescape(s[4..])
    else if "&gt;" <= s then ">" + Unescape(s[4..])
    else if "&quot;" <= s then "\"" + Unescape(s[6..])
    else if "&#039;" <= s then "'" + Unescape(s[6..])
    else [s[0]] + Unescape(s[1..])
  }

  /** Decoding one escaped character in front of any text yields that
      character in front of the decoded text. */
  lemma UnescapeStep(c: char, t: string)
    ensures Unescape(EscapeChar(c) + t) == [c] + Unescape(t)
  {
    if IsSpecial(c) {
      UnescapeSpecial(c, t);
    } else {
      var e := EscapeChar(c) + t;
      assert e[0] == c && e[1..] == t;
    }
  }

  /** The same for the five characters that escaping replaces. */
  lemma UnescapeSpecial(c: char, t: string)
    requires IsSpecial(c)
    ensures Unescape(EscapeChar(c) + t) == [c] + Unescape(t)
  {
    var e := EscapeChar(c) + t;
    if c == '&' {
      assert e[5..] == t;
    } else if c == '<' {
      assert e[1] == 'l' && e[4..] == t;
    } else if c == '>' {
      assert e[1] == 'g' && e[4..] == t;
    } else if c == '"' {
      assert e[1] == 'q' && e[6..] == t;
    } else {
      assert e[1] == '#' && e[6..] == t;
    }
  }

  /** Escaping loses no information: decoding recovers the original text. */
  lemma {:induction false} UnescapeEscape(s: string)
    ensures Unescape(EscapeString(s)) == s
  {
    if |s| > 0 {
      UnescapeStep(s[0], EscapeString(s[1..]));
      UnescapeEscape(s[1..]);
      assert [s[0]] + s[1..] == s;
    }
  }
}
