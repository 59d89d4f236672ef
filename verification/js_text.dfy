/** The string primitives the tracker relies on: `String.prototype.trim`,
    `trimStart`, `toLowerCase` (restricted to ASCII letters) and `includes`. */
module JsText {

  /** A code point that `trim` strips: the WhiteSpace and LineTerminator
      productions of ECMAScript (section 12.2 and 12.3 of ECMA-262). Below
      the space these are tab, line feed, vertical tab, form feed and
      carriage return (U+0009 to U+000D); none lies between the space and
      the no-break space U+00A0. */
  predicate IsJsSpace(c: char) {
    if c <= ' ' then c == ' ' || '\t' <= c <= '\r'
    else if c < '\U{00A0}' then false
    else
      || c == '\U{00A0}' || c == '\U{FEFF}'
      || c == '\U{1680}' || ('\U{2000}' <= c <= '\U{200A}')
      || c == '\U{202F}' || c == '\U{205F}' || c == '\U{3000}'
      || c == '\U{2028}' || c == '\U{2029}'
  }

  /** The length of the leading run of white space. */
  function LeadingSpace(s: string): (n: nat)
    ensures n <= |s|
    ensures forall i :: 0 <= i < n ==> IsJsSpace(s[i])
    ensures n < |s| ==> !IsJsSpace(s[n])
  {
    if |s| > 0 && IsJsSpace(s[0]) then 1 + LeadingSpace(s[1..]) else 0
  }

  /** The length of the trailing run of white space. */
  function TrailingSpace(s: string): (n: nat)
    ensures n <= |s|
    ensures forall i :: |s| - n <= i < |s| ==> IsJsSpace(s[i])
    ensures n < |s| ==> !IsJsSpace(s[|s| - n - 1])
  {
    if |s| > 0 && IsJsSpace(s[|s| - 1]) then 1 + TrailingSpace(s[..|s| - 1]) else 0
  }

  /** `s.trimStart()`: drops the leading run of white space. */
  function TrimStart(s: string): (r: string)
    ensures |r| <= |s| && r == s[|s| - |r|..]
    ensures forall i :: 0 <= i < |s| - |r| ==> IsJsSpace(s[i])
    ensures |r| > 0 ==> !IsJsSpace(r[0])
  {
    s[LeadingSpace(s)..]
  }

  /** `s.trimEnd()`: drops the trailing run of white space. */
  function TrimEnd(s: string): (r: string)
    ensures |r| <= |s| && r == s[..|r|]
    ensures forall i :: |r| <= i < |s| ==> IsJsSpace(s[i])
    ensures |r| > 0 ==> !IsJsSpace(r[|r| - 1])
  {
    s[..|s| - TrailingSpace(s)]
  }

  /** `r` is `s[lo..hi]`, everything outside that piece is white space,
      and the piece neither starts nor ends with white space. */
  ghost predicate IsTrimAt(r: string, s: string, lo: int, hi: int) {
    && 0 <= lo <= hi <= |s| && r == s[lo..hi]
    && (forall i :: 0 <= i < lo ==> IsJsSpace(s[i]))
    && (forall i :: hi <= i < |s| ==> IsJsSpace(s[i]))
    && (|r| > 0 ==> !IsJsSpace(r[0]) && !IsJsSpace(r[|r| - 1]))
  }

  /** `r` is what remains of `s` once the white space at both ends is gone. */
  ghost predicate IsTrimOf(r: string, s: string) {
    exists lo, hi :: IsTrimAt(r, s, lo, hi)
  }

  /** `s.trim()`. */
  function Trim(s: string): (r: string)
    ensures IsTrimOf(r, s)
  {
    var t := TrimStart(s);
    var r := TrimEnd(t);
    var lo := |s| - |t|;
    assert IsTrimAt(r, s, lo, lo + |r|) by {
      assert s[lo..lo + |r|] == r;
      forall i | lo + |r| <= i < |s|
        ensures IsJsSpace(s[i])
      {
        assert s[i] == t[i - lo];
      }
    }
    r
  }

  /** Trimming leaves nothing exactly when the string is all white space. */
  lemma TrimEmptyIffAllSpace(s: string)
    ensures Trim(s) == [] <==> forall i :: 0 <= i < |s| ==> IsJsSpace(s[i])
  {
    var r := Trim(s);
    var lo, hi :| IsTrimAt(r, s, lo, hi);
    if r == [] {
      forall i | 0 <= i < |s| ensures IsJsSpace(s[i]) {
        assert i < lo || hi <= i;
      }
    } else {
      assert s[lo] == r[0];
    }
  }

  /** A string without white space at either end is its own trim. */
  lemma TrimOfTrimmed(s: string)
    requires |s| > 0 ==> !IsJsSpace(s[0]) && !IsJsSpace(s[|s| - 1])
    ensures Trim(s) == s
  {
    var t := TrimStart(s);
    assert t == s;
  }

  /** The ASCII part of `toLowerCase`. */
  function LowerChar(c: char): char {
    if 'A' <= c <= 'Z' then (c as int + 32) as char else c
  }

  /** `s.toLowerCase()`, with ASCII case mapping. */
  function Lower(s: string): (r: string)
    ensures |r| == |s|
    ensures forall i :: 0 <= i < |s| ==> r[i] == LowerChar(s[i])
  {
    if |s| == 0 then [] else [LowerChar(s[0])] + Lower(s[1..])
  }

  /** `needle` occurs somewhere in `s` as a contiguous piece. */
  ghost predicate OccursIn(needle: string, s: string) {
    exists i :: 0 <= i <= |s| && needle <= s[i..]
  }

  /** `s.includes(needle)`: tries every start position from left to right. */
  function Includes(s: string, needle: string): (r: bool)
    ensures r <==> OccursIn(needle, s)
    decreases |s|
  {
    if needle <= s then
      assert s == s[0..];
      true
    else if |s| == 0 then
      false
    else
      var r := Includes(s[1..], needle);
      assert forall i :: 1 <= i <= |s| ==> s[i..] == s[1..][i - 1..];
      assert r ==> OccursIn(needle, s) by {
        if r {
          var j :| 0 <= j <= |s[1..]| && needle <= s[1..][j..];
          assert s[j + 1..] == s[1..][j..];
        }
      }
      r
  }
}
