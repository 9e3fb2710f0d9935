/**
 * The string operations of the browser script: `String.prototype.trim`
 * and the first-letter capitalisation `s.charAt(0).toUpperCase() + s.slice(1)`
 * that the catalog, the category selector and the statistics page repeat.
 * Strings are sequences of Unicode scalar values.
 */
module JsText {

  /** The characters `trim` removes: ECMAScript WhiteSpace and LineTerminator. */
  predicate IsJsSpace(c: char) {
    || c == '\t' || c == '\n' || c == '\U{000B}' || c == '\U{000C}' || c == '\r'
    || c == ' ' || c == '\U{00A0}' || c == '\U{1680}'
    || ('\U{2000}' <= c <= '\U{200A}')
    || c == '\U{2028}' || c == '\U{2029}' || c == '\U{202F}' || c == '\U{205F}'
    || c == '\U{3000}' || c == '\U{FEFF}'
  }

  predicate AllSpace(s: string) {
    forall i :: 0 <= i < |s| ==> IsJsSpace(s[i])
  }

  /** True when `s` neither starts nor ends with a space character. */
  predicate Unpadded(s: string) {
    s == [] || (!IsJsSpace(s[0]) && !IsJsSpace(s[|s| - 1]))
  }

  /** Number of space characters at the start of `s`. */
  function LeadingSpaces(s: string): (k: nat)
    ensures k <= |s|
    ensures AllSpace(s[..k])
    ensures k < |s| ==> !IsJsSpace(s[k])
  {
    if s == [] || !IsJsSpace(s[0]) then 0
    else
      var k := 1 + LeadingSpaces(s[1..]);
      assert s[..k] == [s[0]] + s[1..][..k - 1];
      k
  }

  /** Number of space characters at the end of `s`. */
  function TrailingSpaces(s: string): (k: nat)
    ensures k <= |s|
    ensures AllSpace(s[|s| - k..])
    ensures k < |s| ==> !IsJsSpace(s[|s| - 1 - k])
  {
    if s == [] || !IsJsSpace(s[|s| - 1]) then 0
    else
      var t := s[..|s| - 1];
      var k := 1 + TrailingSpaces(t);
      assert s[|s| - k..] == t[|t| - (k - 1)..] + [s[|s| - 1]];
      k
  }

  /** `s.trimStart()`, as used by `parseInt` and `parseFloat`. */
  function TrimStart(s: string): (r: string)
    ensures |r| <= |s| && r == s[|s| - |r|..]
    ensures AllSpace(s[..|s| - |r|])
    ensures r == [] || !IsJsSpace(r[0])
  {
    s[LeadingSpaces(s)..]
  }

  /**
   * `s.trim()`: never longer than `s`, never padded, and the identity on a
   * string that is not padded already.
   */
  function Trim(s: string): (r: string)
    ensures |r| <= |s|
    ensures Unpadded(r)
    ensures Unpadded(s) ==> r == s
  {
    var a := LeadingSpaces(s);
    var t := s[a..];
    t[..|t| - TrailingSpaces(t)]
  }

  /**
   * `Trim(s)` is the infix of `s` that remains once the leading and trailing
   * space characters are cut off: it starts and ends with a non-space
   * character, and everything cut off is space.
   */
  lemma {:induction false} TrimIsInfix(s: string)
    ensures exists a, b :: 0 <= a <= b <= |s| && Trim(s) == s[a..b]
                           && AllSpace(s[..a]) && AllSpace(s[b..])
  {
    var a := LeadingSpaces(s);
    var t := s[a..];
    var e := TrailingSpaces(t);
    var b := a + |t| - e;
    assert Trim(s) == s[a..b];
    assert s[b..] == t[|t| - e..];
  }

  /** The result of trimming neither starts nor ends with a space character. */
  lemma {:induction false} TrimUnpadded(s: string)
    ensures Unpadded(Trim(s))
  {
  }

  /**
   * Trimming is determined by the unpadded core: surrounding it with space
   * characters on either side does not change the result.
   */
  lemma {:induction false} TrimOfPadded(pre: string, core: string, post: string)
    requires AllSpace(pre) && AllSpace(post) && Unpadded(core)
    ensures Trim(pre + core + post) == core
  {
    var s := pre + core + post;
    if core == [] {
      assert AllSpace(s) by {
        forall i | 0 <= i < |s| ensures IsJsSpace(s[i]) {
          if i < |pre| { assert s[i] == pre[i]; } else { assert s[i] == post[i - |pre|]; }
        }
      }
      assert LeadingSpaces(s) == |s|;
    } else {
      LeadingOfPadded(pre, core + post);
      assert s == pre + (core + post);
      assert s[|pre|..] == core + post;
      TrailingOfPadded(core, post);
      assert (core + post)[..|core|] == core;
    }
  }

  lemma {:induction false} LeadingOfPadded(pre: string, rest: string)
    requires AllSpace(pre) && rest != [] && !IsJsSpace(rest[0])
    ensures LeadingSpaces(pre + rest) == |pre| + LeadingSpaces(rest)
  {
    if pre != [] {
      assert (pre + rest)[1..] == pre[1..] + rest;
      LeadingOfPadded(pre[1..], rest);
    }
  }

  lemma {:induction false} TrailingOfPadded(core: string, post: string)
    requires AllSpace(post) && Unpadded(core)
    ensures TrailingSpaces(core + post) == |post| + TrailingSpaces(core)
  {
    if post != [] {
      var s := core + post;
      assert s[..|s| - 1] == core + post[..|post| - 1];
      TrailingOfPadded(core, post[..|post| - 1]);
    }
  }

  /** Trimming twice is trimming once. */
  lemma {:induction false} TrimIdempotent(s: string)
    ensures Trim(Trim(s)) == Trim(s)
  {
    TrimUnpadded(s);
    TrimOfPadded([], Trim(s), []);
    assert [] + Trim(s) + [] == Trim(s);
  }

  /** A string trims to the empty string exactly when it is all space. */
  lemma {:induction false} TrimEmptyIffAllSpace(s: string)
    ensures Trim(s) == [] <==> AllSpace(s)
  {
    var a := LeadingSpaces(s);
    if AllSpace(s) {
      assert a == |s|;
    } else {
      var i :| 0 <= i < |s| && !IsJsSpace(s[i]);
      assert a <= i;
      var t := s[a..];
      var e := TrailingSpaces(t);
      assert e < |t|;
    }
  }

  /**
   * `toUpperCase` of one character, restricted to the one-to-one simple
   * mappings of `a`-`z`, `µ` (U+00B5), U+00E0-U+00FE other than U+00F7,
   * U+00FF and the Cyrillic letters U+0430-U+045F; every other character is
   * returned unchanged.
   */
  function UpperChar(c: char): (r: char)
    ensures 'a' <= c <= 'z' ==> 'A' <= r <= 'Z' && r as int + 32 == c as int
    ensures c < '\U{0080}' && !('a' <= c <= 'z') ==> r == c
    ensures '\U{0430}' <= c <= '\U{045F}' ==> '\U{0400}' <= r <= '\U{042F}'
    ensures c == '\U{00B5}' ==> r == '\U{039C}'
    ensures '\U{00E0}' <= c <= '\U{00FE}' && c != '\U{00F7}' ==> r as int + 32 == c as int
    ensures c == '\U{00FF}' ==> r == '\U{0178}'
    ensures '\U{0430}' <= c <= '\U{044F}' ==> r as int + 32 == c as int
    ensures '\U{0450}' <= c <= '\U{045F}' ==> r as int + 80 == c as int
  {
    if 'a' <= c <= 'z' then (c as int - 32) as char
    else if c == '\U{00B5}' then '\U{039C}'
    else if '\U{00E0}' <= c <= '\U{00FE}' && c != '\U{00F7}' then (c as int - 32) as char
    else if c == '\U{00FF}' then '\U{0178}'
    else if '\U{0430}' <= c <= '\U{044F}' then (c as int - 32) as char
    else if '\U{0450}' <= c <= '\U{045F}' then (c as int - 80) as char
    else c
  }

  /** An upper-case letter stays as it is. */
  lemma UpperCharIdempotent(c: char)
    ensures UpperChar(UpperChar(c)) == UpperChar(c)
  {
  }

  /** `s.charAt(0).toUpperCase() + s.slice(1)`. */
  function Capitalize(s: string): (r: string)
    ensures |r| == |s|
    ensures s != [] ==> r[0] == UpperChar(s[0]) && r[1..] == s[1..]
  {
    if s == [] then [] else [UpperChar(s[0])] + s[1..]
  }

  /**
   * Capitalisation changes at most the first character, leaves the empty
   * string empty, and capitalising twice is capitalising once.
   */
  lemma {:induction false} CapitalizeOnlyFirst(s: string)
    ensures |Capitalize(s)| == |s|
    ensures forall i :: 1 <= i < |s| ==> Capitalize(s)[i] == s[i]
    ensures Capitalize(Capitalize(s)) == Capitalize(s)
  {
    if s != [] {
      UpperCharIdempotent(s[0]);
    }
  }

  /** The category badge text: capitalised, or 'Не указана' for a missing category. */
  function CategoryLabel(category: string): (r: string)
    ensures r != []
    ensures category == [] ==> r == "Не указана"
    ensures category != [] ==> |r| == |category| && r[0] == UpperChar(category[0]) && r[1..] == category[1..]
  {
    if category == "" then "Не указана" else Capitalize(category)
  }
}
