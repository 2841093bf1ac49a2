/**
 * The JavaScript string built-ins the coaching heuristics and the chat input
 * rely on: `toLowerCase` (ASCII letters only), `includes` and `trim`.
 */
module Strings {

  function LowerChar(c: char): (r: char) {
    if 'A' <= c <= 'Z' then (c as int + 32) as char else c
  }

  function UpperChar(c: char): (r: char) {
    if 'a' <= c <= 'z' then (c as int - 32) as char else c
  }

  /** `s.toLowerCase()`, restricted to the letters A-Z. */
  function Lower(s: string): (r: string)
    ensures |r| == |s|
  {
    seq(|s|, i requires 0 <= i < |s| => LowerChar(s[i]))
  }

  function Upper(s: string): (r: string)
    ensures |r| == |s|
  {
    seq(|s|, i requires 0 <= i < |s| => UpperChar(s[i]))
  }

  lemma LowerIdempotent(s: string)
    ensures Lower(Lower(s)) == Lower(s)
  {
  }

  /** Lowercasing ignores the case the text was typed in. */
  lemma LowerOfUpper(s: string)
    ensures Lower(Upper(s)) == Lower(s)
  {
  }

  /** `w` occurs in `t` starting at index `i`. */
  predicate OccursAt(t: string, w: string, i: nat) {
    i + |w| <= |t| && t[i..i + |w|] == w
  }

  /** `t.includes(w)`. */
  function Contains(t: string, w: string): (found: bool)
    decreases |t|
  {
    if |w| > |t| then false
    else if t[..|w|] == w then true
    else Contains(t[1..], w)
  }

  /** `includes` is substring search: true exactly when `w` occurs somewhere in `t`. */
  lemma {:induction false} ContainsIff(t: string, w: string)
    ensures Contains(t, w) <==> exists i: nat :: OccursAt(t, w, i)
    decreases |t|
  {
    if |w| > |t| {
    } else if t[..|w|] == w {
      assert OccursAt(t, w, 0);
    } else {
      ContainsIff(t[1..], w);
      if Contains(t[1..], w) {
        var i: nat :| OccursAt(t[1..], w, i);
        assert t[i + 1..i + 1 + |w|] == t[1..][i..i + |w|];
        assert OccursAt(t, w, i + 1);
      }
      if exists i: nat :: OccursAt(t, w, i) {
        var i: nat :| OccursAt(t, w, i);
        assert i != 0;
        assert t[1..][i - 1..i - 1 + |w|] == t[i..i + |w|];
        assert OccursAt(t[1..], w, i - 1);
      }
    }
  }

  /** A word still counts when it sits inside a longer text: `p + w + q` contains `w`. */
  lemma ContainsInfix(p: string, w: string, q: string)
    ensures Contains(p + w + q, w)
  {
    var t := p + w + q;
    assert t[|p|..|p| + |w|] == w;
    assert OccursAt(t, w, |p|);
    ContainsIff(t, w);
  }

  lemma ContainsNonEmptyInEmpty(w: string)
    requires |w| > 0
    ensures !Contains("", w)
  {
  }

  /**
   * The characters `String.prototype.trim` removes: the ECMAScript WhiteSpace
   * code points (tab, vertical tab, form feed, space, no-break space, BOM and
   * the Unicode Zs category) and LineTerminator code points.
   */
  predicate IsSpace(c: char) {
    c == '\t' || c == '\n' || c == '\U{000B}' || c == '\U{000C}' || c == '\r' ||
    c == ' ' || c == '\U{00A0}' || c == '\U{1680}' || ('\U{2000}' <= c <= '\U{200A}') ||
    c == '\U{2028}' || c == '\U{2029}' || c == '\U{202F}' || c == '\U{205F}' ||
    c == '\U{3000}' || c == '\U{FEFF}'
  }

  predicate AllSpace(s: string) {
    forall i | 0 <= i < |s| :: IsSpace(s[i])
  }

  /** The index of the first character at or after `i` that is not white space (`|s|` if none). */
  function SpaceEnd(s: string, i: nat): (n: nat)
    requires i <= |s|
    ensures i <= n <= |s|
    ensures forall k | i <= k < n :: IsSpace(s[k])
    ensures n == |s| || !IsSpace(s[n])
    decreases |s| - i
  {
    if i < |s| && IsSpace(s[i]) then SpaceEnd(s, i + 1) else i
  }

  /** One past the last character before `j` that is not white space (0 if none). */
  function SpaceStart(s: string, j: nat): (n: nat)
    requires j <= |s|
    ensures n <= j
    ensures forall k | n <= k < j :: IsSpace(s[k])
    ensures n == 0 || !IsSpace(s[n - 1])
  {
    if j > 0 && IsSpace(s[j - 1]) then SpaceStart(s, j - 1) else j
  }

  /** Drops leading white space: the result is a suffix of `s` and what was dropped is all white space. */
  function TrimStart(s: string): (r: string)
    ensures |r| <= |s| && r == s[|s| - |r|..]
    ensures AllSpace(s[..|s| - |r|])
    ensures r == [] || !IsSpace(r[0])
  {
    s[SpaceEnd(s, 0)..]
  }

  /** Drops trailing white space: the result is a prefix of `s` and what was dropped is all white space. */
  function TrimEnd(s: string): (r: string)
    ensures |r| <= |s| && r == s[..|r|]
    ensures AllSpace(s[|r|..])
    ensures r == [] || !IsSpace(r[|r| - 1])
  {
    s[..SpaceStart(s, |s|)]
  }

  /** `s.trim()`: leading white space dropped, then trailing white space. */
  function Trim(s: string): (r: string)
    ensures |r| <= |s|
    ensures r == [] || (!IsSpace(r[0]) && !IsSpace(r[|r| - 1]))
  {
    TrimEnd(TrimStart(s))
  }

  /** trim() yields the empty string exactly when the text is all white space. */
  lemma TrimEmptyIff(s: string)
    ensures Trim(s) == [] <==> AllSpace(s)
  {
    var a := TrimStart(s);
    if a != [] {
      assert a[0..] == a;
    }
  }

  /** Text that does not start or end with white space is left as it is. */
  lemma TrimOfTrimmed(s: string)
    requires s == [] || (!IsSpace(s[0]) && !IsSpace(s[|s| - 1]))
    ensures Trim(s) == s
  {
  }
}
