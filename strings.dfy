/**
 The Python `str` operations the filter and the block-list tool rely on:
 `lower()`, the substring test `pat in text`, `startswith`, `split(sep)[-1]`,
 and `lstrip` / `rstrip` / `strip` over a set of characters.
 */
module Strings {

  /** The characters Python's argument-less `str.strip()` removes (`str.isspace`). */
  const Whitespace: set<char> := {
    '\t', '\n', '\U{0B}', '\U{0C}', '\r', '\U{1C}', '\U{1D}', '\U{1E}', '\U{1F}', ' ',
    '\U{85}', '\U{A0}', '\U{1680}', '\U{2000}', '\U{2001}', '\U{2002}', '\U{2003}',
    '\U{2004}', '\U{2005}', '\U{2006}', '\U{2007}', '\U{2008}', '\U{2009}', '\U{200A}',
    '\U{2028}', '\U{2029}', '\U{202F}', '\U{205F}', '\U{3000}'
  }

  /** Upper-case letters of the ASCII and Latin-1 ranges (the multiplication sign excepted). */
  predicate IsUpper(c: char) {
    'A' <= c <= 'Z' || ('\U{C0}' <= c <= '\U{DE}' && c != '\U{D7}')
  }

  /** Lower-case conversion of one character: upper-case letters move 32 code points up. */
  function LowerChar(c: char): (l: char)
    ensures !IsUpper(l)
    ensures !IsUpper(c) ==> l == c
    ensures IsUpper(c) ==> l as int == c as int + 32
  {
    if IsUpper(c) then (c as int + 32) as char else c
  }

  /** `s.lower()`, character by character. */
  function Lower(s: string): (r: string)
    ensures |r| == |s|
    ensures forall i :: 0 <= i < |s| ==> r[i] == LowerChar(s[i]) && !IsUpper(r[i])
  {
    if s == [] then [] else [LowerChar(s[0])] + Lower(s[1..])
  }

  /** Lowering twice is lowering once. */
  lemma {:induction false} LowerIdempotent(s: string)
    ensures Lower(Lower(s)) == Lower(s)
  {
    assert forall i :: 0 <= i < |s| ==> Lower(Lower(s))[i] == Lower(s)[i];
  }

  /** Lowering commutes with concatenation. */
  lemma {:induction false} LowerConcat(a: string, b: string)
    ensures Lower(a + b) == Lower(a) + Lower(b)
  {
    var l, r := Lower(a + b), Lower(a) + Lower(b);
    forall i | 0 <= i < |a + b| ensures l[i] == r[i] {
      if i < |a| {
        assert (a + b)[i] == a[i] && r[i] == Lower(a)[i];
      } else {
        assert (a + b)[i] == b[i - |a|] && r[i] == Lower(b)[i - |a|];
      }
    }
  }

  /** A string whose characters lower one by one to those of `t` lowers to `t`. */
  lemma LowerByChars(s: string, t: string)
    requires |s| == |t| && forall i :: 0 <= i < |s| ==> LowerChar(s[i]) == t[i]
    ensures Lower(s) == t
  {
  }

  /** `pat` occurs in `text` at offset `i`. */
  predicate OccursAt(pat: string, text: string, i: nat) {
    i + |pat| <= |text| && text[i..i + |pat|] == pat
  }

  /** Python's `pat in text`: whether `pat` is a substring of `text`. */
  function Contains(text: string, pat: string): (r: bool)
    ensures r <==> exists i: nat :: OccursAt(pat, text, i)
    decreases |text|
  {
    if |pat| > |text| then false
    else if text[..|pat|] == pat then
      assert OccursAt(pat, text, 0);
      true
    else
      forall i: nat ensures OccursAt(pat, text, i + 1) <==> OccursAt(pat, text[1..], i) {
        OccursShift(pat, text, i);
      }
      assert !OccursAt(pat, text, 0);
      assert forall i: nat :: OccursAt(pat, text, i) ==> i >= 1 && OccursAt(pat, text[1..], i - 1);
      Contains(text[1..], pat)
  }

  /** An occurrence in `text` after its first character is an occurrence in `text[1..]`. */
  lemma OccursShift(pat: string, text: string, i: nat)
    requires text != []
    ensures OccursAt(pat, text, i + 1) <==> OccursAt(pat, text[1..], i)
  {
    if i + |pat| < |text| {
      assert text[1..][i..i + |pat|] == text[i + 1..i + 1 + |pat|];
    }
  }

  /** `s.startswith(p)`. */
  predicate StartsWith(s: string, p: string) {
    |p| <= |s| && s[..|p|] == p
  }

  /** `s.split(sep)[-1]`: the text after the last `sep`, or all of `s` when it has none. */
  function LastSegment(s: string, sep: char): (r: string)
    ensures |r| <= |s| && r == s[|s| - |r|..]
    ensures sep !in r
    ensures |r| < |s| ==> s[|s| - |r| - 1] == sep
    decreases |s|
  {
    if s == [] then []
    else if s[|s| - 1] == sep then []
    else
      var r := LastSegment(s[..|s| - 1], sep);
      assert s[..|s| - 1][|s| - 1 - |r|..] + [s[|s| - 1]] == s[|s| - 1 - |r|..];
      r + [s[|s| - 1]]
  }

  /** `s.lstrip(chars)`: `s` without its longest prefix made of `chars`. */
  function LStrip(s: string, chars: set<char>): (r: string)
    ensures |r| <= |s| && r == s[|s| - |r|..]
    ensures forall i :: 0 <= i < |s| - |r| ==> s[i] in chars
    ensures r == [] || r[0] !in chars
  {
    if s != [] && s[0] in chars then LStrip(s[1..], chars) else s
  }

  /** `s.rstrip(chars)`: `s` without its longest suffix made of `chars`. */
  function RStrip(s: string, chars: set<char>): (r: string)
    ensures |r| <= |s| && r == s[..|r|]
    ensures forall i :: |r| <= i < |s| ==> s[i] in chars
    ensures r == [] || r[|r| - 1] !in chars
  {
    if s != [] && s[|s| - 1] in chars then RStrip(s[..|s| - 1], chars) else s
  }

  /** Neither end of `s` is one of `chars`. */
  predicate Trimmed(s: string, chars: set<char>) {
    s == [] || (s[0] !in chars && s[|s| - 1] !in chars)
  }

  /** `s.strip(chars)`: both ends of `s` cleared of `chars`; `s.strip()` is `Strip(s, Whitespace)`. */
  function Strip(s: string, chars: set<char>): (r: string)
    ensures Trimmed(r, chars)
    ensures forall k :: 0 <= k < |r| ==> r[k] in s
  {
    var l := LStrip(s, chars);
    var r := RStrip(l, chars);
    assert r == s[|s| - |l|..|s| - |l| + |r|];
    SliceChars(s, |s| - |l|, r);
    r
  }

  /** Every character of a slice of `s` occurs in `s`. */
  lemma SliceChars(s: string, a: nat, r: string)
    requires a + |r| <= |s| && r == s[a..a + |r|]
    ensures forall k :: 0 <= k < |r| ==> r[k] in s
  {
    assert forall k :: 0 <= k < |r| ==> r[k] == s[a + k];
  }

  /** `lstrip` removes exactly a prefix of `chars` and keeps what follows it. */
  lemma {:induction false} LStripPrefix(pre: string, t: string, chars: set<char>)
    requires forall i :: 0 <= i < |pre| ==> pre[i] in chars
    requires t == [] || t[0] !in chars
    ensures LStrip(pre + t, chars) == t
  {
    if pre != [] {
      assert (pre + t)[1..] == pre[1..] + t;
      LStripPrefix(pre[1..], t, chars);
    }
  }

  /** `rstrip` removes exactly a suffix of `chars` and keeps what precedes it. */
  lemma {:induction false} RStripSuffix(t: string, post: string, chars: set<char>)
    requires forall i :: 0 <= i < |post| ==> post[i] in chars
    requires t == [] || t[|t| - 1] !in chars
    ensures RStrip(t + post, chars) == t
  {
    if post != [] {
      assert (t + post)[..|t + post| - 1] == t + post[..|post| - 1];
      RStripSuffix(t, post[..|post| - 1], chars);
    } else {
      assert t + post == t;
    }
  }

  /** `strip` gives back the core of any padding of it with `chars`. */
  lemma StripPadding(pre: string, core: string, post: string, chars: set<char>)
    requires forall i :: 0 <= i < |pre| ==> pre[i] in chars
    requires forall i :: 0 <= i < |post| ==> post[i] in chars
    requires Trimmed(core, chars)
    ensures Strip(pre + core + post, chars) == core
  {
    if core == [] {
      assert pre + core + post == pre + post;
      LStripPrefix(pre + post, [], chars);
      assert pre + post + [] == pre + post;
    } else {
      assert pre + core + post == pre + (core + post);
      LStripPrefix(pre, core + post, chars);
    }
    RStripSuffix(core, post, chars);
  }

  /** `split(sep)[-1]` of anything followed by `sep` and a `sep`-free tail is that tail. */
  lemma {:induction false} LastSegmentAfterSep(s: string, sep: char, t: string)
    requires sep !in t
    ensures LastSegment(s + [sep] + t, sep) == t
    decreases |t|
  {
    var u := s + [sep] + t;
    if t != [] {
      assert u[..|u| - 1] == s + [sep] + t[..|t| - 1];
      LastSegmentAfterSep(s, sep, t[..|t| - 1]);
      assert t[..|t| - 1] + [t[|t| - 1]] == t;
    }
  }
}
