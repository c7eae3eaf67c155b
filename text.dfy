/**
  The string operations the request handlers use on form values and file
  names: Python's str.strip(), str.lower() and the search for the last "."
  that str.rsplit(".", 1) performs.
*/
module Text {
  import opened Wrappers

  /** Python's str.isspace() on one character: the code points that
      CPython's whitespace table lists. */
  predicate IsSpace(c: char) {
    || ('\t' <= c <= '\r')
    || ('\U{1C}' <= c <= '\U{1F}')
    || c == ' '
    || c == '\U{85}'
    || c == '\U{A0}'
    || c == '\U{1680}'
    || ('\U{2000}' <= c <= '\U{200A}')
    || c == '\U{2028}'
    || c == '\U{2029}'
    || c == '\U{202F}'
    || c == '\U{205F}'
    || c == '\U{3000}'
  }

  /** Every character of s is whitespace (true of the empty string). */
  predicate Blank(s: string) {
    forall k :: 0 <= k < |s| ==> IsSpace(s[k])
  }

  /** s neither starts nor ends with whitespace. */
  predicate Trimmed(s: string) {
    s != [] ==> !IsSpace(s[0]) && !IsSpace(s[|s| - 1])
  }

  /** s without its leading whitespace. */
  function TrimStart(s: string): (r: string)
    ensures |r| <= |s| && r == s[|s| - |r|..]
    ensures Blank(s[..|s| - |r|])
    ensures r != [] ==> !IsSpace(r[0])
    decreases |s|
  {
    if s != [] && IsSpace(s[0]) then
      var r := TrimStart(s[1..]);
      LeadingBlank(s, |s| - |r|);
      r
    else
      s
  }

  /** A blank prefix of s[1..] after a whitespace s[0] is a blank prefix of
      s that is one longer. */
  lemma LeadingBlank(s: string, n: nat)
    requires 1 <= n <= |s| && IsSpace(s[0]) && Blank(s[1..][..n - 1])
    ensures Blank(s[..n]) && s[n..] == s[1..][n - 1..]
  {
    forall k | 0 <= k < n ensures IsSpace(s[..n][k]) {
      if k > 0 {
        assert s[..n][k] == s[1..][..n - 1][k - 1];
      }
    }
  }

  /** s without its trailing whitespace. */
  function TrimEnd(s: string): (r: string)
    ensures |r| <= |s| && r == s[..|r|]
    ensures Blank(s[|r|..])
    ensures r != [] ==> !IsSpace(r[|r| - 1])
    decreases |s|
  {
    if s != [] && IsSpace(s[|s| - 1]) then
      var r := TrimEnd(s[..|s| - 1]);
      TrailingBlank(s, |r|);
      r
    else
      s
  }

  /** A blank suffix of s[..|s| - 1] before a whitespace last character is
      a blank suffix of s that is one longer. */
  lemma TrailingBlank(s: string, n: nat)
    requires n < |s| && IsSpace(s[|s| - 1]) && Blank(s[..|s| - 1][n..])
    ensures Blank(s[n..]) && s[..n] == s[..|s| - 1][..n]
  {
    forall k | 0 <= k < |s| - n ensures IsSpace(s[n..][k]) {
      if k < |s| - 1 - n {
        assert s[n..][k] == s[..|s| - 1][n..][k];
      }
    }
  }

  /** Python's str.strip() with no argument: whitespace removed at both ends.
      The result is empty exactly when s is all whitespace, and otherwise
      starts and ends with a character that is not whitespace. */
  function Strip(s: string): (r: string)
    ensures r == [] <==> Blank(s)
    ensures Trimmed(r)
  {
    TrimBothEmpty(s);
    TrimBothTrimmed(s);
    TrimEnd(TrimStart(s))
  }

  lemma TrimBothEmpty(s: string)
    ensures TrimEnd(TrimStart(s)) == [] <==> Blank(s)
  {
    var t := TrimStart(s);
    var r := TrimEnd(t);
    BlankSplit(s, |s| - |t|);
    BlankSplit(t, |r|);
    assert r != [] ==> r[0] == t[0] && !IsSpace(r[0]);
  }

  lemma TrimBothTrimmed(s: string)
    ensures Trimmed(TrimEnd(TrimStart(s)))
  {
    var t := TrimStart(s);
    var r := TrimEnd(t);
    assert r != [] ==> r[0] == t[0];
  }

  /** s is blank exactly when both sides of a split of it are. */
  lemma BlankSplit(s: string, n: nat)
    requires n <= |s|
    ensures Blank(s) <==> Blank(s[..n]) && Blank(s[n..])
  {
    assert s == s[..n] + s[n..];
    BlankConcat(s[..n], s[n..]);
  }

  /** A concatenation is blank exactly when both parts are. */
  lemma BlankConcat(a: string, b: string)
    ensures Blank(a + b) <==> Blank(a) && Blank(b)
  {
    if Blank(a + b) {
      forall k | 0 <= k < |a| ensures IsSpace(a[k]) {
        assert a[k] == (a + b)[k];
      }
      forall k | 0 <= k < |b| ensures IsSpace(b[k]) {
        assert b[k] == (a + b)[|a| + k];
      }
    }
    if Blank(a) && Blank(b) {
      forall k | 0 <= k < |a + b| ensures IsSpace((a + b)[k]) {
        if k < |a| {
          assert (a + b)[k] == a[k];
        } else {
          assert (a + b)[k] == b[k - |a|];
        }
      }
    }
  }

  /** Stripping leaves a trimmed string as it is. */
  lemma StripOfTrimmed(s: string)
    requires Trimmed(s)
    ensures Strip(s) == s
  {
    if s != [] {
      assert TrimStart(s) == s;
      assert TrimEnd(s) == s;
    }
  }

  /** Stripping twice is the same as stripping once. */
  lemma StripIdempotent(s: string)
    ensures Strip(Strip(s)) == Strip(s)
  {
    StripOfTrimmed(Strip(s));
  }

  /** The result of Strip(s) is a slice of s whose margins are whitespace. */
  lemma StripIsInfix(s: string)
    ensures exists i :: BetweenBlanks(s, i, Strip(s))
  {
    var t := TrimStart(s);
    var r := TrimEnd(t);
    MarginsAreBlank(s, t, r);
    assert Strip(s) == r;
    assert BetweenBlanks(s, |s| - |t|, Strip(s));
  }

  /** r is the slice of s at i, with blank margins on both sides. */
  ghost predicate BetweenBlanks(s: string, i: int, r: string) {
    0 <= i <= |s| - |r| && r == s[i..i + |r|] && Blank(s[..i]) && Blank(s[i + |r|..])
  }

  /** Cutting a blank prefix off s, giving t, and then a blank suffix off t,
      giving r, leaves r between two blank margins of s. */
  lemma MarginsAreBlank(s: string, t: string, r: string)
    requires |t| <= |s| && t == s[|s| - |t|..] && Blank(s[..|s| - |t|])
    requires |r| <= |t| && r == t[..|r|] && Blank(t[|r|..])
    ensures BetweenBlanks(s, |s| - |t|, r)
  {
    SliceOfSuffix(s, |s| - |t|, t, |r|);
  }

  /** Slicing a suffix of s is slicing s further along. */
  lemma SliceOfSuffix(s: string, i: nat, t: string, n: nat)
    requires i <= |s| && t == s[i..] && n <= |t|
    ensures t[..n] == s[i..i + n] && t[n..] == s[i + n..]
  {
  }

  /** Python's str.lower() on one character, restricted to ASCII letters. */
  function LowerChar(c: char): char {
    if 'A' <= c <= 'Z' then (c as int + 32) as char else c
  }

  /** str.lower() applied character by character (ASCII letters only). */
  function Lower(s: string): (r: string)
    ensures |r| == |s|
    ensures forall k :: 0 <= k < |s| ==> r[k] == LowerChar(s[k])
  {
    if s == [] then [] else [LowerChar(s[0])] + Lower(s[1..])
  }

  /** The index of the last occurrence of c in s, if there is one. */
  function LastIndexOf(s: string, c: char): (r: Option<nat>)
    ensures r.None? <==> c !in s
    ensures r.Some? ==> r.value < |s| && s[r.value] == c && c !in s[r.value + 1..]
  {
    if s == [] then None
    else if s[|s| - 1] == c then Some(|s| - 1)
    else
      var r := LastIndexOf(s[..|s| - 1], c);
      assert s == s[..|s| - 1] + [s[|s| - 1]];
      r
  }

  /** LastIndexOf is pinned down by its contract: an occurrence of c with no
      c after it is the last one. */
  lemma LastIndexOfUnique(s: string, c: char, i: nat)
    requires i < |s| && s[i] == c && c !in s[i + 1..]
    ensures LastIndexOf(s, c) == Some(i)
  {
  }
}
