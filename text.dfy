/** The two string operations the script applies to column names:
    `str.strip()` and the substring test `'AQI' in c`. */
module Text {

  /** The characters `str.strip()` removes that lie in the ASCII range:
      space, tab, line feed, vertical tab, form feed, carriage return and the
      four information separators U+001C to U+001F. */
  predicate IsSpace(c: char) {
    c == ' ' || ('\t' <= c <= '\r') || ('\U{1C}' <= c <= '\U{1F}')
  }

  /** Drops leading whitespace; the result is the suffix that starts at the
      first non-space character. */
  function TrimStart(s: string): (r: string)
    ensures |r| <= |s| && r == s[|s| - |r|..]
    ensures forall k :: 0 <= k < |s| - |r| ==> IsSpace(s[k])
    ensures r != [] ==> !IsSpace(r[0])
  {
    if s != [] && IsSpace(s[0]) then TrimStart(s[1..]) else s
  }

  /** Drops trailing whitespace; the result is the prefix that ends at the
      last non-space character. */
  function TrimEnd(s: string): (r: string)
    ensures |r| <= |s| && r == s[..|r|]
    ensures forall k :: |r| <= k < |s| ==> IsSpace(s[k])
    ensures r != [] ==> !IsSpace(r[|r| - 1])
  {
    if s != [] && IsSpace(s[|s| - 1]) then TrimEnd(s[..|s| - 1]) else s
  }

  /** `r` is what is left of `s` after cutting `i` whitespace characters
      off the front and only whitespace off the back. */
  ghost predicate CutAt(s: string, r: string, i: int) {
    && 0 <= i <= |s| && r <= s[i..]
    && (forall k :: 0 <= k < i ==> IsSpace(s[k]))
    && (forall k :: i + |r| <= k < |s| ==> IsSpace(s[k]))
  }

  /** `str.strip()`: whitespace cut off both ends. */
  function Strip(s: string): string {
    TrimEnd(TrimStart(s))
  }

  /** Stripping leaves the slice of `s` that neither starts nor ends with
      whitespace, obtained by cutting only whitespace off both ends. */
  lemma StripSlice(s: string)
    ensures exists i :: CutAt(s, Strip(s), i)
    ensures Strip(s) != [] ==> !IsSpace(Strip(s)[0]) && !IsSpace(Strip(s)[|Strip(s)| - 1])
  {
    var t := TrimStart(s);
    StripCuts(s, t, Strip(s));
    StripEnds(t, Strip(s));
  }

  lemma StripCuts(s: string, t: string, r: string)
    requires |t| <= |s| && t == s[|s| - |t|..] && forall k :: 0 <= k < |s| - |t| ==> IsSpace(s[k])
    requires |r| <= |t| && r == t[..|r|] && forall k :: |r| <= k < |t| ==> IsSpace(t[k])
    ensures CutAt(s, r, |s| - |t|)
  {
    SpacesAfter(s, t, |s| - |t|, |r|);
    assert r <= t;
  }

  lemma StripEnds(t: string, r: string)
    requires !(t != [] && IsSpace(t[0])) && r == TrimEnd(t)
    ensures r != [] ==> !IsSpace(r[0]) && !IsSpace(r[|r| - 1])
  {
    if r != [] {
      assert r[0] == t[0];
    }
  }

  /** Whitespace at the back of the suffix `t` is whitespace at the back
      of `s`. */
  lemma SpacesAfter(s: string, t: string, i: int, n: int)
    requires 0 <= i <= |s| && t == s[i..] && 0 <= n <= |t|
    requires forall k :: n <= k < |t| ==> IsSpace(t[k])
    ensures forall k :: i + n <= k < |s| ==> IsSpace(s[k])
  {
    forall k | i + n <= k < |s| ensures IsSpace(s[k]) {
      assert s[k] == t[k - i];
    }
  }

  /** Stripping twice is stripping once. */
  lemma StripIdempotent(s: string)
    ensures Strip(Strip(s)) == Strip(s)
  {
    var r := Strip(s);
    if r != [] {
      assert TrimStart(r) == r;
      assert TrimEnd(r) == r;
    }
  }

  /** `sub` occurs in `s` as a contiguous substring (Python's `sub in s`). */
  predicate Contains(s: string, sub: string)
    decreases |s|
  {
    if |s| < |sub| then false else sub <= s || Contains(s[1..], sub)
  }

  /** `Contains` holds exactly when `sub` starts at some position of `s`. */
  lemma {:induction false} ContainsAt(s: string, sub: string)
    ensures Contains(s, sub) <==> exists i :: 0 <= i <= |s| && sub <= s[i..]
    decreases |s|
  {
    if exists i :: 0 <= i <= |s| && sub <= s[i..] {
      var i :| 0 <= i <= |s| && sub <= s[i..];
      if i > 0 {
        assert s[1..][i - 1..] == s[i..];
        ContainsAt(s[1..], sub);
      } else {
        assert s[0..] == s;
      }
    }
    if Contains(s, sub) && !(sub <= s) {
      ContainsAt(s[1..], sub);
      var j :| 0 <= j <= |s[1..]| && sub <= s[1..][j..];
      assert s[1..][j..] == s[j + 1..];
    }
    if sub <= s {
      assert s[0..] == s;
    }
  }
}
