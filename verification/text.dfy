/** The string operations of the Python runtime that the scraper relies on:
    `str.strip()` (for text strings and for byte strings), `str.find`, and
    the in-order concatenation that every `s += …` loop of the scraper builds. */
module Text {

  /** Characters `unicode.strip()` removes in Python 2.7 (`unicode.isspace`). */
  predicate IsSpace(c: char)
  {
    c == ' ' || ('\t' <= c <= '\r') || ('\U{1C}' <= c <= '\U{1F}')
    || c == '\U{85}' || c == '\U{A0}' || c == '\U{1680}' || c == '\U{180E}'
    || ('\U{2000}' <= c <= '\U{200A}') || c == '\U{2028}' || c == '\U{2029}'
    || c == '\U{202F}' || c == '\U{205F}' || c == '\U{3000}'
  }

  /** Characters `str.strip()` removes from a Python 2 byte string. */
  predicate IsAsciiSpace(c: char)
  {
    c == ' ' || ('\t' <= c <= '\r')
  }

  /** Neither end of `s` is a whitespace character. */
  predicate Trimmed(s: string, ws: char -> bool)
  {
    s == [] || (!ws(s[0]) && !ws(s[|s| - 1]))
  }

  /** The index of the first non-whitespace character at or after `i`, or `|s|` when there is none. */
  function SkipSpace(s: string, ws: char -> bool, i: nat): (e: nat)
    requires i <= |s|
    decreases |s| - i
    ensures i <= e <= |s|
    ensures forall k :: i <= k < e ==> ws(s[k])
    ensures e == |s| || !ws(s[e])
  {
    if i < |s| && ws(s[i]) then SkipSpace(s, ws, i + 1) else i
  }

  /** The index just after the last non-whitespace character in `s[lo..j]`, or `lo` when there is none. */
  function SkipSpaceBack(s: string, ws: char -> bool, lo: nat, j: nat): (e: nat)
    requires lo <= j <= |s|
    decreases j
    ensures lo <= e <= j
    ensures forall k :: e <= k < j ==> ws(s[k])
    ensures e == lo || !ws(s[e - 1])
  {
    if lo < j && ws(s[j - 1]) then SkipSpaceBack(s, ws, lo, j - 1) else j
  }

  /** Python's `strip()` with the whitespace class `ws`. */
  function Strip(s: string, ws: char -> bool): (r: string)
    ensures Trimmed(r, ws)
    ensures |r| <= |s|
  {
    var i := SkipSpace(s, ws, 0);
    s[i..SkipSpaceBack(s, ws, i, |s|)]
  }

  /** The cut points of `strip()`: its result is the slice `s[i..j]`, and only
      whitespace lies before `i` and from `j` on. */
  lemma StripBounds(s: string, ws: char -> bool) returns (i: nat, j: nat)
    ensures i <= j <= |s| && Strip(s, ws) == s[i..j]
    ensures forall k :: 0 <= k < i ==> ws(s[k])
    ensures forall k :: j <= k < |s| ==> ws(s[k])
  {
    i := SkipSpace(s, ws, 0);
    j := SkipSpaceBack(s, ws, i, |s|);
  }

  /** `strip()` is determined by its cut points: whenever `s[i..j]` has no
      whitespace at its ends and only whitespace lies outside it, it is `Strip(s)`. */
  lemma StripUnique(s: string, ws: char -> bool, i: nat, j: nat)
    requires i <= j <= |s|
    requires forall k :: 0 <= k < i ==> ws(s[k])
    requires forall k :: j <= k < |s| ==> ws(s[k])
    requires Trimmed(s[i..j], ws)
    ensures Strip(s, ws) == s[i..j]
  {
  }

  /** A string that does not begin or end with whitespace is left alone by `strip()`. */
  lemma StripTrimmed(s: string, ws: char -> bool)
    requires Trimmed(s, ws)
    ensures Strip(s, ws) == s
  {
  }

  /** `pat` occurs in `s` starting at index `k`. */
  predicate OccursAt(s: string, pat: string, k: int)
  {
    0 <= k && k + |pat| <= |s| && s[k..k + |pat|] == pat
  }

  predicate Contains(s: string, pat: string)
  {
    exists k :: 0 <= k <= |s| && OccursAt(s, pat, k)
  }

  function FindFrom(s: string, pat: string, i: nat): (r: int)
    requires i <= |s|
    decreases |s| - i
    ensures r == -1 || (i <= r && OccursAt(s, pat, r))
    ensures forall k :: i <= k && (r == -1 || k < r) ==> !OccursAt(s, pat, k)
  {
    if OccursAt(s, pat, i) then i
    else if i == |s| then -1
    else FindFrom(s, pat, i + 1)
  }

  /** Python's `s.find(pat)`: the index of the first occurrence of `pat`, or -1 when there is none. */
  function Find(s: string, pat: string): (r: int)
    ensures r == -1 <==> !Contains(s, pat)
    ensures r != -1 ==> OccursAt(s, pat, r) && forall k :: 0 <= k < r ==> !OccursAt(s, pat, k)
  {
    FindFrom(s, pat, 0)
  }

  /** An occurrence inside a slice is an occurrence in the whole string. */
  lemma OccursInSlice(s: string, pat: string, a: nat, b: nat, k: int)
    requires a <= b <= |s|
    requires OccursAt(s[a..b], pat, k)
    ensures OccursAt(s, pat, a + k)
  {
    var t := s[a..b];
    assert t[k..k + |pat|] == pat;
    forall m | 0 <= m < |pat|
      ensures s[a + k..a + k + |pat|][m] == pat[m]
    {
      assert pat[m] == t[k..k + |pat|][m] == t[k + m];
    }
  }

  /** The in-order concatenation of `f(x)` over `xs`: the value that a Python loop
      `acc = ''` / `for x in xs: acc += f(x)` leaves in `acc`. */
  function ConcatMap<T>(f: T -> string, xs: seq<T>): (r: string)
  {
    if xs == [] then "" else ConcatMap(f, xs[..|xs| - 1]) + f(xs[|xs| - 1])
  }

  /** One more element of a prefix adds its piece at the end. */
  lemma ConcatMapSnoc<T>(f: T -> string, xs: seq<T>, i: nat)
    requires i < |xs|
    ensures ConcatMap(f, xs[..i + 1]) == ConcatMap(f, xs[..i]) + f(xs[i])
  {
    assert xs[..i + 1][..i] == xs[..i];
  }

  /** Concatenating over two lists one after the other is concatenating over their join. */
  lemma {:induction false} ConcatMapAppend<T>(f: T -> string, a: seq<T>, b: seq<T>)
    ensures ConcatMap(f, a + b) == ConcatMap(f, a) + ConcatMap(f, b)
  {
    if b == [] {
      assert a + b == a;
    } else {
      assert (a + b)[..|a + b| - 1] == a + b[..|b| - 1];
      ConcatMapAppend(f, a, b[..|b| - 1]);
    }
  }

  /** The piece of element `i` sits between the pieces of the elements before and after it. */
  lemma ConcatMapAt<T>(f: T -> string, xs: seq<T>, i: nat)
    requires i < |xs|
    ensures ConcatMap(f, xs) == ConcatMap(f, xs[..i]) + f(xs[i]) + ConcatMap(f, xs[i + 1..])
  {
    assert xs == xs[..i + 1] + xs[i + 1..];
    ConcatMapAppend(f, xs[..i + 1], xs[i + 1..]);
    ConcatMapSnoc(f, xs, i);
  }

  /** Elements whose piece is empty add nothing: when every piece is empty, so is the whole. */
  lemma {:induction false} ConcatMapAllEmpty<T>(f: T -> string, xs: seq<T>)
    requires forall k :: 0 <= k < |xs| ==> f(xs[k]) == ""
    ensures ConcatMap(f, xs) == ""
  {
    if xs != [] {
      ConcatMapAllEmpty(f, xs[..|xs| - 1]);
    }
  }

  /** The elements of `xs` that satisfy `p`, in their original order. */
  function Filter<T>(p: T -> bool, xs: seq<T>): (r: seq<T>)
    ensures |r| <= |xs|
    ensures forall k :: 0 <= k < |r| ==> p(r[k]) && r[k] in xs
  {
    if xs == [] then []
    else if p(xs[|xs| - 1]) then Filter(p, xs[..|xs| - 1]) + [xs[|xs| - 1]]
    else Filter(p, xs[..|xs| - 1])
  }

  /** Concatenating `f` over all of `xs`, where `f` gives `""` outside `p`, is
      concatenating `g` over the elements that satisfy `p`, when `f` and `g` agree on them. */
  lemma {:induction false} ConcatMapFilter<T>(f: T -> string, g: T -> string, p: T -> bool, xs: seq<T>)
    requires forall k :: 0 <= k < |xs| ==> f(xs[k]) == if p(xs[k]) then g(xs[k]) else ""
    ensures ConcatMap(f, xs) == ConcatMap(g, Filter(p, xs))
  {
    if xs != [] {
      var init, last := xs[..|xs| - 1], xs[|xs| - 1];
      ConcatMapFilter(f, g, p, init);
      if p(last) {
        var r := Filter(p, init) + [last];
        assert r[..|r| - 1] == Filter(p, init);
      }
    }
  }
}
