/**
 * Character classes and small string utilities shared by the whole model.
 * The classes are the ASCII readings of the regular-expression classes the
 * translator uses: `\s` is [ \t\n\r\v\f], `\w` is [A-Za-z0-9_], `\d` is [0-9].
 */
module Text {

  datatype Option<T> = None | Some(value: T)

  /** `\s` */
  predicate IsSpace(c: char) {
    c == ' ' || c == '\t' || c == '\n' || c == '\r' || c == '\U{B}' || c == '\U{C}'
  }

  /** `\d` */
  predicate IsDigit(c: char) {
    '0' <= c <= '9'
  }

  /** `\w` */
  predicate IsWordChar(c: char) {
    'a' <= c <= 'z' || 'A' <= c <= 'Z' || IsDigit(c) || c == '_'
  }

  predicate AllSpace(t: string) {
    forall k :: 0 <= k < |t| ==> IsSpace(t[k])
  }

  predicate AllDigits(t: string) {
    forall k :: 0 <= k < |t| ==> IsDigit(t[k])
  }

  /** A non-empty run of `\w` characters, as `(\w+)` captures it. */
  predicate IsWord(t: string) {
    t != [] && forall k :: 0 <= k < |t| ==> IsWordChar(t[k])
  }

  /** `t` occurs in `s` at position `p`. */
  predicate At(s: string, p: nat, t: string) {
    p + |t| <= |s| && s[p..p + |t|] == t
  }

  /** One differing character rules an occurrence out. */
  lemma NotAt(s: string, p: nat, t: string, k: nat)
    requires k < |t| && p + k < |s| && s[p + k] != t[k]
    ensures !At(s, p, t)
  {
  }

  /** No whitespace at either end. */
  predicate Trimmed(t: string) {
    t == [] || (!IsSpace(t[0]) && !IsSpace(t[|t| - 1]))
  }

  predicate StartsWith(s: string, t: string) {
    At(s, 0, t)
  }

  predicate EndsWith(s: string, t: string) {
    |t| <= |s| && s[|s| - |t|..] == t
  }

  /** Python's `t in s`, searching from position `p` on. */
  function ContainsFrom(s: string, t: string, p: nat): (r: bool)
    ensures r <==> exists q :: p <= q && At(s, q, t)
    decreases |s| - p
  {
    if p + |t| > |s| then false
    else At(s, p, t) || ContainsFrom(s, t, p + 1)
  }

  function Contains(s: string, t: string): bool {
    ContainsFrom(s, t, 0)
  }

  /** `\b` at position `p`: exactly one of the characters around `p` is a word character. */
  predicate WordBoundary(s: string, p: nat) {
    (0 < p <= |s| && IsWordChar(s[p - 1])) != (p < |s| && IsWordChar(s[p]))
  }

  /** End of the longest run of whitespace that starts at `p` (what a greedy `\s*` consumes). */
  function SpaceRunEnd(s: string, p: nat): (e: nat)
    requires p <= |s|
    ensures p <= e <= |s|
    ensures forall k :: p <= k < e ==> IsSpace(s[k])
    ensures e == |s| || !IsSpace(s[e])
    decreases |s| - p
  {
    if p < |s| && IsSpace(s[p]) then SpaceRunEnd(s, p + 1) else p
  }

  /** End of the longest run of word characters that starts at `p` (greedy `\w*`). */
  function WordRunEnd(s: string, p: nat): (e: nat)
    requires p <= |s|
    ensures p <= e <= |s|
    ensures forall k :: p <= k < e ==> IsWordChar(s[k])
    ensures e == |s| || !IsWordChar(s[e])
    decreases |s| - p
  {
    if p < |s| && IsWordChar(s[p]) then WordRunEnd(s, p + 1) else p
  }

  /** End of the longest run of digits that starts at `p` (greedy `\d*`). */
  function DigitRunEnd(s: string, p: nat): (e: nat)
    requires p <= |s|
    ensures p <= e <= |s|
    ensures forall k :: p <= k < e ==> IsDigit(s[k])
    ensures e == |s| || !IsDigit(s[e])
    decreases |s| - p
  {
    if p < |s| && IsDigit(s[p]) then DigitRunEnd(s, p + 1) else p
  }

  /** The first `c` at or after `q` on the current line: what `.*?c` finds; `.` never crosses a newline. */
  function FindOnLine(s: string, q: nat, c: char): (r: Option<nat>)
    requires c != '\n'
    ensures r.Some? ==> q <= r.value < |s| && s[r.value] == c
    ensures r.Some? ==> forall k :: q <= k < r.value ==> s[k] != c && s[k] != '\n'
    ensures r.None? ==> forall k :: q <= k < |s| && s[k] == c ==> '\n' in s[q..k]
    decreases |s| - q
  {
    if q >= |s| || s[q] == '\n' then None
    else if s[q] == c then Some(q)
    else FindOnLine(s, q + 1, c)
  }

  /** The first `c` on the line is where the scan stops. */
  lemma {:induction false} FindOnLineIs(s: string, q0: nat, c: char, q: nat)
    requires c != '\n' && q0 <= q < |s| && s[q] == c
    requires forall k :: q0 <= k < q ==> s[k] != c && s[k] != '\n'
    ensures FindOnLine(s, q0, c) == Some(q)
    decreases q - q0
  {
    if q0 < q {
      FindOnLineIs(s, q0 + 1, c, q);
    }
  }

  /** Index of the first newline at or after `q`, or `|s|`: where a greedy `.+` stops. */
  function LineEnd(s: string, q: nat): (e: nat)
    requires q <= |s|
    ensures q <= e <= |s|
    ensures '\n' !in s[q..e]
    ensures e == |s| || s[e] == '\n'
    decreases |s| - q
  {
    if q == |s| || s[q] == '\n' then q else LineEnd(s, q + 1)
  }

  /** A line that runs from `q` to `e` is the line `LineEnd` finds. */
  lemma {:induction false} LineEndIs(s: string, q: nat, e: nat)
    requires q <= e <= |s|
    requires forall k :: q <= k < e ==> s[k] != '\n'
    requires e == |s| || s[e] == '\n'
    ensures LineEnd(s, q) == e
    decreases e - q
  {
    if q < e {
      LineEndIs(s, q + 1, e);
    }
  }

  /** End of the text once trailing whitespace after `lo` is dropped. */
  function TrimEnd(s: string, lo: nat, hi: nat): (j: nat)
    requires lo <= hi <= |s|
    ensures lo <= j <= hi
    ensures forall k :: j <= k < hi ==> IsSpace(s[k])
    ensures j == lo || !IsSpace(s[j - 1])
    decreases hi
  {
    if hi > lo && IsSpace(s[hi - 1]) then
      var j := TrimEnd(s, lo, hi - 1);
      j
    else hi
  }

  /** Python's `str.strip()` (over ASCII whitespace). */
  function Strip(s: string): (r: string)
    ensures |r| <= |s|
    ensures Trimmed(r)
  {
    var i := SpaceRunEnd(s, 0);
    var j := TrimEnd(s, i, |s|);
    s[i..j]
  }

  /** The strip is the middle of the text: whitespace before it and after it. */
  lemma StripParts(s: string)
    ensures var r, i := Strip(s), SpaceRunEnd(s, 0);
      i + |r| <= |s| && r == s[i..i + |r|] && AllSpace(s[..i]) && AllSpace(s[i + |r|..])
  {
  }

  /** A text with no outer whitespace is its own strip. */
  lemma {:induction false} StripTrimmed(s: string)
    requires Trimmed(s)
    ensures Strip(s) == s
  {
    if s != [] {
      assert SpaceRunEnd(s, 0) == 0;
      assert TrimEnd(s, 0, |s|) == |s|;
    }
  }

  /** A whitespace run that ends at `e` is the run `SpaceRunEnd` finds. */
  lemma {:induction false} SpaceRunEndIs(s: string, p: nat, e: nat)
    requires p <= e <= |s|
    requires forall k :: p <= k < e ==> IsSpace(s[k])
    requires e == |s| || !IsSpace(s[e])
    ensures SpaceRunEnd(s, p) == e
    decreases e - p
  {
    if p < e {
      SpaceRunEndIs(s, p + 1, e);
    }
  }

  /** A word-character run that ends at `e` is the run `WordRunEnd` finds. */
  lemma {:induction false} WordRunEndIs(s: string, p: nat, e: nat)
    requires p <= e <= |s|
    requires forall k :: p <= k < e ==> IsWordChar(s[k])
    requires e == |s| || !IsWordChar(s[e])
    ensures WordRunEnd(s, p) == e
    decreases e - p
  {
    if p < e {
      WordRunEndIs(s, p + 1, e);
    }
  }

  /** A digit run that ends at `e` is the run `DigitRunEnd` finds. */
  lemma {:induction false} DigitRunEndIs(s: string, p: nat, e: nat)
    requires p <= e <= |s|
    requires forall k :: p <= k < e ==> IsDigit(s[k])
    requires e == |s| || !IsDigit(s[e])
    ensures DigitRunEnd(s, p) == e
    decreases e - p
  {
    if p < e {
      DigitRunEndIs(s, p + 1, e);
    }
  }

  /** Trailing whitespace that starts at `j` is what `TrimEnd` drops. */
  lemma {:induction false} TrimEndIs(s: string, lo: nat, j: nat, hi: nat)
    requires lo <= j <= hi <= |s|
    requires forall k :: j <= k < hi ==> IsSpace(s[k])
    requires j == lo || !IsSpace(s[j - 1])
    ensures TrimEnd(s, lo, hi) == j
    decreases hi
  {
    if j < hi {
      TrimEndIs(s, lo, j, hi - 1);
    }
  }

  /** Whitespace, a text with no outer whitespace, whitespace: stripping leaves the middle. */
  lemma StripIs(w1: string, m: string, w2: string)
    requires AllSpace(w1) && AllSpace(w2)
    requires Trimmed(m)
    ensures Strip(w1 + m + w2) == m
  {
    var t := w1 + m + w2;
    if m == [] {
      SpaceRunEndIs(t, 0, |t|);
    } else {
      SpaceRunEndIs(t, 0, |w1|);
      TrimEndIs(t, |w1|, |w1| + |m|, |t|);
      assert t[|w1|..|w1| + |m|] == m;
    }
  }

  /** A whitespace run through `[p, j)` continues from `j`. */
  lemma {:induction false} SpaceRunSkip(s: string, p: nat, j: nat)
    requires p <= j <= |s|
    requires forall k :: p <= k < j ==> IsSpace(s[k])
    ensures SpaceRunEnd(s, p) == SpaceRunEnd(s, j)
    decreases j - p
  {
    if p < j {
      SpaceRunSkip(s, p + 1, j);
    }
  }

  /** Dropping leading whitespace does not change the strip. */
  lemma StripAfterSpaces(t: string, j: nat)
    requires j <= |t| && AllSpace(t[..j])
    ensures Strip(t[j..]) == Strip(t)
  {
    var m := Strip(t);
    var i := SpaceRunEnd(t, 0);
    StripParts(t);
    PrefixSpaces(t, j);
    SpaceRunSkip(t, 0, j);
    SliceSpaces(t, j, i);
    SplitAt(t, j, i, i + |m|);
    StripIs(t[j..i], m, t[i + |m|..]);
  }

  lemma PrefixSpaces(t: string, j: nat)
    requires j <= |t| && AllSpace(t[..j])
    ensures forall k :: 0 <= k < j ==> IsSpace(t[k])
  {
    forall k | 0 <= k < j ensures IsSpace(t[k]) {
      assert t[..j][k] == t[k];
    }
  }

  lemma SliceSpaces(t: string, j: nat, i: nat)
    requires j <= i <= |t| && forall k :: j <= k < i ==> IsSpace(t[k])
    ensures AllSpace(t[j..i])
  {
    forall k | 0 <= k < i - j ensures IsSpace(t[j..i][k]) {
      assert t[j..i][k] == t[j + k];
    }
  }

  lemma SplitAt(t: string, j: nat, i: nat, l: nat)
    requires j <= i <= l <= |t|
    ensures t[j..] == t[j..i] + t[i..l] + t[l..]
  {
  }

  /** Stripping twice is stripping once. */
  lemma StripIdempotent(s: string)
    ensures Strip(Strip(s)) == Strip(s)
  {
    StripTrimmed(Strip(s));
  }
}
