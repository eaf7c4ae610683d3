/**
 * The fixed regular expressions of the translator, each written out as a
 * hand-made matcher, and the left-to-right substitution that `re.sub` and
 * `str.replace` perform with them.
 *
 * `MatchAt(pat, s, p)` answers: does the pattern match when the search is
 * attempted at position `p` of `s`, and if so, how many characters does the
 * match consume and what text replaces them?  Every pattern here consumes at
 * least one character, so the empty-match rules of `re.sub` never apply.
 */
module Patterns {
  import opened Text

  type Pos = n: nat | 0 < n witness 1

  /** A match: the number of characters it consumes and its replacement text. */
  datatype Hit = Hit(len: Pos, text: string)

  /** The patterns of lexer.py, with their replacement templates. */
  datatype Pattern =
      /** A fixed text replaced by a fixed text (`str.replace`, and the regexes without metacharacters). */
    | Literal(needle: string, rep: string)
      /** `log(` + shortest group + `)` + any one character + `end`, printed with a trailing space. */
    | LogEnd
      /** `log(` + shortest group + `)`, printed with `endl`. */
    | Log
      /** `put('` + shortest group + `') as ` + word + space + word: a prompt, then a read into the second word. */
    | Put
      /** A whole word (word boundaries on both sides). */
    | Word(word: string, rep: string)
      /** `wait(` + one digit + `)`. */
    | Wait
      /** A word, optional whitespace, then `+= 1` or `-= 1` (op is `+` or `-`). */
    | Bump(op: char, suffix: string)
      /** A whole-word keyword, whitespace, the shortest condition, optional whitespace, `{`. */
    | Header(keyword: string, opening: string)
      /** The whole word `else`, optional whitespace, `{`. */
    | ElseOpen
      /** A run of whitespace. */
    | Spaces
      /** A token with the whitespace on both sides of it. */
    | Tight(token: char)
      /** `#include <` up to the first `>` on the line. */
    | Include
      /** `<` up to the first `>` on the line: an interpolation span. */
    | Span

  /** Where the shortest group of a `log(...).end` call closes: a `)`, any non-newline character, `end`. */
  function LogEndClose(s: string, q: nat): (r: Option<nat>)
    ensures r.Some? ==> q <= r.value && r.value + 5 <= |s|
    decreases |s| - q
  {
    if q >= |s| || s[q] == '\n' then None
    else if s[q] == ')' && q + 1 < |s| && s[q + 1] != '\n' && At(s, q + 2, "end") then Some(q)
    else LogEndClose(s, q + 1)
  }

  /** The tail `') as ` + word + space + word of a `put` call starting at `k`: its end and the second word. */
  function PutTail(s: string, k: nat): (r: Option<(nat, string)>)
    ensures r.Some? ==> k < r.value.0 <= |s|
  {
    if !At(s, k, "') as ") then None
    else
      var e1 := WordRunEnd(s, k + 6);
      if e1 == k + 6 || e1 == |s| || s[e1] != ' ' then None
      else
        var e2 := WordRunEnd(s, e1 + 1);
        if e2 == e1 + 1 then None else Some((e2, s[e1 + 1..e2]))
  }

  /** The shortest prompt group of a `put` call: where its tail starts, where the match ends, the variable. */
  function PutClose(s: string, q: nat): (r: Option<(nat, nat, string)>)
    ensures r.Some? ==> q <= r.value.0 < r.value.1 <= |s|
    decreases |s| - q
  {
    if q >= |s| || s[q] == '\n' then None
    else match PutTail(s, q)
      case Some(t) => Some((q, t.0, t.1))
      case None => PutClose(s, q + 1)
  }

  /** The first `c` at or after `q`, across lines. */
  function FindChar(s: string, q: nat, c: char): (r: Option<nat>)
    ensures r.Some? ==> q <= r.value < |s| && s[r.value] == c
    ensures r.Some? ==> forall k :: q <= k < r.value ==> s[k] != c
    decreases |s| - q
  {
    if q >= |s| then None
    else if s[q] == c then Some(q)
    else FindChar(s, q + 1, c)
  }

  /** The first `c` from `q` on is where the scan stops. */
  lemma {:induction false} FindCharIs(s: string, q0: nat, c: char, q: nat)
    requires q0 <= q < |s| && s[q] == c
    requires forall k :: q0 <= k < q ==> s[k] != c
    ensures FindChar(s, q0, c) == Some(q)
    decreases q - q0
  {
    if q0 < q {
      FindCharIs(s, q0 + 1, c, q);
    }
  }

  /** Patterns whose replacement is never longer than what they consume. */
  predicate Shrinking(pat: Pattern) {
    match pat
    case Spaces => true
    case Tight(_) => true
    case Literal(needle, rep) => |rep| <= |needle|
    case _ => false
  }

  /** A fixed text. */
  function MatchLiteral(needle: string, rep: string, s: string, p: nat): (r: Option<Hit>)
    ensures r.Some? ==> p + r.value.len <= |s| && |r.value.text| == |rep| && r.value.len == |needle|
  {
    if |needle| > 0 && At(s, p, needle) then Some(Hit(|needle|, rep)) else None
  }

  /** `log\((.*?)\).end` with the replacement `cout << \1 << " ";` */
  function MatchLogEnd(s: string, p: nat): (r: Option<Hit>)
    ensures r.Some? ==> p + r.value.len <= |s|
  {
    if !At(s, p, "log(") then None
    else match LogEndClose(s, p + 4)
      case Some(q) => Some(Hit(q + 5 - p, "cout << " + s[p + 4..q] + " << \" \";"))
      case None => None
  }

  /** `log\((.*?)\)` with the replacement `cout << \1 << endl;` */
  function MatchLog(s: string, p: nat): (r: Option<Hit>)
    ensures r.Some? ==> p + r.value.len <= |s|
  {
    if !At(s, p, "log(") then None
    else match FindOnLine(s, p + 4, ')')
      case Some(q) => Some(Hit(q + 1 - p, "cout << " + s[p + 4..q] + " << endl;"))
      case None => None
  }

  /** `put\('(.*?)'\) as (\w+) (\w+)`: a prompt, then a read into the second word. */
  function MatchPut(s: string, p: nat): (r: Option<Hit>)
    ensures r.Some? ==> p + r.value.len <= |s|
  {
    if !At(s, p, "put('") then None
    else match PutClose(s, p + 5)
      case Some(m) => Some(Hit(m.1 - p, "cout << \"" + s[p + 5..m.0] + "\";\n    cin >> " + m.2 + ";"))
      case None => None
  }

  /** `\bword\b` */
  function MatchWord(word: string, rep: string, s: string, p: nat): (r: Option<Hit>)
    ensures r.Some? ==> p + r.value.len <= |s|
  {
    if |word| > 0 && WordBoundary(s, p) && At(s, p, word) && WordBoundary(s, p + |word|)
    then Some(Hit(|word|, rep)) else None
  }

  /** `wait\((\d)\)` with the replacement `sleep_for(seconds(\1));` */
  function MatchWait(s: string, p: nat): (r: Option<Hit>)
    ensures r.Some? ==> p + r.value.len <= |s|
  {
    if At(s, p, "wait(") && p + 7 <= |s| && IsDigit(s[p + 5]) && s[p + 6] == ')'
    then Some(Hit(7, "sleep_for(seconds(" + [s[p + 5]] + "));")) else None
  }

  /** `(\w+)\s*\+\= 1` (or `-`) with the replacement `\1` + suffix. */
  function MatchBump(op: char, suffix: string, s: string, p: nat): (r: Option<Hit>)
    requires p < |s|
    ensures r.Some? ==> p + r.value.len <= |s|
  {
    if !IsWordChar(s[p]) then None
    else
      var e := WordRunEnd(s, p);
      var k := SpaceRunEnd(s, e);
      if At(s, k, [op] + "= 1") then Some(Hit(k + 4 - p, s[p..e] + suffix)) else None
  }

  /** `\bkeyword\s+(.*?)\s*{` with the replacement opening + `\1) {`. */
  function MatchHeader(keyword: string, opening: string, s: string, p: nat): (r: Option<Hit>)
    ensures r.Some? ==> p + r.value.len <= |s|
  {
    var n := |keyword|;
    if n == 0 || !WordBoundary(s, p) || !At(s, p, keyword) || p + n >= |s| || !IsSpace(s[p + n]) then None
    else
      var e := SpaceRunEnd(s, p + n);
      match FindChar(s, e, '{')
      case None => None
      case Some(f) =>
        var q := TrimEnd(s, e, f);
        if '\n' in s[e..q] then None else Some(Hit(f + 1 - p, opening + s[e..q] + ") {"))
  }

  /** `\belse\s*{` with the replacement `else {`. */
  function MatchElse(s: string, p: nat): (r: Option<Hit>)
    ensures r.Some? ==> p + r.value.len <= |s|
  {
    if !WordBoundary(s, p) || !At(s, p, "else") then None
    else
      var k := SpaceRunEnd(s, p + 4);
      if k < |s| && s[k] == '{' then Some(Hit(k + 1 - p, "else {")) else None
  }

  /** `\s+` with the replacement ` `. */
  function MatchSpaces(s: string, p: nat): (r: Option<Hit>)
    requires p < |s|
    ensures r.Some? ==> p + r.value.len <= |s| && |r.value.text| <= r.value.len
  {
    if IsSpace(s[p]) then Some(Hit(SpaceRunEnd(s, p) - p, " ")) else None
  }

  /** `\s*c\s*` with the replacement `c`. */
  function MatchTight(c: char, s: string, p: nat): (r: Option<Hit>)
    requires p <= |s|
    ensures r.Some? ==> p + r.value.len <= |s| && |r.value.text| <= r.value.len
  {
    var k := SpaceRunEnd(s, p);
    if k < |s| && s[k] == c then Some(Hit(SpaceRunEnd(s, k + 1) - p, [c])) else None
  }

  /** `(#include <.*?>)` with the replacement `\1\n`. */
  function MatchInclude(s: string, p: nat): (r: Option<Hit>)
    ensures r.Some? ==> p + r.value.len <= |s|
  {
    if !At(s, p, "#include <") then None
    else match FindOnLine(s, p + 10, '>')
      case Some(q) => Some(Hit(q + 1 - p, s[p..q + 1] + "\n"))
      case None => None
  }

  /** `<(.*?)>`: an interpolation span, replaced by `" << \1 << "`. */
  function MatchSpan(s: string, p: nat): (r: Option<Hit>)
    requires p < |s|
    ensures r.Some? ==> p + r.value.len <= |s|
  {
    if s[p] != '<' then None
    else match FindOnLine(s, p + 1, '>')
      case Some(q) => Some(Hit(q + 1 - p, "\" << " + s[p + 1..q] + " << \""))
      case None => None
  }

  /** The match, if any, of `pat` attempted at position `p` of `s`. */
  function MatchAt(pat: Pattern, s: string, p: nat): (r: Option<Hit>)
    requires p < |s|
    ensures r.Some? ==> p + r.value.len <= |s|
    ensures r.Some? && Shrinking(pat) ==> |r.value.text| <= r.value.len
  {
    match pat
    case Literal(needle, rep) => MatchLiteral(needle, rep, s, p)
    case LogEnd => MatchLogEnd(s, p)
    case Log => MatchLog(s, p)
    case Put => MatchPut(s, p)
    case Word(word, rep) => MatchWord(word, rep, s, p)
    case Wait => MatchWait(s, p)
    case Bump(op, suffix) => MatchBump(op, suffix, s, p)
    case Header(keyword, opening) => MatchHeader(keyword, opening, s, p)
    case ElseOpen => MatchElse(s, p)
    case Spaces => MatchSpaces(s, p)
    case Tight(token) => MatchTight(token, s, p)
    case Include => MatchInclude(s, p)
    case Span => MatchSpan(s, p)
  }

  /** A matcher for `s`: at each position, no match or a match that ends inside `s`. */
  ghost predicate Fits(m: nat -> Option<Hit>, s: string) {
    forall q :: 0 <= q < |s| && m(q).Some? ==> q + m(q).value.len <= |s|
  }

  /** Substitution driven by a matcher, from position `p` on: leftmost, non-overlapping, left to right. */
  function Substitute(m: nat -> Option<Hit>, s: string, p: nat): string
    requires p <= |s| && Fits(m, s)
    decreases |s| - p
  {
    if p == |s| then []
    else match m(p)
      case Some(h) => h.text + Substitute(m, s, p + h.len)
      case None => [s[p]] + Substitute(m, s, p + 1)
  }

  /** The matcher of a pattern over `s`. */
  function Matcher(pat: Pattern, s: string): (m: nat -> Option<Hit>)
    ensures Fits(m, s)
  {
    (q: nat) => if q < |s| then MatchAt(pat, s, q) else None
  }

  /** `re.sub` from position `p` on. */
  function SubFrom(s: string, pat: Pattern, p: nat): string
    requires p <= |s|
  {
    Substitute(Matcher(pat, s), s, p)
  }

  /** One step of `SubFrom`: a match is replaced and skipped, anything else is copied. */
  lemma SubFromStep(s: string, pat: Pattern, p: nat)
    requires p < |s|
    ensures MatchAt(pat, s, p).Some? ==>
      var h := MatchAt(pat, s, p).value;
      SubFrom(s, pat, p) == h.text + SubFrom(s, pat, p + h.len)
    ensures MatchAt(pat, s, p).None? ==> SubFrom(s, pat, p) == [s[p]] + SubFrom(s, pat, p + 1)
  {
  }

  function Sub(s: string, pat: Pattern): string {
    SubFrom(s, pat, 0)
  }

  /** `str.replace` with a non-empty needle. */
  function ReplaceAll(s: string, needle: string, rep: string): string
    requires needle != []
  {
    Sub(s, Literal(needle, rep))
  }

  /** Each pattern applied in turn to the previous pattern's output. */
  function ApplyAll(pats: seq<Pattern>, s: string): string
    decreases |pats|
  {
    if pats == [] then s else ApplyAll(pats[1..], Sub(s, pats[0]))
  }

  /** The table applied by a loop, one pattern after the other. */
  method SubEach(pats: seq<Pattern>, s: string) returns (out: string)
    ensures out == ApplyAll(pats, s)
  {
    out := s;
    for j := 0 to |pats|
      invariant ApplyAll(pats[j..], out) == ApplyAll(pats, s)
    {
      assert pats[j..][1..] == pats[j + 1..];
      out := Sub(out, pats[j]);
    }
    assert pats[|pats|..] == [];
  }

  /** `re.search`: the pattern matches somewhere at or after `p`. */
  function Search(s: string, pat: Pattern, p: nat): (r: bool)
    requires p <= |s|
    ensures r <==> exists q :: p <= q < |s| && MatchAt(pat, s, q).Some?
    decreases |s| - p
  {
    p < |s| && (MatchAt(pat, s, p).Some? || Search(s, pat, p + 1))
  }

  // ---------------------------------------------------------------------------
  // Laws of the substitution

  /** Positions where nothing matches are copied through unchanged. */
  lemma {:induction false} SkipUnmatched(m: nat -> Option<Hit>, s: string, p: nat, i: nat)
    requires p <= i <= |s| && Fits(m, s)
    requires forall q :: p <= q < i ==> m(q).None?
    ensures Substitute(m, s, p) == s[p..i] + Substitute(m, s, i)
    decreases i - p
  {
    if p < i {
      SkipUnmatched(m, s, p + 1, i);
      assert m(p).None?;
      assert Substitute(m, s, p) == [s[p]] + Substitute(m, s, p + 1);
      assert s[p..i] == [s[p]] + s[p + 1..i];
    }
  }

  lemma SubFromSkip(s: string, pat: Pattern, p: nat, i: nat)
    requires p <= i <= |s|
    requires forall q :: p <= q < i ==> MatchAt(pat, s, q).None?
    ensures SubFrom(s, pat, p) == s[p..i] + SubFrom(s, pat, i)
  {
    SkipUnmatched(Matcher(pat, s), s, p, i);
  }

  /** A text in which the pattern never matches is returned unchanged. */
  lemma SubNoMatch(s: string, pat: Pattern)
    requires forall q :: 0 <= q < |s| ==> MatchAt(pat, s, q).None?
    ensures Sub(s, pat) == s
  {
    SubFromSkip(s, pat, 0, |s|);
  }

  /** Replacements never longer than what they replace never lengthen the text. */
  lemma {:induction false} SubstituteShrinks(m: nat -> Option<Hit>, s: string, p: nat)
    requires p <= |s| && Fits(m, s)
    requires forall q :: 0 <= q < |s| && m(q).Some? ==> |m(q).value.text| <= m(q).value.len
    ensures |Substitute(m, s, p)| <= |s| - p
    decreases |s| - p
  {
    if p < |s| {
      match m(p)
      case Some(h) => SubstituteShrinks(m, s, p + h.len);
      case None => SubstituteShrinks(m, s, p + 1);
    }
  }

  lemma SubFromShrinks(s: string, pat: Pattern, p: nat)
    requires p <= |s|
    requires Shrinking(pat)
    ensures |SubFrom(s, pat, p)| <= |s| - p
  {
    SubstituteShrinks(Matcher(pat, s), s, p);
  }

  /**
   * When every occurrence of `c` starts a match and no replacement contains `c`,
   * the output contains no `c`.
   */
  lemma {:induction false} SubstituteRemoves(m: nat -> Option<Hit>, s: string, p: nat, c: char)
    requires p <= |s| && Fits(m, s)
    requires forall q :: p <= q < |s| && s[q] == c ==> m(q).Some?
    requires forall q :: p <= q < |s| && m(q).Some? ==> c !in m(q).value.text
    ensures c !in Substitute(m, s, p)
    decreases |s| - p
  {
    if p < |s| {
      match m(p)
      case Some(h) => SubstituteRemoves(m, s, p + h.len, c);
      case None => SubstituteRemoves(m, s, p + 1, c);
    }
  }

  lemma SubFromRemoves(s: string, pat: Pattern, p: nat, c: char)
    requires p <= |s|
    requires forall q :: p <= q < |s| && s[q] == c ==> MatchAt(pat, s, q).Some?
    requires forall q :: p <= q < |s| && MatchAt(pat, s, q).Some? ==> c !in MatchAt(pat, s, q).value.text
    ensures c !in SubFrom(s, pat, p)
  {
    SubstituteRemoves(Matcher(pat, s), s, p, c);
  }

  /** `str.replace` of a character by a text without it leaves no such character. */
  lemma ReplaceAllRemoves(s: string, c: char, rep: string)
    requires c !in rep
    ensures c !in ReplaceAll(s, [c], rep)
  {
    SubFromRemoves(s, Literal([c], rep), 0, c);
  }

  /** `str.replace` never creates a character that is in neither the text nor the replacement. */
  lemma ReplaceAllKeepsOut(s: string, needle: string, rep: string, c: char)
    requires needle != [] && c !in s && c !in rep
    ensures c !in ReplaceAll(s, needle, rep)
  {
    SubFromRemoves(s, Literal(needle, rep), 0, c);
  }

  /** Applying two lists of patterns in turn is applying their concatenation. */
  lemma {:induction false} ApplyAllAppend(a: seq<Pattern>, b: seq<Pattern>, s: string)
    ensures ApplyAll(a + b, s) == ApplyAll(b, ApplyAll(a, s))
    decreases |a|
  {
    if a == [] {
      assert a + b == b;
    } else {
      assert (a + b)[0] == a[0] && (a + b)[1..] == a[1..] + b;
      ApplyAllAppend(a[1..], b, Sub(s, a[0]));
    }
  }

  /** Patterns that each leave `s` unchanged leave it unchanged when applied in turn. */
  lemma {:induction false} ApplyAllFixed(pats: seq<Pattern>, s: string)
    requires forall pat :: pat in pats ==> Sub(s, pat) == s
    ensures ApplyAll(pats, s) == s
    decreases |pats|
  {
    if pats != [] {
      assert pats[0] in pats;
      assert forall pat :: pat in pats[1..] ==> pat in pats;
      ApplyAllFixed(pats[1..], s);
    }
  }

  /** A text every match of the pattern starts with (empty for the patterns that start with a class). */
  function Prefix(pat: Pattern): string {
    match pat
    case Literal(needle, _) => needle
    case LogEnd => "log("
    case Log => "log("
    case Put => "put('"
    case Word(word, _) => word
    case Wait => "wait("
    case Header(keyword, _) => keyword
    case ElseOpen => "else"
    case Include => "#include <"
    case Span => "<"
    case _ => ""
  }

  /** A match starts with the pattern's prefix. */
  lemma PrefixMatch(pat: Pattern, s: string, p: nat)
    requires p < |s| && MatchAt(pat, s, p).Some?
    ensures At(s, p, Prefix(pat))
    ensures forall k :: 0 <= k < |Prefix(pat)| ==> s[p + k] == Prefix(pat)[k]
  {
    var t := Prefix(pat);
    assert At(s, p, t) by {
      if pat.Span? {
        assert s[p..p + 1] == [s[p]];
      }
    }
    forall k | 0 <= k < |t| ensures s[p + k] == t[k] {
      assert s[p..p + |t|][k] == s[p + k];
    }
  }

  /** A pattern one of whose prefix characters the text does not contain changes nothing. */
  lemma PrefixAbsent(s: string, pat: Pattern, k: nat)
    requires k < |Prefix(pat)| && Prefix(pat)[k] !in s
    ensures Sub(s, pat) == s
  {
    forall q | 0 <= q < |s| ensures MatchAt(pat, s, q).None? {
      if MatchAt(pat, s, q).Some? {
        PrefixMatch(pat, s, q);
      }
    }
    SubNoMatch(s, pat);
  }

  /** `re.search` finds no such pattern either. */
  lemma {:induction false} SearchAbsent(s: string, pat: Pattern, k: nat, p: nat)
    requires k < |Prefix(pat)| && Prefix(pat)[k] !in s && p <= |s|
    ensures !Search(s, pat, p)
    decreases |s| - p
  {
    if p < |s| {
      if MatchAt(pat, s, p).Some? {
        PrefixMatch(pat, s, p);
      }
      SearchAbsent(s, pat, k, p + 1);
    }
  }

  /** An increment rule whose operator the text does not contain changes nothing. */
  lemma BumpAbsent(s: string, op: char, suffix: string)
    requires op !in s
    ensures Sub(s, Bump(op, suffix)) == s
  {
    forall q | 0 <= q < |s| ensures MatchAt(Bump(op, suffix), s, q).None? {
      if IsWordChar(s[q]) {
        var k := SpaceRunEnd(s, WordRunEnd(s, q));
        if k < |s| {
          NotAt(s, k, [op] + "= 1", 0);
        }
      }
    }
    SubNoMatch(s, Bump(op, suffix));
  }

  /** `str.replace` on a text where the needle occurs nowhere returns it unchanged. */
  lemma ReplaceAbsent(s: string, needle: string, rep: string)
    requires needle != [] && forall q :: 0 <= q < |s| ==> !At(s, q, needle)
    ensures ReplaceAll(s, needle, rep) == s
  {
    SubNoMatch(s, Literal(needle, rep));
  }

  /**
   * `str.replace` on `a + needle + b`, where neither `a` nor `b` holds the
   * needle's first character, replaces exactly that one occurrence.
   */
  lemma ReplaceOnce(s: string, a: string, needle: string, b: string, rep: string)
    requires needle != [] && s == a + needle + b && needle[0] !in a && needle[0] !in b
    ensures ReplaceAll(s, needle, rep) == a + rep + b
  {
    var e := |a| + |needle|;
    assert s[..|a|] == a && s[|a|..e] == needle && s[e..] == b;
    ReplaceSplit(s, |a|, needle, rep);
  }

  /** The same on positions: the one occurrence is at `i`. */
  lemma ReplaceSplit(s: string, i: nat, needle: string, rep: string)
    requires needle != [] && i + |needle| <= |s| && s[i..i + |needle|] == needle
    requires needle[0] !in s[..i] && needle[0] !in s[i + |needle|..]
    ensures ReplaceAll(s, needle, rep) == s[..i] + rep + s[i + |needle|..]
  {
    var pat, e := Literal(needle, rep), i + |needle|;
    var front, back := s[..i], s[e..];
    LeadAbsentIn(s, back, e, needle, rep);
    assert SubFrom(s, pat, |s|) == [];
    assert SubFrom(s, pat, e) == back;
    LiteralHit(s, i, needle, rep);
    LeadAbsentIn(s, front, 0, needle, rep);
    assert SubFrom(s, pat, 0) == front + (rep + back);
  }

  /** An occurrence of the needle at `i` is replaced, and the scan resumes after it. */
  lemma LiteralHit(s: string, i: nat, needle: string, rep: string)
    requires needle != [] && i + |needle| <= |s| && s[i..i + |needle|] == needle
    ensures SubFrom(s, Literal(needle, rep), i) == rep + SubFrom(s, Literal(needle, rep), i + |needle|)
  {
    SubFromStep(s, Literal(needle, rep), i);
  }

  /** A stretch `t` of `s` from `p` without the needle's first character is copied through by `str.replace`. */
  lemma LeadAbsentIn(s: string, t: string, p: nat, needle: string, rep: string)
    requires needle != [] && p + |t| <= |s| && s[p..p + |t|] == t && needle[0] !in t
    ensures SubFrom(s, Literal(needle, rep), p) == t + SubFrom(s, Literal(needle, rep), p + |t|)
  {
    forall q | p <= q < p + |t| ensures MatchAt(Literal(needle, rep), s, q).None? {
      assert s[q] == t[q - p];
      NotAt(s, q, needle, 0);
    }
    SubFromSkip(s, Literal(needle, rep), p, p + |t|);
  }
}
