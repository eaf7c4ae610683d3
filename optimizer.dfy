/**
 * The optimizer of lexer.py (`optimize_cpp_code`): an ordered list of
 * whole-text substitutions, each applied to the output of the one before.
 */
module Optimizer {
  import opened Text
  import opened Patterns

  /** The transformations, in the order they are applied. */
  const TRANSFORMATIONS: seq<Pattern> := [
    Spaces,
    Tight('{'), Tight('}'), Tight('('), Tight(')'),
    Tight(';'),
    Literal("\"\" << ", ""), Literal("\"\" >> ", ""),
    Literal(" << ", "<<"), Literal(" >> ", ">>"),
    Literal(" = ", "="), Literal(" < ", "<"), Literal(" > ", ">"),
    Include
  ]

  /** `optimize_cpp_code` */
  function Optimize(code: string): string {
    ApplyAll(TRANSFORMATIONS, code)
  }

  // ---------------------------------------------------------------------------
  // Step 1: whitespace runs collapse to one space

  /** Every whitespace character is a space and no two whitespace characters are adjacent. */
  predicate SingleSpaced(t: string) {
    forall i :: 0 <= i < |t| && IsSpace(t[i]) ==> t[i] == ' ' && (i + 1 < |t| ==> !IsSpace(t[i + 1]))
  }

  lemma {:induction false} CollapseFrom(s: string, p: nat)
    requires p <= |s|
    ensures SingleSpaced(SubFrom(s, Spaces, p))
    ensures p < |s| && !IsSpace(s[p]) ==> SubFrom(s, Spaces, p) != [] && SubFrom(s, Spaces, p)[0] == s[p]
    decreases |s| - p
  {
    if p < |s| {
      match MatchAt(Spaces, s, p)
      case Some(h) =>
        var e := p + h.len;
        CollapseFrom(s, e);
        var rest := SubFrom(s, Spaces, e);
        assert SubFrom(s, Spaces, p) == " " + rest;
        assert e == |s| || !IsSpace(s[e]);
      case None =>
        CollapseFrom(s, p + 1);
        assert SubFrom(s, Spaces, p) == [s[p]] + SubFrom(s, Spaces, p + 1);
    }
  }

  /** After the first step the text is single-spaced. */
  lemma CollapseSpaces(s: string)
    ensures SingleSpaced(Sub(s, Spaces))
  {
    CollapseFrom(s, 0);
  }

  // ---------------------------------------------------------------------------
  // Steps 2 to 6: whitespace around `{`, `}`, `(`, `)` and `;` is removed

  /** `r` is `s` with some of its whitespace characters deleted and nothing else changed. */
  predicate SpaceErased(s: string, r: string)
    decreases |s|
  {
    if s == [] then r == []
    else (r != [] && r[0] == s[0] && SpaceErased(s[1..], r[1..])) || (IsSpace(s[0]) && SpaceErased(s[1..], r))
  }

  lemma {:induction false} ErasedNothing(t: string)
    ensures SpaceErased(t, t)
    decreases |t|
  {
    if t != [] {
      ErasedNothing(t[1..]);
    }
  }

  lemma {:induction false} ErasedSpaces(w: string, x: string, y: string)
    requires AllSpace(w) && SpaceErased(x, y)
    ensures SpaceErased(w + x, y)
    decreases |w|
  {
    if w == [] {
      assert w + x == x;
    } else {
      ErasedSpaces(w[1..], x, y);
      assert (w + x)[0] == w[0] && (w + x)[1..] == w[1..] + x;
    }
  }

  lemma {:induction false} ErasedConcat(a: string, b: string, c: string, d: string)
    requires SpaceErased(a, b) && SpaceErased(c, d)
    ensures SpaceErased(a + c, b + d)
    decreases |a|
  {
    if a == [] {
      assert a + c == c && b + d == d;
    } else {
      assert (a + c)[0] == a[0] && (a + c)[1..] == a[1..] + c;
      if b != [] && b[0] == a[0] && SpaceErased(a[1..], b[1..]) {
        ErasedConcat(a[1..], b[1..], c, d);
        assert (b + d)[0] == b[0] && (b + d)[1..] == b[1..] + d;
      } else {
        ErasedConcat(a[1..], b, c, d);
      }
    }
  }

  /** No whitespace right before or right after any `c`. */
  predicate NoSpaceAround(t: string, c: char) {
    forall i :: 0 <= i < |t| && t[i] == c ==> (0 < i ==> !IsSpace(t[i - 1])) && (i + 1 < |t| ==> !IsSpace(t[i + 1]))
  }

  /** Whitespace, the token, whitespace: erasing the whitespace leaves the token. */
  lemma ErasedAroundToken(w1: string, c: char, w2: string)
    requires AllSpace(w1) && AllSpace(w2)
    ensures SpaceErased(w1 + [c] + w2, [c])
  {
    ErasedNothing([c]);
    ErasedNothing([]);
    ErasedSpaces(w2, [], []);
    assert w2 + [] == w2;
    ErasedConcat([c], [c], w2, []);
    assert [c] + [] == [c];
    ErasedSpaces(w1, [c] + w2, [c]);
    assert w1 + [c] + w2 == w1 + ([c] + w2);
  }

  lemma AroundCons(x: char, rest: string, c: char)
    requires NoSpaceAround(rest, c)
    requires x == c ==> rest == [] || !IsSpace(rest[0])
    requires IsSpace(x) ==> rest == [] || rest[0] != c
    ensures NoSpaceAround([x] + rest, c)
  {
    var t := [x] + rest;
    forall i | 0 <= i < |t| && t[i] == c
      ensures (0 < i ==> !IsSpace(t[i - 1])) && (i + 1 < |t| ==> !IsSpace(t[i + 1]))
    {
      if i > 0 {
        assert t[i] == rest[i - 1];
      }
    }
  }

  /** What the strip step for `c` guarantees of its output from position `p` on. */
  predicate TightFacts(s: string, c: char, p: nat)
    requires p <= |s|
  {
    var r := SubFrom(s, Tight(c), p);
    NoSpaceAround(r, c) && SpaceErased(s[p..], r) &&
    (p < |s| ==> r != [] && (r[0] == c <==> MatchAt(Tight(c), s, p).Some?) && (IsSpace(r[0]) ==> IsSpace(s[p])))
  }

  /** A match of the strip step at `p`: whitespace, the token at `k`, whitespace up to `e`. */
  lemma TightMatch(s: string, c: char, p: nat) returns (k: nat, e: nat)
    requires p < |s| && MatchAt(Tight(c), s, p).Some?
    ensures p <= k < e <= |s| && s[k] == c && k == SpaceRunEnd(s, p) && e == SpaceRunEnd(s, k + 1)
    ensures MatchAt(Tight(c), s, p).value == Hit(e - p, [c])
    ensures AllSpace(s[p..k]) && AllSpace(s[k + 1..e])
  {
    k := SpaceRunEnd(s, p);
    e := SpaceRunEnd(s, k + 1);
  }

  lemma TightHit(s: string, c: char, p: nat)
    requires p < |s| && !IsSpace(c) && MatchAt(Tight(c), s, p).Some?
    requires TightFacts(s, c, p + MatchAt(Tight(c), s, p).value.len)
    ensures TightFacts(s, c, p)
  {
    var pat := Tight(c);
    var k, e := TightMatch(s, c, p);
    var rest := SubFrom(s, pat, e);
    var r := SubFrom(s, pat, p);
    SubFromStep(s, pat, p);
    assert r == [c] + rest;
    assert rest != [] ==> !IsSpace(rest[0]);
    AroundCons(c, rest, c);
    TightErased(s, c, p, k, e, rest);
  }

  /** The spaces around the token are erased, and what follows the match is erased as before. */
  lemma TightErased(s: string, c: char, p: nat, k: nat, e: nat, rest: string)
    requires p <= k < e <= |s| && s[k] == c
    requires AllSpace(s[p..k]) && AllSpace(s[k + 1..e])
    requires SpaceErased(s[e..], rest)
    ensures SpaceErased(s[p..], [c] + rest)
  {
    assert s[p..e] == s[p..k] + [c] + s[k + 1..e];
    ErasedAroundToken(s[p..k], c, s[k + 1..e]);
    assert s[p..] == s[p..e] + s[e..];
    ErasedConcat(s[p..e], [c], s[e..], rest);
  }

  lemma TightMiss(s: string, c: char, p: nat)
    requires p < |s| && !IsSpace(c) && MatchAt(Tight(c), s, p).None?
    requires TightFacts(s, c, p + 1)
    ensures TightFacts(s, c, p)
  {
    var pat := Tight(c);
    var rest := SubFrom(s, pat, p + 1);
    assert SubFrom(s, pat, p) == [s[p]] + rest;
    if IsSpace(s[p]) && p + 1 < |s| {
      assert SpaceRunEnd(s, p) == SpaceRunEnd(s, p + 1);
    }
    AroundCons(s[p], rest, c);
    assert s[p..] == [s[p]] + s[p + 1..];
    ErasedNothing([s[p]]);
    ErasedConcat([s[p]], [s[p]], s[p + 1..], rest);
  }

  lemma {:induction false} TightFrom(s: string, c: char, p: nat)
    requires p <= |s| && !IsSpace(c)
    ensures TightFacts(s, c, p)
    decreases |s| - p
  {
    if p == |s| {
      ErasedNothing([]);
      assert s[p..] == [];
    } else {
      match MatchAt(Tight(c), s, p)
      case Some(h) =>
        TightFrom(s, c, p + h.len);
        TightHit(s, c, p);
      case None =>
        TightFrom(s, c, p + 1);
        TightMiss(s, c, p);
    }
  }

  /** Each strip step leaves no whitespace next to its token and deletes only whitespace. */
  lemma TightStep(s: string, c: char)
    requires c in "{}();"
    ensures NoSpaceAround(Sub(s, Tight(c)), c)
    ensures SpaceErased(s, Sub(s, Tight(c)))
  {
    TightFrom(s, c, 0);
    assert s[0..] == s;
  }

  // ---------------------------------------------------------------------------
  // Steps 1 to 13 never lengthen the text

  lemma {:induction false} ApplyAllShrinks(pats: seq<Pattern>, s: string)
    requires forall i :: 0 <= i < |pats| ==> Shrinking(pats[i])
    ensures |ApplyAll(pats, s)| <= |s|
    decreases |pats|
  {
    if pats != [] {
      SubFromShrinks(s, pats[0], 0);
      ApplyAllShrinks(pats[1..], Sub(s, pats[0]));
    }
  }

  /** Every transformation before the include step never makes the text longer. */
  lemma FirstStepsShrink(s: string)
    ensures |ApplyAll(TRANSFORMATIONS[..13], s)| <= |s|
  {
    ApplyAllShrinks(TRANSFORMATIONS[..13], s);
  }

  // ---------------------------------------------------------------------------
  // Step 14: a newline after each include directive

  /** `r` is `s` with a newline inserted right after some of its `>` characters. */
  predicate GtNewlines(s: string, r: string)
    decreases |s|
  {
    if s == [] then r == []
    else if s[0] == '>' && |r| >= 2 && r[0] == '>' && r[1] == '\n' && GtNewlines(s[1..], r[2..]) then true
    else r != [] && r[0] == s[0] && GtNewlines(s[1..], r[1..])
  }

  lemma {:induction false} GtNothing(t: string)
    ensures GtNewlines(t, t)
    decreases |t|
  {
    if t != [] {
      GtNothing(t[1..]);
    }
  }

  lemma {:induction false} GtConcat(a: string, b: string, c: string, d: string)
    requires GtNewlines(a, b) && GtNewlines(c, d)
    ensures GtNewlines(a + c, b + d)
    decreases |a|
  {
    if a == [] {
      assert a + c == c && b + d == d;
    } else {
      assert (a + c)[0] == a[0] && (a + c)[1..] == a[1..] + c;
      if a[0] == '>' && |b| >= 2 && b[0] == '>' && b[1] == '\n' && GtNewlines(a[1..], b[2..]) {
        GtConcat(a[1..], b[2..], c, d);
        assert (b + d)[0] == b[0] && (b + d)[1] == b[1] && (b + d)[2..] == b[2..] + d;
      } else {
        GtConcat(a[1..], b[1..], c, d);
        assert (b + d)[0] == b[0] && (b + d)[1..] == b[1..] + d;
      }
    }
  }

  lemma {:induction false} IncludeFrom(s: string, p: nat)
    requires p <= |s|
    ensures GtNewlines(s[p..], SubFrom(s, Include, p))
    decreases |s| - p
  {
    if p < |s| {
      match MatchAt(Include, s, p)
      case Some(h) =>
        IncludeFrom(s, p + h.len);
        IncludeMatched(s, p);
      case None =>
        IncludeFrom(s, p + 1);
        IncludeCopied(s, p);
    }
  }

  /** A directive at `p`: its newline is inserted, and the rest follows. */
  lemma IncludeMatched(s: string, p: nat)
    requires p < |s| && MatchAt(Include, s, p).Some?
    requires var e := p + MatchAt(Include, s, p).value.len;
      GtNewlines(s[e..], SubFrom(s, Include, e))
    ensures GtNewlines(s[p..], SubFrom(s, Include, p))
  {
    var h := MatchAt(Include, s, p).value;
    var e := p + h.len;
    SubFromStep(s, Include, p);
    IncludeHit(s, p);
    GtDirective(s[p..e]);
    assert s[p..] == s[p..e] + s[e..];
    GtConcat(s[p..e], h.text, s[e..], SubFrom(s, Include, e));
  }

  /** No directive at `p`: the character is copied, and the rest follows. */
  lemma IncludeCopied(s: string, p: nat)
    requires p < |s| && MatchAt(Include, s, p).None?
    requires GtNewlines(s[p + 1..], SubFrom(s, Include, p + 1))
    ensures GtNewlines(s[p..], SubFrom(s, Include, p))
  {
    SubFromStep(s, Include, p);
    assert s[p..] == [s[p]] + s[p + 1..];
    GtNothing([s[p]]);
    GtConcat([s[p]], [s[p]], s[p + 1..], SubFrom(s, Include, p + 1));
  }

  /** An include directive ends with `>` and is replaced by itself and a newline. */
  lemma IncludeHit(s: string, p: nat)
    requires p < |s| && MatchAt(Include, s, p).Some?
    ensures var h := MatchAt(Include, s, p).value;
      s[p + h.len - 1] == '>' && h.text == s[p..p + h.len] + "\n"
  {
    assert MatchAt(Include, s, p) == MatchInclude(s, p);
  }

  /** A text ending in `>`, followed by a newline. */
  lemma GtDirective(d: string)
    requires d != [] && d[|d| - 1] == '>'
    ensures GtNewlines(d, d + "\n")
  {
    var body := d[..|d| - 1];
    GtNothing(body);
    assert GtNewlines(">", ">\n");
    GtConcat(body, body, ">", ">\n");
    assert d == body + ">" && d + "\n" == body + ">\n";
  }

  /** The include step only inserts newlines, each right after a `>`. */
  lemma IncludeStep(s: string)
    ensures GtNewlines(s, Sub(s, Include))
  {
    IncludeFrom(s, 0);
    assert s[0..] == s;
  }

  lemma {:induction false} GtLonger(s: string, r: string)
    requires GtNewlines(s, r)
    ensures |s| <= |r|
    decreases |s|
  {
    if s != [] {
      if s[0] == '>' && |r| >= 2 && r[0] == '>' && r[1] == '\n' && GtNewlines(s[1..], r[2..]) {
        GtLonger(s[1..], r[2..]);
      } else {
        GtLonger(s[1..], r[1..]);
      }
    }
  }

  /**
   * The include step is not idempotent: a text that opens with a directive
   * gets one more newline after it on every pass.
   */
  lemma IncludeNotIdempotent(s: string)
    requires s != [] && MatchAt(Include, s, 0).Some?
    ensures Sub(Sub(s, Include), Include) != Sub(s, Include)
  {
    var h := MatchAt(Include, s, 0).value;
    var q := FindOnLine(s, 10, '>').value;
    var rest := SubFrom(s, Include, q + 1);
    var t := Sub(s, Include);
    assert t == s[..q + 1] + "\n" + rest;
    assert t[..q + 1] == s[..q + 1];
    assert At(t, 0, "#include <");
    FindOnLineIs(t, 10, '>', q);
    assert MatchAt(Include, t, 0) == Some(Hit(q + 1, s[..q + 1] + "\n"));
    assert t[q + 1] == '\n';
    NotAt(t, q + 1, "#include <", 0);
    assert SubFrom(t, Include, q + 1) == "\n" + SubFrom(t, Include, q + 2);
    IncludeFrom(t, q + 2);
    GtLonger(t[q + 2..], SubFrom(t, Include, q + 2));
    assert |t[q + 2..]| == |rest|;
    assert Sub(t, Include) == s[..q + 1] + "\n" + ("\n" + SubFrom(t, Include, q + 2));
  }

  // ---------------------------------------------------------------------------
  // The optimizer as a whole is not idempotent

  /** No occurrence of `needle` (a space and at least two more characters) starts at `q` or later. */
  predicate NoSpacedFrom(s: string, needle: string, q: nat)
    requires |needle| >= 3
    decreases |s| - q
  {
    q + 2 >= |s| ||
    ((s[q] != ' ' || s[q + 1] != needle[1] || s[q + 2] != needle[2]) && NoSpacedFrom(s, needle, q + 1))
  }

  /** The position-by-position check rules out every occurrence from `q` on. */
  lemma {:induction false} NoSpacedFromAll(s: string, needle: string, q: nat)
    requires |needle| >= 3 && NoSpacedFrom(s, needle, q)
    ensures forall k :: q <= k && k + 2 < |s| && s[k] == ' ' ==> s[k + 1] != needle[1] || s[k + 2] != needle[2]
    decreases |s| - q
  {
    if q + 2 < |s| {
      NoSpacedFromAll(s, needle, q + 1);
    }
  }

  /** A text on which none of steps 2 to 13 finds anything to rewrite. */
  predicate Quiet(s: string) {
    '{' !in s && '}' !in s && '(' !in s && ')' !in s && ';' !in s && '"' !in s &&
    NoSpacedFrom(s, " << ", 0) && NoSpacedFrom(s, " >> ", 0) && NoSpacedFrom(s, " = ", 0) &&
    NoSpacedFrom(s, " < ", 0) && NoSpacedFrom(s, " > ", 0)
  }

  /** A step for a token the text does not contain changes nothing. */
  lemma TightFixed(s: string, c: char)
    requires c !in s
    ensures Sub(s, Tight(c)) == s
  {
    forall q | 0 <= q < |s| ensures MatchAt(Tight(c), s, q).None? {
      var k := SpaceRunEnd(s, q);
      assert k < |s| ==> s[k] != c;
      assert MatchAt(Tight(c), s, q) == MatchTight(c, s, q);
    }
    SubNoMatch(s, Tight(c));
  }

  /** A literal step for a space and two characters that never follow a space changes nothing. */
  lemma SpacedFixed(s: string, needle: string, rep: string)
    requires |needle| >= 3 && needle[0] == ' ' && NoSpacedFrom(s, needle, 0)
    ensures Sub(s, Literal(needle, rep)) == s
  {
    NoSpacedFromAll(s, needle, 0);
    forall q | 0 <= q < |s| ensures MatchAt(Literal(needle, rep), s, q).None? {
      if s[q] != ' ' {
        NotAt(s, q, needle, 0);
      } else if q + 2 < |s| {
        if s[q + 1] != needle[1] {
          NotAt(s, q, needle, 1);
        } else {
          NotAt(s, q, needle, 2);
        }
      }
    }
    SubNoMatch(s, Literal(needle, rep));
  }

  /** Steps 2 to 6 leave a text without `{`, `}`, `(`, `)` and `;` unchanged. */
  lemma TightSteps(s: string)
    requires '{' !in s && '}' !in s && '(' !in s && ')' !in s && ';' !in s
    ensures ApplyAll(TRANSFORMATIONS[1..6], s) == s
  {
    TightFixed(s, '{');
    TightFixed(s, '}');
    TightFixed(s, '(');
    TightFixed(s, ')');
    TightFixed(s, ';');
    var tight := TRANSFORMATIONS[1..6];
    assert tight == [Tight('{'), Tight('}'), Tight('('), Tight(')'), Tight(';')];
    ApplyAllFixed(tight, s);
  }

  /** Steps 7 to 13 leave a quiet text unchanged. */
  lemma PruneSteps(s: string)
    requires Quiet(s)
    ensures ApplyAll(TRANSFORMATIONS[6..13], s) == s
  {
    PrefixAbsent(s, Literal("\"\" << ", ""), 0);
    PrefixAbsent(s, Literal("\"\" >> ", ""), 0);
    SpacedFixed(s, " << ", "<<");
    SpacedFixed(s, " >> ", ">>");
    SpacedFixed(s, " = ", "=");
    SpacedFixed(s, " < ", "<");
    SpacedFixed(s, " > ", ">");
    var prune := TRANSFORMATIONS[6..13];
    assert prune == [
      Literal("\"\" << ", ""), Literal("\"\" >> ", ""),
      Literal(" << ", "<<"), Literal(" >> ", ">>"),
      Literal(" = ", "="), Literal(" < ", "<"), Literal(" > ", ">")];
    ApplyAllFixed(prune, s);
  }

  /** Steps 2 to 13 leave a quiet text unchanged. */
  lemma QuietSteps(s: string)
    requires Quiet(s)
    ensures ApplyAll(TRANSFORMATIONS[1..13], s) == s
  {
    TightSteps(s);
    PruneSteps(s);
    assert TRANSFORMATIONS[1..13] == TRANSFORMATIONS[1..6] + TRANSFORMATIONS[6..13];
    ApplyAllAppend(TRANSFORMATIONS[1..6], TRANSFORMATIONS[6..13], s);
  }

  /** When the collapsed text is quiet, the optimizer is the whitespace step followed by the include step. */
  lemma QuietOptimize(s: string)
    requires Quiet(Sub(s, Spaces))
    ensures Optimize(s) == Sub(Sub(s, Spaces), Include)
  {
    var middle := TRANSFORMATIONS[1..13];
    assert TRANSFORMATIONS == ([Spaces] + middle) + [Include];
    ApplyAllAppend([Spaces] + middle, [Include], s);
    ApplyAllAppend([Spaces], middle, s);
    QuietSteps(Sub(s, Spaces));
  }

  /** `#include <a>`: the whitespace step keeps its single space. */
  lemma DirectiveSpaces(s: string)
    requires s == "#include <a>"
    ensures Sub(s, Spaces) == s
  {
    forall q | 0 <= q < 12 && q != 8 ensures MatchAt(Spaces, s, q).None? {
      assert !IsSpace(s[q]);
    }
    SubFromSkip(s, Spaces, 0, 8);
    SpaceRunEndIs(s, 8, 9);
    SubFromStep(s, Spaces, 8);
    SubFromSkip(s, Spaces, 9, 12);
    assert s[0..8] + " " + s[9..12] == s;
  }

  /** `#include <a>` and a newline: the newline becomes a space. */
  lemma DirectiveNewlineSpaces(s: string)
    requires s == "#include <a>\n"
    ensures Sub(s, Spaces) == "#include <a> "
  {
    forall q | 0 <= q < 13 && q != 8 && q != 12 ensures MatchAt(Spaces, s, q).None? {
      assert !IsSpace(s[q]);
    }
    SubFromSkip(s, Spaces, 0, 8);
    SpaceRunEndIs(s, 8, 9);
    SubFromStep(s, Spaces, 8);
    SubFromSkip(s, Spaces, 9, 12);
    SpaceRunEndIs(s, 12, 13);
    SubFromStep(s, Spaces, 12);
    assert s[0..8] + " " + s[9..12] + " " == "#include <a> ";
  }

  /** `#include <a>`, with or without a trailing space, has nothing for steps 2 to 13. */
  lemma DirectiveQuiet(s: string)
    requires s == "#include <a>" || s == "#include <a> "
    ensures Quiet(s)
  {
    assert Quiet("#include <a>") && Quiet("#include <a> ");
  }

  /** The directive `#include <a>` at the start of `s` gets a newline, and the rest is copied. */
  lemma DirectiveInclude(s: string)
    requires s == "#include <a>" || s == "#include <a> "
    ensures Sub(s, Include) == "#include <a>\n" + s[12..]
  {
    assert s[0..12] == "#include <a>";
    assert At(s, 0, "#include <");
    assert MatchAt(Include, s, 0) == MatchInclude(s, 0);
    assert s[10] == 'a' && s[11] == '>';
    FindOnLineIs(s, 10, '>', 11);
    assert MatchInclude(s, 0) == Some(Hit(12, s[0..12] + "\n"));
    assert s[0..12] + "\n" == "#include <a>\n";
    assert MatchAt(Include, s, 0) == Some(Hit(12, "#include <a>\n"));
    SubFromStep(s, Include, 0);
    if |s| == 13 {
      NotAt(s, 12, "#include <", 0);
      SubFromStep(s, Include, 12);
    }
  }

  /** First pass over `#include <a>`: the directive gets its newline. */
  lemma FirstPass(s: string)
    requires s == "#include <a>"
    ensures Optimize(s) == "#include <a>\n"
  {
    DirectiveSpaces(s);
    DirectiveQuiet(s);
    QuietOptimize(s);
    DirectiveInclude(s);
  }

  /** Second pass: the newline becomes a space and a new newline goes in before it. */
  lemma SecondPass(t: string)
    requires t == "#include <a>\n"
    ensures Optimize(t) == "#include <a>\n "
  {
    DirectiveNewlineSpaces(t);
    DirectiveQuiet("#include <a> ");
    QuietOptimize(t);
    DirectiveInclude("#include <a> ");
  }

  /**
   * The optimizer is not idempotent: `#include <a>` gets its newline on the
   * first pass, and on the second pass that newline becomes a space and a
   * new newline is inserted before it.
   */
  lemma OptimizeNotIdempotent(s: string)
    requires s == "#include <a>"
    ensures Optimize(s) == "#include <a>\n"
    ensures Optimize(Optimize(s)) == "#include <a>\n "
    ensures Optimize(Optimize(s)) != Optimize(s)
  {
    FirstPass(s);
    SecondPass(Optimize(s));
  }
}
