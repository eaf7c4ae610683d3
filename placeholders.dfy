/**
 * Interpolation spans (`process_placeholders` in lexer.py): each `<expr>` in a
 * line is turned into `" << expr << "`, so that a string literal printed by
 * `log` is broken up around the expression.
 *
 * `ProcessAsWritten` is the function as lexer.py writes it: collect the spans
 * with a search, then rewrite each one with `str.replace` on the whole line.
 * The translator uses it.  `ExpandPlaceholders` rewrites every span once, in
 * a single left-to-right pass, as the function is evidently meant to.  The
 * two agree on every line without spans and differ on lines where a
 * replacement lines up with a later span (`AsWrittenDiffers`).
 */
module Placeholders {
  import opened Text
  import opened Patterns

  /** The text that replaces the span `<m>`. */
  function SpanText(m: string): string {
    "\" << " + m + " << \""
  }

  /** The contents of the spans found from `p` on, leftmost first, non-overlapping. */
  function FindAll(s: string, p: nat): seq<string>
    requires p <= |s|
    decreases |s| - p
  {
    if p == |s| then []
    else if s[p] == '<' && FindOnLine(s, p + 1, '>').Some? then
      var q := FindOnLine(s, p + 1, '>').value;
      [s[p + 1..q]] + FindAll(s, q + 1)
    else FindAll(s, p + 1)
  }

  /** Each found span replaced, in turn, everywhere in the current line. */
  function ReplaceEach(line: string, ms: seq<string>): string
    decreases |ms|
  {
    if ms == [] then line
    else ReplaceEach(ReplaceAll(line, "<" + ms[0] + ">", SpanText(ms[0])), ms[1..])
  }

  /** `process_placeholders` as written. */
  function ProcessAsWritten(line: string): string {
    ReplaceEach(line, FindAll(line, 0))
  }

  /** Every span rewritten once, left to right. */
  function ExpandPlaceholders(line: string): string {
    Sub(line, Span)
  }

  /** No `<` is followed, anywhere later, by a `>`. */
  predicate NoAngles(s: string) {
    forall i, j :: 0 <= i < j < |s| && s[i] == '<' ==> s[j] != '>'
  }

  lemma {:induction false} FindAllEmpty(s: string, p: nat)
    requires p <= |s| && NoAngles(s)
    ensures FindAll(s, p) == []
    decreases |s| - p
  {
    if p < |s| {
      FindAllEmpty(s, p + 1);
    }
  }

  /** A line with no `<` followed later by a `>` is returned unchanged, by both versions. */
  lemma UnchangedWithoutSpans(s: string)
    requires NoAngles(s)
    ensures ProcessAsWritten(s) == s
    ensures ExpandPlaceholders(s) == s
  {
    FindAllEmpty(s, 0);
    forall q | 0 <= q < |s| ensures MatchAt(Span, s, q).None? {
    }
    SubNoMatch(s, Span);
  }

  /**
   * The first span from `p` on is `s[i..k+1]`: the text before it is copied,
   * the span becomes `" << m << "` where `m` stops at the first `>`, and the
   * expansion carries on right after that `>`.
   */
  lemma ExpandFirstSpan(s: string, p: nat, i: nat, k: nat)
    requires p <= i < k < |s|
    requires forall q :: p <= q < i && s[q] == '<' ==> FindOnLine(s, q + 1, '>').None?
    requires s[i] == '<' && s[k] == '>'
    requires forall j :: i < j < k ==> s[j] != '>' && s[j] != '\n'
    ensures SubFrom(s, Span, p) == s[p..i] + SpanText(s[i + 1..k]) + SubFrom(s, Span, k + 1)
  {
    NoSpanBefore(s, p, i);
    SubFromSkip(s, Span, p, i);
    SpanAt(s, i, k);
    SubFromStep(s, Span, i);
    assert SubFrom(s, Span, i) == SpanText(s[i + 1..k]) + SubFrom(s, Span, k + 1);
  }

  /** No span starts where no `>` closes the line's `<`. */
  lemma NoSpanBefore(s: string, p: nat, i: nat)
    requires p <= i <= |s|
    requires forall q :: p <= q < i && s[q] == '<' ==> FindOnLine(s, q + 1, '>').None?
    ensures forall q :: p <= q < i ==> MatchAt(Span, s, q).None?
  {
    forall q | p <= q < i ensures MatchAt(Span, s, q).None? {
      assert MatchAt(Span, s, q) == MatchSpan(s, q);
    }
  }

  /** A `<` whose line has its first `>` at `k` starts the span `s[i..k+1]`. */
  lemma SpanAt(s: string, i: nat, k: nat)
    requires i < k < |s| && s[i] == '<' && s[k] == '>'
    requires forall j :: i < j < k ==> s[j] != '>' && s[j] != '\n'
    ensures MatchAt(Span, s, i) == Some(Hit(k + 1 - i, SpanText(s[i + 1..k])))
  {
    FindOnLineIs(s, i + 1, '>', k);
    assert MatchAt(Span, s, i) == MatchSpan(s, i);
  }

  /** The two versions disagree on `<>>< ">`: the second `str.replace` also hits text outside the spans. */
  lemma AsWrittenDiffers(s: string)
    requires s == "<>>< \">"
    ensures ProcessAsWritten(s) != ExpandPlaceholders(s)
  {
    ExampleSpans(s);
    var once := ReplaceAll(s, "<>", SpanText(""));
    ExampleFirstReplace(s, once);
    var twice := ReplaceAll(once, "< \">", SpanText(" \""));
    ExampleSecondReplace(once, twice);
    assert ["", " \""][1..] == [" \""];
    assert "<" + "" + ">" == "<>" && "<" + " \"" + ">" == "< \">";
    assert ReplaceEach(s, ["", " \""]) == ReplaceEach(once, [" \""]);
    assert ReplaceEach(once, [" \""]) == ReplaceEach(twice, []);
    ExampleExpansion(s);
  }

  lemma ExampleSpans(s: string)
    requires s == "<>>< \">"
    ensures FindAll(s, 0) == ["", " \""]
  {
    assert FindOnLine(s, 1, '>') == Some(1);
    assert FindOnLine(s, 5, '>') == Some(6);
    assert FindOnLine(s, 4, '>') == Some(6);
    assert FindAll(s, 7) == [];
    assert FindAll(s, 3) == [s[4..6]] + FindAll(s, 7);
    assert FindAll(s, 2) == FindAll(s, 3);
    assert FindAll(s, 0) == [s[1..1]] + FindAll(s, 2);
    assert s[4..6] == " \"";
    assert s[1..1] == "";
  }

  lemma ExampleFirstReplace(s: string, once: string)
    requires s == "<>>< \">"
    requires once == ReplaceAll(s, "<>", SpanText(""))
    ensures once == "\" <<  << \">< \">"
  {
    var pat := Literal("<>", SpanText(""));
    assert s[2] == '>' && s[3] == '<' && s[4] == ' ' && s[5] == '"' && s[6] == '>';
    forall q | 2 <= q < 7 ensures MatchAt(pat, s, q).None? {
      if s[q] != '<' { NotAt(s, q, "<>", 0); } else { NotAt(s, q, "<>", 1); }
    }
    SubFromSkip(s, pat, 2, 7);
    assert At(s, 0, "<>");
    assert SubFrom(s, pat, 0) == SpanText("") + SubFrom(s, pat, 2);
    assert s[2..7] == ">< \">";
  }

  lemma ExampleSecondReplace(once: string, twice: string)
    requires once == "\" <<  << \">< \">"
    requires twice == ReplaceAll(once, "< \">", SpanText(" \""))
    ensures |twice| == 31
  {
    var s := once;
    var pat := Literal("< \">", SpanText(" \""));
    assert s[0] == '"' && s[1] == ' ' && s[2] == '<' && s[3] == '<' && s[4] == ' ' && s[5] == ' ' && s[6] == '<';
    assert s[7] == '<' && s[8] == ' ' && s[9] == '"' && s[10] == '>';
    forall q | 0 <= q < 7 ensures MatchAt(pat, s, q).None? {
      if s[q] != '<' { NotAt(s, q, "< \">", 0); }
      else if s[q + 1] != ' ' { NotAt(s, q, "< \">", 1); }
      else { NotAt(s, q, "< \">", 2); }
    }
    SubFromSkip(s, pat, 0, 7);
    assert At(s, 7, "< \">");
    assert At(s, 11, "< \">");
    assert SubFrom(s, pat, 7) == SpanText(" \"") + SubFrom(s, pat, 11);
    assert SubFrom(s, pat, 11) == SpanText(" \"") + SubFrom(s, pat, 15);
  }

  lemma ExampleExpansion(s: string)
    requires s == "<>>< \">"
    ensures |ExpandPlaceholders(s)| == 23
  {
    assert FindOnLine(s, 1, '>') == Some(1);
    assert FindOnLine(s, 5, '>') == Some(6);
    assert FindOnLine(s, 4, '>') == Some(6);
    assert SubFrom(s, Span, 0) == SpanText("") + SubFrom(s, Span, 2);
    assert SubFrom(s, Span, 2) == [s[2]] + SubFrom(s, Span, 3);
    assert s[4..6] == " \"";
    assert SubFrom(s, Span, 3) == SpanText(" \"") + SubFrom(s, Span, 7);
  }
}
