/**
 * What the statement rules of the translation loop do to typical lines:
 * the `and`/`or` replacements, the `else {` rule, the `log` rule, and the
 * `stop` test.
 */
module StatementRules {
  import opened Text
  import opened Patterns
  import opened Translator

  // ---------------------------------------------------------------------------
  // Conditionals

  /** A line with no `f` and no `e` has no `if`, `elif` or `else` for the conditional rules to rewrite. */
  lemma ConditionalsFixed(s: string)
    requires 'f' !in s && 'e' !in s
    ensures Conditionals(s) == s
  {
    PrefixAbsent(s, Header("if", "if ("), 1);
    PrefixAbsent(s, Header("elif", "else if ("), 3);
    PrefixAbsent(s, ElseOpen, 0);
  }

  // ---------------------------------------------------------------------------
  // `and` and `or`

  /** Without spaces there is no ` and ` or ` or `: `band` and `(a)and(b)` stay as they are. */
  lemma AndOrNoSpace(s: string)
    requires ' ' !in s
    ensures AndOr(s) == s
  {
    PrefixAbsent(s, Literal(" and ", " && "), 0);
    PrefixAbsent(s, Literal(" or ", " || "), 0);
  }

  /** `a and b` becomes `a && b`. */
  lemma AndJoin(a: string, b: string)
    requires ' ' !in a && ' ' !in b
    ensures AndOr(a + " and " + b) == a + " && " + b
  {
    ReplaceOnce(a + " and " + b, a, " and ", b, " && ");
    var t, i := a + " && " + b, |a|;
    forall q | 0 <= q < |t| ensures !At(t, q, " or ") {
      if q < i {
        assert t[q] == a[q];
        NotAt(t, q, " or ", 0);
      } else if q == i {
        NotAt(t, q, " or ", 1);
      } else if q < i + 3 {
        NotAt(t, q, " or ", 0);
      } else if q == i + 3 {
        if q + 3 < |t| {
          assert t[q + 3] == b[2];
          NotAt(t, q, " or ", 3);
        }
      } else {
        assert t[q] == b[q - i - 4];
        NotAt(t, q, " or ", 0);
      }
    }
    ReplaceAbsent(t, " or ", " || ");
  }

  /** `a or b` becomes `a || b`. */
  lemma OrJoin(a: string, b: string)
    requires ' ' !in a && ' ' !in b
    ensures AndOr(a + " or " + b) == a + " || " + b
  {
    var s, i := a + " or " + b, |a|;
    forall q | 0 <= q < |s| ensures !At(s, q, " and ") {
      if q < i {
        assert s[q] == a[q];
        NotAt(s, q, " and ", 0);
      } else if q == i {
        NotAt(s, q, " and ", 1);
      } else if q < i + 3 {
        NotAt(s, q, " and ", 0);
      } else if q == i + 3 {
        if q + 4 < |s| {
          assert s[q + 4] == b[3];
          NotAt(s, q, " and ", 4);
        }
      } else {
        assert s[q] == b[q - i - 4];
        NotAt(s, q, " and ", 0);
      }
    }
    ReplaceAbsent(s, " and ", " && ");
    ReplaceOnce(s, a, " or ", b, " || ");
  }

  // ---------------------------------------------------------------------------
  // `else {`

  /**
   * The whole word `else`, any whitespace, then `{` closes up to `else {`,
   * when nothing else in the line starts with an `e`.
   */
  lemma ElseJoin(s: string, pre: string, w: string, post: string)
    requires s == pre + "else" + w + "{" + post && AllSpace(w)
    requires pre == [] || !IsWordChar(pre[|pre| - 1])
    requires 'e' !in pre && 'e' !in post
    ensures Sub(s, ElseOpen) == pre + "else {" + post
  {
    var i := |pre|;
    var k := i + 4 + |w|;
    assert s[..i] == pre && s[i..i + 4] == "else" && s[k] == '{' && s[k + 1..] == post;
    if i > 0 {
      assert s[i - 1] == pre[i - 1];
    }
    forall j | i + 4 <= j < k ensures IsSpace(s[j]) {
      assert s[j] == w[j - i - 4];
    }
    ElseSplit(s, pre, k, post);
  }

  /** `ElseJoin` on the positions: `pre`, then `else` and whitespace up to the `{` at `k`, then `post`. */
  lemma ElseSplit(s: string, pre: string, k: nat, post: string)
    requires |pre| + 4 <= k < |s| && s[..|pre|] == pre && s[|pre|..|pre| + 4] == "else" && s[k] == '{' && s[k + 1..] == post
    requires forall j :: |pre| + 4 <= j < k ==> IsSpace(s[j])
    requires |pre| == 0 || !IsWordChar(s[|pre| - 1])
    requires 'e' !in pre && 'e' !in post
    ensures Sub(s, ElseOpen) == pre + "else {" + post
  {
    NoElseIn(s, post, k + 1);
    assert SubFrom(s, ElseOpen, |s|) == [];
    assert SubFrom(s, ElseOpen, k + 1) == post;
    ElseHit(s, |pre|, k);
    NoElseIn(s, pre, 0);
  }

  /** The `else` rule replaces `else`, whitespace and `{` at `i`, and goes on after the `{`. */
  lemma ElseHit(s: string, i: nat, k: nat)
    requires i + 4 <= k < |s| && s[i..i + 4] == "else" && s[k] == '{'
    requires forall j :: i + 4 <= j < k ==> IsSpace(s[j])
    requires i == 0 || !IsWordChar(s[i - 1])
    ensures SubFrom(s, ElseOpen, i) == "else {" + SubFrom(s, ElseOpen, k + 1)
  {
    ElseAt(s, i, k);
    SubFromStep(s, ElseOpen, i);
  }

  /** A stretch `t` of `s` starting at `p` with no `e` in it is copied through. */
  lemma NoElseIn(s: string, t: string, p: nat)
    requires p + |t| <= |s| && s[p..p + |t|] == t && 'e' !in t
    ensures SubFrom(s, ElseOpen, p) == t + SubFrom(s, ElseOpen, p + |t|)
  {
    forall q | p <= q < p + |t| ensures MatchAt(ElseOpen, s, q).None? {
      assert s[q] == t[q - p];
      NotAt(s, q, "else", 0);
    }
    SubFromSkip(s, ElseOpen, p, p + |t|);
  }

  /** `else`, whitespace up to `k`, then `{` at `k`: the `else` rule takes it all. */
  lemma ElseAt(s: string, i: nat, k: nat)
    requires i + 4 <= k < |s| && s[i..i + 4] == "else" && s[k] == '{'
    requires forall j :: i + 4 <= j < k ==> IsSpace(s[j])
    requires i == 0 || !IsWordChar(s[i - 1])
    ensures MatchAt(ElseOpen, s, i) == Some(Hit(k + 1 - i, "else {"))
  {
    SpaceRunEndIs(s, i + 4, k);
    assert s[i] == s[i..i + 4][0];
  }

  /** The `elif` rule finds nothing in such a line. */
  lemma ElifSkipsElse(s: string, pre: string, w: string, post: string)
    requires s == pre + "else" + w + "{" + post && AllSpace(w)
    requires 'e' !in pre && 'e' !in post
    ensures Sub(s, Header("elif", "else if (")) == s
  {
    var i := |pre|;
    var k := i + 4 + |w|;
    assert s[i..i + 4] == "else" && s[k] == '{';
    forall q | 0 <= q < |s| ensures MatchAt(Header("elif", "else if ("), s, q).None? {
      if q < i {
        assert s[q] == pre[q];
        NotAt(s, q, "elif", 0);
      } else if q == i {
        NotAt(s, q, "elif", 2);
      } else if q < i + 3 {
        NotAt(s, q, "elif", 0);
      } else if q == i + 3 {
        if i + 4 < k {
          assert s[q + 1] == w[0];
        }
        NotAt(s, q, "elif", 1);
      } else if q < k {
        assert s[q] == w[q - i - 4];
        NotAt(s, q, "elif", 0);
      } else if q == k {
        NotAt(s, q, "elif", 0);
      } else {
        assert s[q] == post[q - k - 1];
        NotAt(s, q, "elif", 0);
      }
    }
    SubNoMatch(s, Header("elif", "else if ("));
  }

  /** Of the conditional rules, only the `else` rule changes such a line, when it holds no `i` either. */
  lemma ElseLine(s: string, pre: string, w: string, post: string)
    requires s == pre + "else" + w + "{" + post && AllSpace(w)
    requires pre == [] || !IsWordChar(pre[|pre| - 1])
    requires 'e' !in pre && 'e' !in post && 'i' !in pre && 'i' !in post
    ensures Conditionals(s) == pre + "else {" + post
  {
    assert 'i' !in s by {
      assert s == pre + ("else" + w + "{") + post;
      assert 'i' !in "else" + w + "{" by {
        forall j | 0 <= j < |w| ensures w[j] != 'i' {
          assert IsSpace(w[j]);
        }
      }
    }
    PrefixAbsent(s, Header("if", "if ("), 0);
    ElifSkipsElse(s, pre, w, post);
    ElseJoin(s, pre, w, post);
  }

  /** `}else   {` becomes `}else {`. */
  lemma ElseExample(s: string)
    requires s == "}else   {"
    ensures Conditionals(s) == "}else {"
  {
    assert s == "}" + "else" + "   " + "{" + "";
    ElseLine(s, "}", "   ", "");
  }

  // ---------------------------------------------------------------------------
  // `log`

  /**
   * `log(v)` with no `)` or newline inside `v`: the `log(...).end` rule finds
   * no `end` after the call, and the `log` rule prints `v` with `endl`.
   */
  lemma LogCall(s: string, v: string)
    requires s == "log(" + v + ")" && ')' !in v && '\n' !in v
    ensures Sub(s, LogEnd) == s
    ensures Sub(s, Log) == "cout << " + v + " << endl;"
  {
    var n := |s|;
    assert s[..4] == "log(" && s[4..n - 1] == v && s[n - 1] == ')';
    forall q | 0 <= q < n ensures MatchAt(LogEnd, s, q).None? {
      if At(s, q, "log(") {
        NoLogEndClose(s, q + 4);
      }
    }
    SubNoMatch(s, LogEnd);
    forall j | 4 <= j < n - 1 ensures s[j] != ')' && s[j] != '\n' {
      assert s[j] == v[j - 4];
    }
    FindOnLineIs(s, 4, ')', n - 1);
    assert At(s, 0, "log(");
    SubFromStep(s, Log, 0);
  }

  /** With a `)` only at the very end, no `)` is followed by another character. */
  lemma {:induction false} NoLogEndClose(s: string, q: nat)
    requires s != [] && forall j :: q <= j < |s| - 1 ==> s[j] != ')'
    ensures LogEndClose(s, q).None?
    decreases |s| - q
  {
    if q < |s| && s[q] != '\n' {
      NoLogEndClose(s, q + 1);
    }
  }

  // ---------------------------------------------------------------------------
  // `stop`

  /**
   * A line that is no declaration, does not open a `loop {` or a counting
   * loop, is not a lone `}` and holds `stop` anywhere becomes `break;`, and
   * declares nothing.
   */
  lemma StopLine(s: string, declared: set<string>)
    requires MatchDecl(s).None? && !At(s, 0, "loop {") && s != "}" && MatchLoopFor(s).None? && Contains(s, "stop")
    ensures Translate(s, declared) == (INDENT + "break;", declared)
  {
    StopClassified(s);
  }

  /** Such a line passes none of the earlier tests of the loop. */
  lemma StopClassified(s: string)
    requires MatchDecl(s).None? && !At(s, 0, "loop {") && s != "}" && MatchLoopFor(s).None? && Contains(s, "stop")
    ensures Classify(s) == Break
  {
  }

  /** `loop stop` starts with `loop ` but opens no loop, so it is a `stop` line. */
  lemma LoopStop(s: string, declared: set<string>)
    requires s == "loop stop"
    ensures Translate(s, declared) == (INDENT + "break;", declared)
  {
    WordRunEndIs(s, 0, 4);
    SpaceRunEndIs(s, 4, 5);
    WordRunEndIs(s, 5, 9);
    NotAt(s, 0, "loop {", 5);
    assert At(s, 5, "stop");
    StopLine(s, declared);
  }

  /** `log("stopwatch")` holds `stop` inside a string, and still becomes `break;`. */
  lemma StopInString(s: string, declared: set<string>)
    requires s == "log(\"stopwatch\")"
    ensures Translate(s, declared) == (INDENT + "break;", declared)
  {
    WordRunEndIs(s, 0, 3);
    SpaceRunEndIs(s, 3, 3);
    NotAt(s, 0, "loop {", 2);
    NotAt(s, 0, "loop ", 2);
    assert At(s, 5, "stop");
    StopLine(s, declared);
  }
}
