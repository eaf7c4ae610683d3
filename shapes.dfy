/**
 * What the translation loop of lexer.py makes of the line shapes of the
 * language: a declaration `name: value`, a counting loop
 * `loop i for 10 {`, the block lines `loop {`, `}` and `stop`, and the
 * conditional headers `if c {` and `elif c {`.
 */
module LineShapes {
  import opened Text
  import opened Patterns
  import opened VarTypes
  import opened Translator

  // ---------------------------------------------------------------------------
  // Declarations

  /** `name`, optional whitespace, `:` and a one-line value is a declaration of `name` with the stripped value. */
  lemma DeclLine(name: string, w: string, value: string)
    requires IsWord(name) && AllSpace(w)
    requires value != [] && '\n' !in value
    ensures Classify(name + w + ":" + value) == Assign(name, Strip(value))
  {
    DeclMatch(name + w + ":" + value, name, w, value);
  }

  /** The declaration rule reads the name and the stripped value. */
  lemma DeclMatch(s: string, name: string, w: string, value: string)
    requires s == name + w + ":" + value
    requires IsWord(name) && AllSpace(w)
    requires value != [] && '\n' !in value
    ensures MatchDecl(s) == Some((name, Strip(value)))
  {
    DeclPrefix(name, w, value);
    DeclMatchFrom(s, name, |name| + |w| + 1, value);
  }

  /** After the head `name`, whitespace and colon, the declaration rule reads the stripped one-line value. */
  lemma DeclMatchFrom(s: string, name: string, a: nat, value: string)
    requires 0 < a <= |s| && DeclHead(s, name, a - 1) && s[a..] == value
    requires value != [] && '\n' !in value
    ensures MatchDecl(s) == Some((name, Strip(value)))
  {
    var k := SpaceRunEnd(s, a);
    if k < |s| {
      DeclValueText(s, a, value);
      DeclMatchValue(s, name, a - 1, k, Strip(value));
    } else {
      DeclBlankText(s, a, value);
      DeclMatchBlank(s, name, a - 1);
    }
  }

  /** `s` starts with the word `name`, then whitespace, then a colon at `k0`. */
  predicate DeclHead(s: string, name: string, k0: nat) {
    name != [] && |name| <= k0 < |s| && s[..|name|] == name && s[k0] == ':' &&
    WordRunEnd(s, 0) == |name| && SpaceRunEnd(s, |name|) == k0
  }

  /** The declaration rule on a line whose name and colon are known, when the value starts on the line. */
  lemma DeclMatchValue(s: string, name: string, k0: nat, k: nat, v: string)
    requires DeclHead(s, name, k0) && k0 < k < |s|
    requires SpaceRunEnd(s, k0 + 1) == k && !IsSpace(s[k]) && Strip(s[k..LineEnd(s, k)]) == v
    ensures MatchDecl(s) == Some((name, v))
  {
    DeclMatchAt(s, k0, k);
  }

  /** The name ends the word run, and the colon ends the whitespace after it. */
  lemma DeclPrefix(name: string, w: string, value: string)
    requires IsWord(name) && AllSpace(w)
    ensures var s := name + w + ":" + value;
      DeclHead(s, name, |name| + |w|) && s[|name| + |w| + 1..] == value
  {
    var s := name + w + ":" + value;
    DeclParts(name, w, value);
    NameChars(name, w, value);
    GapChars(name, w, value);
    WordRunEndIs(s, 0, |name|);
    SpaceRunEndIs(s, |name|, |name| + |w|);
  }

  /** Where the name, the colon and the value sit in a declaration line. */
  lemma DeclParts(name: string, w: string, value: string)
    ensures var s := name + w + ":" + value;
      s[..|name|] == name && s[|name| + |w|] == ':' && s[|name| + |w| + 1..] == value
  {
  }

  /** The name is a run of word characters, and what follows it is not one. */
  lemma NameChars(name: string, w: string, value: string)
    requires IsWord(name) && AllSpace(w)
    ensures var s := name + w + ":" + value;
      (forall k :: 0 <= k < |name| ==> IsWordChar(s[k])) && !IsWordChar(s[|name|])
  {
    var s := name + w + ":" + value;
    forall k | 0 <= k < |name| ensures IsWordChar(s[k]) {
      assert s[k] == name[k];
    }
    if w != [] {
      assert s[|name|] == w[0];
    }
  }

  /** The whitespace between the name and the colon. */
  lemma GapChars(name: string, w: string, value: string)
    requires AllSpace(w)
    ensures var s := name + w + ":" + value;
      forall k :: |name| <= k < |name| + |w| ==> IsSpace(s[k])
  {
    var s := name + w + ":" + value;
    forall k | |name| <= k < |name| + |w| ensures IsSpace(s[k]) {
      assert s[k] == w[k - |name|];
    }
  }

  /** A value that leaves the whitespace run: the rest of the line strips to the stripped value. */
  lemma DeclValueText(s: string, a: nat, value: string)
    requires a <= |s| && s[a..] == value && '\n' !in value
    requires SpaceRunEnd(s, a) < |s|
    ensures var k := SpaceRunEnd(s, a);
      Strip(s[k..LineEnd(s, k)]) == Strip(value)
  {
    var k := SpaceRunEnd(s, a);
    RestOfLine(s, a, value, k);
    ValueSpaces(s, a, value);
    StripRest(value, k - a, s[k..LineEnd(s, k)]);
  }

  /** What follows leading whitespace strips like the whole text. */
  lemma StripRest(value: string, j: nat, rest: string)
    requires j <= |value| && AllSpace(value[..j]) && rest == value[j..]
    ensures Strip(rest) == Strip(value)
  {
    StripAfterSpaces(value, j);
  }

  /** With no newline in the value, the line runs on to the end of the value. */
  lemma RestOfLine(s: string, a: nat, value: string, k: nat)
    requires a <= k < |s| && s[a..] == value && '\n' !in value
    ensures s[k..LineEnd(s, k)] == value[k - a..]
  {
    NoNewline(s, a, value);
    LineEndIs(s, k, |s|);
  }

  /** A value of whitespace only: it does not start with a newline, and it strips to nothing. */
  lemma DeclBlankText(s: string, a: nat, value: string)
    requires a < |s| && s[a..] == value && '\n' !in value
    requires SpaceRunEnd(s, a) == |s|
    ensures s[a] != '\n' && Strip(value) == ""
  {
    ValueSpaces(s, a, value);
    assert value[..|s| - a] == value;
    assert s[a] == value[0];
    StripIs(value, [], []);
    assert value + [] + [] == value;
  }

  /** The whitespace run at the start of the value is a prefix of the value. */
  lemma ValueSpaces(s: string, a: nat, value: string)
    requires a <= |s| && s[a..] == value
    ensures AllSpace(value[..SpaceRunEnd(s, a) - a])
  {
    var k := SpaceRunEnd(s, a);
    forall j | 0 <= j < k - a ensures IsSpace(value[j]) {
      assert value[j] == s[a + j];
    }
    assert forall j :: 0 <= j < k - a ==> value[..k - a][j] == value[j];
  }

  /** Without newlines in the value, the text from the value on has none. */
  lemma NoNewline(s: string, a: nat, value: string)
    requires a <= |s| && s[a..] == value && '\n' !in value
    ensures forall j :: a <= j < |s| ==> s[j] != '\n'
  {
    forall j | a <= j < |s| ensures s[j] != '\n' {
      assert s[j] == value[j - a];
    }
  }

  /** The declaration rule when the value starts on the line: the stripped rest of the line. */
  lemma DeclMatchAt(s: string, k0: nat, k: nat)
    requires 0 < WordRunEnd(s, 0) && SpaceRunEnd(s, WordRunEnd(s, 0)) == k0
    requires k0 < |s| && s[k0] == ':'
    requires SpaceRunEnd(s, k0 + 1) == k && k < |s| && s[k] != '\n'
    ensures MatchDecl(s) == Some((s[..WordRunEnd(s, 0)], Strip(s[k..LineEnd(s, k)])))
  {
    var e := WordRunEnd(s, 0);
    var v := Strip(s[k..LineEnd(s, k)]);
    var r := MatchDecl(s);
    assert r == Some((s[..e], v));
  }

  /** The declaration rule when only whitespace, not all newlines, follows the colon: an empty value. */
  lemma DeclMatchBlank(s: string, name: string, k0: nat)
    requires DeclHead(s, name, k0) && k0 + 1 < |s|
    requires s[k0 + 1] != '\n' && SpaceRunEnd(s, k0 + 1) == |s|
    ensures MatchDecl(s) == Some((name, ""))
  {
  }

  // ---------------------------------------------------------------------------
  // Block lines

  /** `loop <var> for <count> {` opens a counting loop over that variable and count, whatever follows. */
  lemma LoopForLine(v: string, n: string, rest: string)
    requires IsWord(v) && IsIntLit(n)
    ensures Classify("loop " + v + " for " + n + " {" + rest) == ForOpen(v, n)
  {
    LoopForRead("loop " + v + " for " + n + " {" + rest, v, n, rest);
  }

  /** The counting-loop line, named `s`. */
  lemma LoopForRead(s: string, v: string, n: string, rest: string)
    requires s == "loop " + v + " for " + n + " {" + rest
    requires IsWord(v) && IsIntLit(n)
    ensures Classify(s) == ForOpen(v, n)
  {
    LoopForParts(s, v, n, rest);
    LoopForClassify(s, 5 + |v|, 10 + |v| + |n|);
  }

  /** A line the counting-loop rule matches, with a word character after `loop `, is read by that rule. */
  lemma LoopForClassify(s: string, e: nat, d: nat)
    requires At(s, 0, "loop ") && 5 < e <= |s| && IsWordChar(s[5]) && WordRunEnd(s, 5) == e && At(s, e, " for ")
    requires e + 5 < d <= |s| && DigitRunEnd(s, e + 5) == d && At(s, d, " {")
    ensures Classify(s) == ForOpen(s[5..e], s[e + 5..d])
  {
    LoopNotDecl(s);
    NotAt(s, 0, "loop {", 5);
    LoopForMatch(s, e, d);
  }

  /** `loop ` followed by a word character is not a declaration: the word `loop` is not followed by a colon. */
  lemma LoopNotDecl(s: string)
    requires At(s, 0, "loop ") && 5 < |s| && IsWordChar(s[5])
    ensures MatchDecl(s).None?
  {
    assert s[..4] == "loop" && s[4] == ' ';
    WordRunEndIs(s, 0, 4);
    SpaceRunEndIs(s, 4, 5);
  }

  /** The counting-loop rule, once the word ending at `e` and the digits ending at `d` are known. */
  lemma LoopForMatch(s: string, e: nat, d: nat)
    requires At(s, 0, "loop ") && 5 < e <= |s| && WordRunEnd(s, 5) == e && At(s, e, " for ")
    requires e + 5 < d <= |s| && DigitRunEnd(s, e + 5) == d && At(s, d, " {")
    ensures MatchLoopFor(s) == Some((s[5..e], s[e + 5..d]))
  {
  }

  /** Where the variable, the count and the punctuation sit in a counting-loop line. */
  lemma LoopForParts(s: string, v: string, n: string, rest: string)
    requires s == "loop " + v + " for " + n + " {" + rest
    requires IsWord(v) && IsIntLit(n)
    ensures var e, d := 5 + |v|, 10 + |v| + |n|;
      At(s, 0, "loop ") && IsWordChar(s[5]) && WordRunEnd(s, 5) == e && At(s, e, " for ") &&
      DigitRunEnd(s, e + 5) == d && At(s, d, " {") && s[5..e] == v && s[e + 5..d] == n
  {
    var e, d := 5 + |v|, 10 + |v| + |n|;
    LoopForSlices(s, v, n, rest);
    forall k | 5 <= k < e ensures IsWordChar(s[k]) {
      assert s[k] == s[5..e][k - 5];
    }
    forall k | e + 5 <= k < d ensures IsDigit(s[k]) {
      assert s[k] == s[e + 5..d][k - (e + 5)];
    }
    WordRunEndIs(s, 5, e);
    DigitRunEndIs(s, e + 5, d);
  }

  /** The slices of a counting-loop line. */
  lemma LoopForSlices(s: string, v: string, n: string, rest: string)
    requires s == "loop " + v + " for " + n + " {" + rest
    ensures var e, d := 5 + |v|, 10 + |v| + |n|;
      s[..5] == "loop " && s[5..e] == v && s[e..e + 5] == " for " && s[e + 5..d] == n && s[d..d + 2] == " {"
  {
  }

  /** `loop {` opens an endless loop, whatever follows it. */
  lemma WhileLine(rest: string)
    ensures Classify("loop {" + rest) == WhileOpen
  {
    var s := "loop {" + rest;
    assert s[..4] == "loop" && s[4] == ' ' && s[5] == '{';
    WordRunEndIs(s, 0, 4);
    SpaceRunEndIs(s, 4, 5);
    assert s[..6] == "loop {";
  }

  /**
   * A lone `}` closes a block, and `stop` breaks out of the loop. The two
   * lines are parameters fixed by the requires, so that the solver does not
   * unfold the tests of the loop on literal strings eagerly.
   */
  lemma CloseAndStopLines(close: string, stop: string)
    requires close == "}" && stop == "stop"
    ensures Classify(close) == BlockClose
    ensures Classify(stop) == Break
  {
    WordRunEndIs(close, 0, 0);
    WordRunEndIs(stop, 0, 4);
    SpaceRunEndIs(stop, 4, 4);
    NotAt(stop, 0, "loop {", 0);
    NotAt(stop, 0, "loop ", 0);
    assert At(stop, 0, "stop");
  }

  // ---------------------------------------------------------------------------
  // Conditional headers

  /** A condition the header rules read as one group: no outer whitespace, no `{`, one line. */
  predicate PlainCondition(c: string) {
    c != [] && Trimmed(c) && '{' !in c && '\n' !in c
  }

  /**
   * `c` holds no `if` that the `if` rule could take for its keyword: every
   * `if` that starts a word of `c` is followed, inside `c`, by a character
   * that is not whitespace (as in `diff`, `notify` or `iffy`).
   */
  predicate NoIfKeyword(c: string) {
    forall j :: 0 <= j && j + 2 <= |c| && At(c, j, "if") && (j == 0 || !IsWordChar(c[j - 1])) ==>
      j + 2 < |c| && !IsSpace(c[j + 2])
  }

  /** `if c {` becomes `if (c) {`. */
  lemma IfHeader(c: string)
    requires PlainCondition(c)
    ensures Sub("if " + c + " {", Header("if", "if (")) == "if (" + c + ") {"
  {
    var s := "if " + c + " {";
    HeaderAt(s, "if", "if (", c);
    SubFromStep(s, Header("if", "if ("), 0);
  }

  /**
   * `elif c {` becomes `else if (c) {`: the `if` rule finds no keyword `if` in it,
   * the `elif` rule rewrites the whole line, and the `else` rule finds no
   * `else` followed by a brace in the result.
   */
  lemma ElifHeader(c: string)
    requires PlainCondition(c) && NoIfKeyword(c)
    ensures Conditionals("elif " + c + " {") == "else if (" + c + ") {"
  {
    var s, t := "elif " + c + " {", "else if (" + c + ") {";
    IfRuleSkips(s, c);
    ElifRule(s, c);
    ElseRuleSkips(t, c);
    assert Conditionals(s) == Sub(Sub(s, Header("elif", "else if (")), ElseOpen);
  }

  /** A condition whose words merely contain `if` keeps the `elif` header intact. */
  lemma ElifDiff(s: string)
    requires s == "elif diff > 0 {"
    ensures Conditionals(s) == "else if (diff > 0) {"
  {
    var c := "diff > 0";
    assert NoIfKeyword(c) by {
      forall j | 0 <= j && j + 2 <= |c| && At(c, j, "if")
        ensures j == 1
      {
        assert c[j] == c[j..j + 2][0] == 'i';
        assert c[j + 1] == c[j..j + 2][1] == 'f';
      }
    }
    assert s == "elif " + c + " {";
    ElifHeader(c);
    assert "else if (" + c + ") {" == "else if (diff > 0) {";
  }

  /** So does a one-word condition with `if` inside it. */
  lemma ElifNotify(s: string)
    requires s == "elif notify {"
    ensures Conditionals(s) == "else if (notify) {"
  {
    var c := "notify";
    assert NoIfKeyword(c) by {
      forall j | 0 <= j && j + 2 <= |c| && At(c, j, "if")
        ensures j == 3
      {
        assert c[j] == c[j..j + 2][0] == 'i';
        assert c[j + 1] == c[j..j + 2][1] == 'f';
      }
    }
    assert s == "elif " + c + " {";
    ElifHeader(c);
    assert "else if (" + c + ") {" == "else if (notify) {";
  }

  /** The `elif` rule rewrites the whole of `elif c {`. */
  lemma ElifRule(s: string, c: string)
    requires s == "elif " + c + " {" && PlainCondition(c)
    ensures Sub(s, Header("elif", "else if (")) == "else if (" + c + ") {"
  {
    assert IsWord("elif") by {
      assert forall k :: 0 <= k < 4 ==> IsWordChar("elif"[k]);
    }
    HeaderAt(s, "elif", "else if (", c);
    SubFromStep(s, Header("elif", "else if ("), 0);
    assert SubFrom(s, Header("elif", "else if ("), |s|) == [];
  }

  /** The `if` rule leaves `elif c {` alone when `c` holds no keyword `if`. */
  lemma IfRuleSkips(s: string, c: string)
    requires s == "elif " + c + " {" && c != [] && NoIfKeyword(c)
    ensures Sub(s, Header("if", "if (")) == s
  {
    var m := 5 + |c|;
    assert s[..5] == "elif " && s[5..m] == c && s[m] == ' ' && s[m + 1] == '{' && |s| == m + 2;
    forall q | 0 <= q < |s| ensures MatchAt(Header("if", "if ("), s, q).None? {
      if q < 5 {
        IfSkipsHead(s, q);
      } else if q + 1 < m {
        IfSkipsCondition(s, c, q);
      } else {
        IfSkipsTail(s, q);
      }
      assert MatchAt(Header("if", "if ("), s, q) == MatchHeader("if", "if (", s, q);
    }
    SubNoMatch(s, Header("if", "if ("));
  }

  /** Inside `elif `, the only `if` is not at a word boundary. */
  lemma IfSkipsHead(s: string, q: nat)
    requires |s| > 5 && s[..5] == "elif " && q < 5
    ensures !WordBoundary(s, q) || !At(s, q, "if")
  {
    assert s[0] == 'e' && s[1] == 'l' && s[2] == 'i' && s[3] == 'f' && s[4] == ' ' by {
      assert forall k :: 0 <= k < 5 ==> s[k] == s[..5][k];
    }
  }

  /** An `if` inside the condition that starts a word is followed by a non-space character of the condition. */
  lemma IfSkipsCondition(s: string, c: string, q: nat)
    requires 5 <= q && q + 2 <= 5 + |c| < |s| && s[5..5 + |c|] == c && NoIfKeyword(c)
    ensures !WordBoundary(s, q) || !At(s, q, "if") || !IsSpace(s[q + 2])
  {
    var j := q - 5;
    assert s[q] == s[5..5 + |c|][j] && s[q + 1] == s[5..5 + |c|][j + 1];
    assert c[j..j + 2] == s[q..q + 2];
    if WordBoundary(s, q) && At(s, q, "if") {
      assert At(c, j, "if");
      if j > 0 {
        assert c[j - 1] == s[5..5 + |c|][j - 1];
      }
      assert j + 2 < |c| && !IsSpace(c[j + 2]);
      assert s[q + 2] == s[5..5 + |c|][j + 2];
    }
  }

  /** The closing ` {` holds no `if`. */
  lemma IfSkipsTail(s: string, q: nat)
    requires |s| >= 2 && s[|s| - 2] == ' ' && s[|s| - 1] == '{' && q + 2 >= |s| - 1
    ensures !At(s, q, "if")
  {
  }

  /** The `else` rule leaves `else if (c) {` alone: its only brace closes the line after `) `. */
  lemma ElseRuleSkips(t: string, c: string)
    requires t == "else if (" + c + ") {" && '{' !in c
    ensures Sub(t, ElseOpen) == t
  {
    ElseLineFacts(t, c);
    forall q | 0 <= q < |t| ensures MatchAt(ElseOpen, t, q).None? {
      ElseSkipsAt(t, q);
      assert MatchAt(ElseOpen, t, q) == MatchElse(t, q);
    }
    SubNoMatch(t, ElseOpen);
  }

  /** The last three characters of `else if (c) {`, and no other brace. */
  lemma ElseLineFacts(t: string, c: string)
    requires t == "else if (" + c + ") {" && '{' !in c
    ensures |t| >= 12 && t[|t| - 3] == ')' && t[|t| - 2] == ' ' && t[|t| - 1] == '{'
    ensures forall j :: 0 <= j < |t| - 1 ==> t[j] != '{'
  {
    var m := 9 + |c|;
    assert t[..9] == "else if (" && t[9..m] == c && t[m..] == ") {";
    forall j | 0 <= j < |t| - 1 ensures t[j] != '{' {
      if j < 9 {
        assert t[j] == t[..9][j];
      } else if j < m {
        assert t[j] == c[j - 9];
      } else {
        assert t[j] == t[m..][j - m];
      }
    }
  }

  /** Where the only brace of a text closes it after `) `, no `else` before it reaches the brace across whitespace. */
  lemma ElseSkipsAt(t: string, q: nat)
    requires |t| >= 3 && t[|t| - 3] == ')' && t[|t| - 2] == ' ' && t[|t| - 1] == '{'
    requires forall j :: 0 <= j < |t| - 1 ==> t[j] != '{'
    ensures MatchElse(t, q).None?
  {
    if At(t, q, "else") {
      assert t[q + 3] == t[q..q + 4][3];
    }
    assert !IsSpace(t[|t| - 3]);
  }

  /** The header rule at the start of `keyword c {` replaces the whole line. */
  lemma HeaderAt(s: string, keyword: string, opening: string, c: string)
    requires IsWord(keyword) && PlainCondition(c)
    requires s == keyword + " " + c + " {"
    ensures MatchAt(Header(keyword, opening), s, 0) == Some(Hit(|s|, opening + c + ") {"))
  {
    var n := |keyword|;
    HeaderSlices(s, keyword, c);
    HeaderParts(s, keyword, c);
    HeaderMatch(s, keyword, opening, n + 1, n + 1 + |c|, |s| - 1);
    assert MatchAt(Header(keyword, opening), s, 0) == MatchHeader(keyword, opening, s, 0);
  }

  /** The header rule at position 0, once the condition's bounds `e` and `q` and the brace `f` are known. */
  lemma HeaderMatch(s: string, keyword: string, opening: string, e: nat, q: nat, f: nat)
    requires keyword != [] && WordBoundary(s, 0) && At(s, 0, keyword) && |keyword| < |s| && IsSpace(s[|keyword|])
    requires SpaceRunEnd(s, |keyword|) == e <= q <= f < |s|
    requires FindChar(s, e, '{') == Some(f) && TrimEnd(s, e, f) == q && '\n' !in s[e..q]
    ensures MatchHeader(keyword, opening, s, 0) == Some(Hit(f + 1, opening + s[e..q] + ") {"))
  {
  }

  /** Where the keyword, the condition and the brace sit in a header line. */
  lemma HeaderSlices(s: string, keyword: string, c: string)
    requires s == keyword + " " + c + " {"
    ensures var n := |keyword|; var q := n + 1 + |c|;
      |s| == q + 2 && s[..n] == keyword && s[n] == ' ' && s[n + 1..q] == c && s[q] == ' ' && s[q + 1] == '{'
  {
  }

  /** What the header rule sees in a line laid out as `keyword c {`. */
  lemma HeaderParts(s: string, keyword: string, c: string)
    requires IsWord(keyword) && PlainCondition(c)
    requires var n := |keyword|; var q := n + 1 + |c|;
      |s| == q + 2 && s[..n] == keyword && s[n] == ' ' && s[n + 1..q] == c && s[q] == ' ' && s[q + 1] == '{'
    ensures var n := |keyword|; var q := n + 1 + |c|;
      WordBoundary(s, 0) && At(s, 0, keyword) && n < |s| && IsSpace(s[n]) &&
      SpaceRunEnd(s, n) == n + 1 && FindChar(s, n + 1, '{') == Some(|s| - 1) &&
      TrimEnd(s, n + 1, |s| - 1) == q && s[n + 1..q] == c && '\n' !in s[n + 1..q]
  {
    var n := |keyword|;
    var q := n + 1 + |c|;
    assert IsWordChar(s[0]) by {
      assert s[0] == s[..n][0];
    }
    assert s[n + 1] == c[0];
    SpaceRunEndIs(s, n, n + 1);
    forall k | n + 1 <= k < |s| - 1 ensures s[k] != '{' {
      if k < q {
        assert s[k] == s[n + 1..q][k - (n + 1)];
      }
    }
    FindCharIs(s, n + 1, '{', |s| - 1);
    assert s[q - 1] == c[|c| - 1];
    TrimEndIs(s, n + 1, q, |s| - 1);
  }
}
