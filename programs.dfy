/**
 * Whole translations of small programs, line by line and then assembled:
 * a declaration followed by a `log`, and a counting loop around a `log`.
 */
module ProgramExamples {
  import opened Text
  import opened Patterns
  import opened VarTypes
  import opened Placeholders
  import opened Translator
  import opened LineShapes
  import opened StatementRules

  // ---------------------------------------------------------------------------
  // Lines that need no preparation

  /** A line with no outer whitespace and no `<` is translated as it stands. */
  lemma PrepareTrimmed(line: string)
    requires Trimmed(line) && '<' !in line
    ensures Prepare(line) == line
  {
    StripTrimmed(line);
    UnchangedWithoutSpans(line);
  }

  /** A line with no outer whitespace and no `w` does not use `wait`. */
  lemma NoWait(line: string)
    requires Trimmed(line) && 'w' !in line
    ensures !UsesWait(line)
  {
    StripTrimmed(line);
    SearchAbsent(line, WAIT_WORD, 0, 0);
  }

  /** A word holds no character that is not a word character. */
  lemma WordLacks(v: string, c: char)
    requires IsWord(v) && !IsWordChar(c)
    ensures c !in v
  {
  }

  /** A text none of whose characters is `s` does not contain `stop`. */
  lemma NoStop(s: string)
    requires 's' !in s
    ensures !Contains(s, "stop")
  {
    forall q | 0 <= q < |s| ensures !At(s, q, "stop") {
      NotAt(s, q, "stop", 0);
    }
  }

  // ---------------------------------------------------------------------------
  // `log(v)` for a plain variable

  /**
   * `log(v)`, for a variable `v` that none of the other rules touch, prints
   * `v` followed by `endl`, and declares nothing.
   */
  lemma LogVariable(s: string, v: string, declared: set<string>)
    requires s == "log(" + v + ")" && IsWord(v)
    requires 'e' !in v && 'f' !in v && 'p' !in v && 's' !in v && 'w' !in v && 'T' !in v && 'F' !in v && 'N' !in v
    ensures Translate(s, declared) == (INDENT + "cout << " + v + " << endl;", declared)
  {
    LogIsStatement(s, v);
    LogRewrite(s, v);
    StatementText(s, declared);
    StatementDeclares(s, declared);
    Reassociate(INDENT, "cout << ", v, " << endl;");
  }

  /** A statement declares nothing. */
  lemma StatementDeclares(s: string, declared: set<string>)
    requires Classify(s) == Statement
    ensures Translate(s, declared).1 == declared
  {
    assert Translate(s, declared).1 == Declare(Statement, declared);
  }

  /** Proof step only: regroups a string concatenation so that it matches the form of an ensures. */
  lemma Reassociate(a: string, b: string, c: string, d: string)
    ensures a + (b + c + d) == a + b + c + d
  {
  }

  /** The rewriting rules turn such a `log(v)` into `cout << v << endl;`. */
  lemma LogRewrite(s: string, v: string)
    requires s == "log(" + v + ")" && IsWord(v)
    requires 'e' !in v && 'f' !in v && 'p' !in v && 'w' !in v && 'T' !in v && 'F' !in v && 'N' !in v
    ensures Rewrite(s) == "cout << " + v + " << endl;"
  {
    WordLacks(v, ')');
    WordLacks(v, '\n');
    WordLacks(v, ' ');
    CallLacks(s, v);
    ConditionalsFixed(s);
    AndOrNoSpace(s);
    LogCall(s, v);
    var t := "cout << " + v + " << endl;";
    PrintedTail(t, v);
    assert REPL == [LogEnd, Log] + REPL[2..];
    ApplyAllAppend([LogEnd, Log], REPL[2..], s);
    assert ApplyAll([LogEnd, Log], s) == t;
  }

  /** `log(v)` holds `e`, `f` or a space only where `v` does. */
  lemma CallLacks(s: string, v: string)
    requires s == "log(" + v + ")" && 'e' !in v && 'f' !in v && ' ' !in v
    ensures 'e' !in s && 'f' !in s && ' ' !in s
  {
  }

  /** The rest of the table leaves `cout << v << endl;` alone. */
  lemma PrintedTail(t: string, v: string)
    requires t == "cout << " + v + " << endl;" && IsWord(v)
    requires 'p' !in v && 'w' !in v && 'T' !in v && 'F' !in v && 'N' !in v
    ensures ApplyAll(REPL[2..], t) == t
  {
    WordLacks(v, '+');
    WordLacks(v, '-');
    WordLacks(v, '\'');
    WordLacks(v, '#');
    PrintLacks(t, v, 'p');
    PrintLacks(t, v, 'T');
    PrintLacks(t, v, 'F');
    PrintLacks(t, v, 'N');
    PrintLacks(t, v, 'w');
    PrintLacks(t, v, '+');
    PrintLacks(t, v, '-');
    PrintLacks(t, v, '\'');
    PrintLacks(t, v, '#');
    RestOfTable(t);
  }

  /** `log(v)` is neither a declaration, a loop, a `}` nor a `stop`. */
  lemma LogIsStatement(s: string, v: string)
    requires s == "log(" + v + ")" && 's' !in v
    ensures Classify(s) == Statement
  {
    assert s[..4] == "log(";
    WordRunEndIs(s, 0, 3);
    SpaceRunEndIs(s, 3, 3);
    NotAt(s, 0, "loop {", 2);
    NotAt(s, 0, "loop ", 2);
    assert 's' !in s;
    NoStop(s);
  }

  /** After the `log` rule, the rest of the `repl` table leaves a text without its lead characters alone. */
  lemma RestOfTable(t: string)
    requires 'p' !in t && 'T' !in t && 'F' !in t && 'N' !in t
    requires 'w' !in t && '+' !in t && '-' !in t && '\'' !in t && '#' !in t
    ensures ApplyAll(REPL[2..], t) == t
  {
    var words := [Put, Word("True", "true"), Word("False", "false"), Word("None", "\"none\"")];
    var others := [Wait, Bump('+', "++;"), Bump('-', "--;"), Literal("'", "\""), Literal("#", "//")];
    assert REPL[2..] == words + others;
    WordsFixed(t, words);
    OthersFixed(t, others);
    ApplyAllAppend(words, others, t);
  }

  lemma WordsFixed(t: string, words: seq<Pattern>)
    requires words == [Put, Word("True", "true"), Word("False", "false"), Word("None", "\"none\"")]
    requires 'p' !in t && 'T' !in t && 'F' !in t && 'N' !in t
    ensures ApplyAll(words, t) == t
  {
    PrefixAbsent(t, Put, 0);
    PrefixAbsent(t, Word("True", "true"), 0);
    PrefixAbsent(t, Word("False", "false"), 0);
    PrefixAbsent(t, Word("None", "\"none\""), 0);
    ApplyAllFixed(words, t);
  }

  lemma OthersFixed(t: string, others: seq<Pattern>)
    requires others == [Wait, Bump('+', "++;"), Bump('-', "--;"), Literal("'", "\""), Literal("#", "//")]
    requires 'w' !in t && '+' !in t && '-' !in t && '\'' !in t && '#' !in t
    ensures ApplyAll(others, t) == t
  {
    PrefixAbsent(t, Wait, 0);
    BumpAbsent(t, '+', "++;");
    BumpAbsent(t, '-', "--;");
    PrefixAbsent(t, Literal("'", "\""), 0);
    PrefixAbsent(t, Literal("#", "//"), 0);
    ApplyAllFixed(others, t);
  }

  /** A character outside `v` and outside the fixed parts is not in `cout << v << endl;`. */
  lemma PrintLacks(t: string, v: string, c: char)
    requires t == "cout << " + v + " << endl;" && c !in v
    requires c !in "cout << " && c !in " << endl;"
    ensures c !in t
  {
  }

  // ---------------------------------------------------------------------------
  // The lines of the examples

  /** `name : n`, for an integer literal `n`, as the first binding of `name`: `int name = n;`. */
  lemma DeclareInt(line: string, name: string, n: string, declared: set<string>)
    requires line == name + " : " + n && IsWord(name) && IsIntLit(n) && 'w' !in name && name !in declared
    ensures Entry(declared, line) == INDENT + "int " + name + " = " + n + ";"
    ensures Redeclare(declared, line) == declared + {name}
    ensures !UsesWait(line)
  {
    DeclarePlain(line, name, n);
    PrepareTrimmed(line);
    NoWait(line);
    DeclareClassified(line, name, n);
    FirstAssign(line, name, n, declared);
    IntDeclText(n, name);
    Reassociate5(INDENT, "int ", name, " = ", n, ";");
  }

  /** The first binding of a name declares it with its type. */
  lemma FirstAssign(s: string, name: string, value: string, declared: set<string>)
    requires Classify(s) == Assign(name, value) && name !in declared
    ensures Translate(s, declared) == (INDENT + DeclText(value, name), declared + {name})
  {
    assert Declare(Assign(name, value), declared) == declared + {name};
  }

  /** Proof step only: the same regrouping for six parts. */
  lemma Reassociate5(a: string, b: string, c: string, d: string, e: string, f: string)
    ensures a + (b + c + d + e + f) == a + b + c + d + e + f
  {
  }

  /** Such a line has no outer whitespace, no `<` and no `w`. */
  lemma DeclarePlain(line: string, name: string, n: string)
    requires line == name + " : " + n && IsWord(name) && IsIntLit(n) && 'w' !in name
    ensures Trimmed(line) && '<' !in line && 'w' !in line
  {
    WordLacks(name, '<');
    assert line[0] == name[0] && line[|line| - 1] == n[|n| - 1];
  }

  lemma DeclareClassified(line: string, name: string, n: string)
    requires line == name + " : " + n && IsWord(name) && IsIntLit(n)
    ensures Classify(line) == Assign(name, n)
  {
    assert line == name + " " + ":" + (" " + n);
    DeclLine(name, " ", " " + n);
    assert " " + n == " " + n + "";
    StripIs(" ", n, "");
  }

  lemma IntDeclText(n: string, name: string)
    requires IsIntLit(n)
    ensures DeclText(n, name) == "int " + name + " = " + n + ";"
  {
    IntLaw(n);
  }

  /** The line `log(v)`, for such a variable, as the loop sees it. */
  lemma LogLine(line: string, v: string, declared: set<string>)
    requires line == "log(" + v + ")" && IsWord(v)
    requires 'e' !in v && 'f' !in v && 'p' !in v && 's' !in v && 'w' !in v && 'T' !in v && 'F' !in v && 'N' !in v
    ensures Entry(declared, line) == INDENT + "cout << " + v + " << endl;"
    ensures Redeclare(declared, line) == declared
    ensures !UsesWait(line)
  {
    WordLacks(v, '<');
    assert '<' !in line && 'w' !in line;
    PrepareTrimmed(line);
    NoWait(line);
    LogVariable(line, v, declared);
  }

  /** `loop v for n {` as the first binding of `v`: a counting loop that declares `v`. */
  lemma CountingLoop(line: string, v: string, n: string, declared: set<string>)
    requires line == "loop " + v + " for " + n + " {" && IsWord(v) && IsIntLit(n) && 'w' !in v && v !in declared
    ensures Entry(declared, line) == INDENT + "for (int " + v + " = 0; " + v + " < " + n + "; " + v + "++) {"
    ensures Redeclare(declared, line) == declared + {v}
    ensures !UsesWait(line)
  {
    LoopPlain(line, v, n);
    PrepareTrimmed(line);
    NoWait(line);
    assert line == "loop " + v + " for " + n + " {" + "";
    LoopForLine(v, n, "");
    FirstLoop(line, v, n, declared);
    TypedLoopText(v, n);
  }

  /** The first binding of a loop variable declares it as an `int`. */
  lemma FirstLoop(s: string, v: string, n: string, declared: set<string>)
    requires Classify(s) == ForOpen(v, n) && v !in declared
    ensures Translate(s, declared) == (INDENT + ForText(v, n, true), declared + {v})
  {
    assert Declare(ForOpen(v, n), declared) == declared + {v};
  }

  lemma TypedLoopText(v: string, n: string)
    ensures INDENT + ForText(v, n, true) == INDENT + "for (int " + v + " = 0; " + v + " < " + n + "; " + v + "++) {"
  {
    assert "for (" + "int " == "for (int ";
  }

  /** Such a line has no outer whitespace, no `<` and no `w`. */
  lemma LoopPlain(line: string, v: string, n: string)
    requires line == "loop " + v + " for " + n + " {" && IsWord(v) && IsIntLit(n) && 'w' !in v
    ensures Trimmed(line) && '<' !in line && 'w' !in line
  {
    WordLacks(v, '<');
    assert forall k :: 0 <= k < |n| ==> IsDigit(n[k]);
    assert '<' !in n && 'w' !in n;
  }

  /** `}`: a closing brace. */
  lemma Close(line: string, declared: set<string>)
    requires line == "}"
    ensures Entry(declared, line) == INDENT + "}"
    ensures Redeclare(declared, line) == declared
    ensures !UsesWait(line)
  {
    PrepareTrimmed(line);
    NoWait(line);
    CloseAndStopLines(line, "stop");
  }

  // ---------------------------------------------------------------------------
  // Whole programs

  /** Before the first line: nothing declared, no code, no imports. */
  lemma RunEmpty()
    ensures Run([]) == State({}, [], {})
  {
  }

  /** One more line: its entry is appended and its bindings and imports are noted. */
  lemma RunStep(lines: seq<string>, line: string, st: State, entry: string, declared: set<string>)
    requires Run(lines) == st && Entry(st.declared, line) == entry && Redeclare(st.declared, line) == declared
    requires !UsesWait(line)
    ensures Run(lines + [line]) == State(declared, st.code + [entry], st.imports)
  {
    var all := lines + [line];
    assert all[..|all| - 1] == lines && all[|all| - 1] == line;
    RunLast(all);
  }

  lemma LinesTwo(a: string, b: string)
    ensures Lines([a, b]) == a + "\n" + b + "\n"
  {
    assert [a, b][..1] == [a];
    assert [a][..0] == [];
    assert Lines([a]) == Lines([]) + a + "\n";
    assert Lines([a, b]) == Lines([a]) + b + "\n";
  }

  lemma LinesThree(a: string, b: string, c: string)
    ensures Lines([a, b, c]) == a + "\n" + b + "\n" + c + "\n"
  {
    assert [a, b, c][..2] == [a, b];
    LinesTwo(a, b);
    assert Lines([a, b, c]) == Lines([a, b]) + c + "\n";
  }

  /** With no import used, the program is the prelude, `int main() {`, the entries and the epilogue. */
  lemma NoImportProgram(lines: seq<string>)
    requires Run(lines).imports == {}
    ensures Program(lines, false) == PRELUDE + MAIN_OPEN + Lines(Run(lines).code) + EPILOGUE
  {
    NoImportText(Run(lines));
  }

  /** The assembly of a state with no import. */
  lemma NoImportText(st: State)
    requires st.imports == {}
    ensures Assemble(st) == PRELUDE + MAIN_OPEN + Lines(st.code) + EPILOGUE
  {
    assert ImportText(st.imports) == [];
  }

  /**
   * `name : n` then `log(name)`, as `x : 5` then `log(x)`: the program declares
   * the integer and prints it, with no import.
   */
  lemma DeclareThenLog(lines: seq<string>, name: string, n: string)
    requires lines == [name + " : " + n, "log(" + name + ")"] && IsWord(name) && IsIntLit(n)
    requires 'e' !in name && 'f' !in name && 'p' !in name && 's' !in name && 'w' !in name
    requires 'T' !in name && 'F' !in name && 'N' !in name
    ensures Run(lines).code == [INDENT + "int " + name + " = " + n + ";", INDENT + "cout << " + name + " << endl;"]
    ensures Program(lines, false) ==
      PRELUDE + MAIN_OPEN + (INDENT + "int " + name + " = " + n + ";") + "\n" + (INDENT + "cout << " + name + " << endl;") + "\n" + EPILOGUE
  {
    DeclareThenLogRun(lines, name, n);
    NoImportProgram(lines);
    TwoLineText(Program(lines, false), INDENT + "int " + name + " = " + n + ";", INDENT + "cout << " + name + " << endl;");
  }

  /** The text of a program with two entries and no import. */
  lemma TwoLineText(text: string, a: string, b: string)
    requires text == PRELUDE + MAIN_OPEN + Lines([a, b]) + EPILOGUE
    ensures text == PRELUDE + MAIN_OPEN + a + "\n" + b + "\n" + EPILOGUE
  {
    LinesTwo(a, b);
  }

  /** The text of a program with three entries and no import. */
  lemma ThreeLineText(text: string, a: string, b: string, c: string)
    requires text == PRELUDE + MAIN_OPEN + Lines([a, b, c]) + EPILOGUE
    ensures text == PRELUDE + MAIN_OPEN + a + "\n" + b + "\n" + c + "\n" + EPILOGUE
  {
    LinesThree(a, b, c);
  }

  lemma DeclareThenLogRun(lines: seq<string>, name: string, n: string)
    requires lines == [name + " : " + n, "log(" + name + ")"] && IsWord(name) && IsIntLit(n)
    requires 'e' !in name && 'f' !in name && 'p' !in name && 's' !in name && 'w' !in name
    requires 'T' !in name && 'F' !in name && 'N' !in name
    ensures Run(lines) == State({name}, [INDENT + "int " + name + " = " + n + ";", INDENT + "cout << " + name + " << endl;"], {})
  {
    var decl, call := INDENT + "int " + name + " = " + n + ";", INDENT + "cout << " + name + " << endl;";
    RunEmpty();
    DeclareInt(lines[0], name, n, {});
    RunStep([], lines[0], State({}, [], {}), decl, {name});
    assert [] + [lines[0]] == lines[..1];
    LogLine(lines[1], name, {name});
    RunStep(lines[..1], lines[1], State({name}, [decl], {}), call, {name});
    assert lines[..1] + [lines[1]] == lines;
  }

  /**
   * `loop v for n {`, `log(v)`, `}`, as `loop i for 3 {`, `log(i)`, `}`: a
   * counting loop that declares `v` and prints it on each pass.
   */
  lemma CountAndLog(lines: seq<string>, v: string, n: string)
    requires lines == ["loop " + v + " for " + n + " {", "log(" + v + ")", "}"] && IsWord(v) && IsIntLit(n)
    requires 'e' !in v && 'f' !in v && 'p' !in v && 's' !in v && 'w' !in v
    requires 'T' !in v && 'F' !in v && 'N' !in v
    ensures Run(lines).code ==
      [INDENT + "for (int " + v + " = 0; " + v + " < " + n + "; " + v + "++) {", INDENT + "cout << " + v + " << endl;", INDENT + "}"]
    ensures Program(lines, false) ==
      PRELUDE + MAIN_OPEN + (INDENT + "for (int " + v + " = 0; " + v + " < " + n + "; " + v + "++) {") + "\n" +
      (INDENT + "cout << " + v + " << endl;") + "\n" + (INDENT + "}") + "\n" + EPILOGUE
  {
    CountAndLogRun(lines, v, n);
    NoImportProgram(lines);
    ThreeLineText(Program(lines, false), INDENT + "for (int " + v + " = 0; " + v + " < " + n + "; " + v + "++) {",
                  INDENT + "cout << " + v + " << endl;", INDENT + "}");
  }

  lemma CountAndLogRun(lines: seq<string>, v: string, n: string)
    requires lines == ["loop " + v + " for " + n + " {", "log(" + v + ")", "}"] && IsWord(v) && IsIntLit(n)
    requires 'e' !in v && 'f' !in v && 'p' !in v && 's' !in v && 'w' !in v
    requires 'T' !in v && 'F' !in v && 'N' !in v
    ensures Run(lines) == State({v},
      [INDENT + "for (int " + v + " = 0; " + v + " < " + n + "; " + v + "++) {", INDENT + "cout << " + v + " << endl;", INDENT + "}"], {})
  {
    var head := INDENT + "for (int " + v + " = 0; " + v + " < " + n + "; " + v + "++) {";
    var call, close := INDENT + "cout << " + v + " << endl;", INDENT + "}";
    assert lines[..2] == ["loop " + v + " for " + n + " {", "log(" + v + ")"];
    LoopThenLogRun(lines[..2], v, n);
    Close(lines[2], {v});
    RunStep(lines[..2], lines[2], State({v}, [head, call], {}), close, {v});
    assert lines[..2] + [lines[2]] == lines;
  }

  /** The first two lines of `CountAndLog`: the loop header, then the call. */
  lemma LoopThenLogRun(lines: seq<string>, v: string, n: string)
    requires lines == ["loop " + v + " for " + n + " {", "log(" + v + ")"] && IsWord(v) && IsIntLit(n)
    requires 'e' !in v && 'f' !in v && 'p' !in v && 's' !in v && 'w' !in v
    requires 'T' !in v && 'F' !in v && 'N' !in v
    ensures Run(lines) == State({v},
      [INDENT + "for (int " + v + " = 0; " + v + " < " + n + "; " + v + "++) {", INDENT + "cout << " + v + " << endl;"], {})
  {
    var head := INDENT + "for (int " + v + " = 0; " + v + " < " + n + "; " + v + "++) {";
    var call := INDENT + "cout << " + v + " << endl;";
    RunEmpty();
    CountingLoop(lines[0], v, n, {});
    RunStep([], lines[0], State({}, [], {}), head, {v});
    assert [] + [lines[0]] == lines[..1];
    LogLine(lines[1], v, {v});
    RunStep(lines[..1], lines[1], State({v}, [head], {}), call, {v});
    assert lines[..1] + [lines[1]] == lines;
  }
}
