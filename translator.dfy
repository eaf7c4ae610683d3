/**
 * The translation loop and the code assembly of `compile_lint_to_cpp` in
 * lexer.py.  Each source line is stripped, its interpolation spans are
 * expanded, and it is tried, in order, as a declaration, as one of the block
 * lines, and otherwise rewritten by the conditional, `and`/`or` and `repl`
 * rules.  Two sets are carried from line to line: the declared names and the
 * used imports.
 *
 * `Run` and `Program` specify the translation as a fold over the lines;
 * `Compile` is the loop itself, proved to compute `Program`.
 */
module Translator {
  import opened Text
  import opened Folds
  import opened Patterns
  import opened VarTypes
  import opened Placeholders
  import opened Optimizer

  const INDENT := "    "

  /** The only key of the `imports` table, and the block it pulls in. */
  const WAIT_PATTERN := "\\bwait\\b"
  const WAIT_BLOCK := "#include <thread>\n#include <chrono>\nusing namespace this_thread;\nusing namespace chrono;"
  const IMPORTS: map<string, string> := map[WAIT_PATTERN := WAIT_BLOCK]

  /** The matcher for `WAIT_PATTERN`: the whole word `wait`. */
  const WAIT_WORD: Pattern := Word("wait", "wait")

  const PRELUDE := "#include <iostream>\nusing namespace std;\n"
  const MAIN_OPEN := "int main() {\n"
  const EPILOGUE := "    return 0;\n}\n"

  /** The `repl` table, in dictionary order. */
  const REPL: seq<Pattern> := [
    LogEnd, Log, Put,
    Word("True", "true"), Word("False", "false"), Word("None", "\"none\""),
    Wait,
    Bump('+', "++;"), Bump('-', "--;"),
    Literal("'", "\""), Literal("#", "//")
  ]

  // ---------------------------------------------------------------------------
  // Recognising a line

  /**
   * `re.match(r"(\w+)\s*:\s*(.+)", s)`: the name and the stripped value.
   * When only whitespace follows the colon, `.+` takes back one whitespace
   * character that is not a newline, and the stripped value is empty.
   */
  function MatchDecl(s: string): (r: Option<(string, string)>)
    ensures r.Some? ==>
      (IsWord(r.value.0) && StartsWith(s, r.value.0) && Trimmed(r.value.1) &&
       SpaceRunEnd(s, |r.value.0|) < |s| && s[SpaceRunEnd(s, |r.value.0|)] == ':')
  {
    var e := WordRunEnd(s, 0);
    if e == 0 then None
    else
      var k0 := SpaceRunEnd(s, e);
      if k0 == |s| || s[k0] != ':' then None
      else
        var k := SpaceRunEnd(s, k0 + 1);
        if k < |s| && s[k] != '\n' then Some((s[..e], Strip(s[k..LineEnd(s, k)])))
        else if exists j :: k0 + 1 <= j < k && s[j] != '\n' then Some((s[..e], ""))
        else None
  }

  /** `re.match(r"loop (\w+) for (\d+) {", s)`: the loop variable and the count. */
  function MatchLoopFor(s: string): (r: Option<(string, string)>)
    ensures r.Some? ==> IsWord(r.value.0) && IsIntLit(r.value.1)
    ensures r.Some? ==> StartsWith(s, "loop " + r.value.0 + " for " + r.value.1 + " {")
  {
    if !At(s, 0, "loop ") then None
    else
      var e := WordRunEnd(s, 5);
      if e == 5 || !At(s, e, " for ") then None
      else
        var d := DigitRunEnd(s, e + 5);
        if d == e + 5 || !At(s, d, " {") then None
        else
          var r := Some((s[5..e], s[e + 5..d]));
          assert s[..d + 2] == "loop " + s[5..e] + " for " + s[e + 5..d] + " {";
          r
  }

  /** What a prepared line is, by the first test of the loop that it passes. */
  datatype LineKind =
    | Assign(name: string, value: string)
    | WhileOpen
    | BlockClose
    | ForOpen(name: string, count: string)
    | Break
    | Statement

  function Classify(s: string): LineKind {
    match MatchDecl(s)
    case Some(d) => Assign(d.0, d.1)
    case None =>
      if At(s, 0, "loop {") then WhileOpen
      else if s == "}" then BlockClose
      else match MatchLoopFor(s)
        case Some(f) => ForOpen(f.0, f.1)
        case None => if Contains(s, "stop") then Break else Statement
  }

  /** The name a line binds: a declared variable or a loop variable. */
  function Binds(k: LineKind): Option<string> {
    match k
    case Assign(name, _) => Some(name)
    case ForOpen(name, _) => Some(name)
    case _ => None
  }

  // ---------------------------------------------------------------------------
  // Rewriting a statement

  /** The three conditional-header rules, in order. */
  function Conditionals(s: string): string {
    Sub(Sub(Sub(s, Header("if", "if (")), Header("elif", "else if (")), ElseOpen)
  }

  /** ` and ` and ` or ` between spaces become `&&` and `||`. */
  function AndOr(s: string): string {
    ReplaceAll(ReplaceAll(s, " and ", " && "), " or ", " || ")
  }

  /** A statement line after the conditional, `and`/`or` and `repl` rules. */
  function Rewrite(s: string): string {
    ApplyAll(REPL, AndOr(Conditionals(s)))
  }

  // ---------------------------------------------------------------------------
  // Generated entries

  /** The first binding of `name`: a typed declaration. */
  function DeclText(value: string, name: string): string {
    var tv := GetVarType(value);
    TypeName(tv.0) + " " + name + " = " + tv.1 + ";"
  }

  /** A later binding of `name`: an assignment of the raw value. */
  function AssignText(name: string, value: string): string {
    name + " = " + value + ";"
  }

  /** A counting loop; `typed` when it is the first binding of the loop variable. */
  function ForText(name: string, count: string, typed: bool): string {
    "for (" + (if typed then "int " else "") + name + " = 0; " + name + " < " + count + "; " + name + "++) {"
  }

  /** The entry for a line of kind `k`, before indentation. */
  function Body(k: LineKind, s: string, declared: set<string>): string {
    match k
    case Assign(name, value) => if name !in declared then DeclText(value, name) else AssignText(name, value)
    case WhileOpen => "while (true) {"
    case BlockClose => "}"
    case ForOpen(name, count) => ForText(name, count, name !in declared)
    case Break => "break;"
    case Statement => Rewrite(s)
  }

  /** The names declared once a line of kind `k` is processed. */
  function Declare(k: LineKind, declared: set<string>): (r: set<string>)
    ensures forall n :: n in r <==> n in declared || Binds(k) == Some(n)
  {
    match Binds(k)
    case Some(name) => declared + {name}
    case None => declared
  }

  /** The entry generated for a prepared line, and the declared names after it. */
  function Translate(s: string, declared: set<string>): (r: (string, set<string>))
    ensures StartsWith(r.0, INDENT)
  {
    var k := Classify(s);
    (INDENT + Body(k, s, declared), Declare(k, declared))
  }

  // ---------------------------------------------------------------------------
  // The loop over the lines, as a fold

  datatype State = State(declared: set<string>, code: seq<string>, imports: set<string>)

  /** The text a source line is translated from: stripped, then with its spans expanded as `process_placeholders` does. */
  function Prepare(line: string): string {
    ProcessAsWritten(Strip(line))
  }

  /** `re.search(r"\bwait\b", line.strip())` */
  predicate UsesWait(line: string) {
    Search(Strip(line), WAIT_WORD, 0)
  }

  /** The entry generated for `line` under the names declared before it. */
  function Entry(declared: set<string>, line: string): string {
    Translate(Prepare(line), declared).0
  }

  /** The declared names once `line` is translated. */
  function Redeclare(declared: set<string>, line: string): set<string> {
    Translate(Prepare(line), declared).1
  }

  /** The used imports once `line` is checked for `wait`. */
  function NoteImports(used: set<string>, line: string): set<string> {
    if UsesWait(line) then used + {WAIT_PATTERN} else used
  }

  /** The state after the loop has processed `lines`. */
  function Run(lines: seq<string>): (st: State)
    ensures |st.code| == |lines|
    ensures st.imports <= {WAIT_PATTERN}
  {
    ImportsKnown(lines);
    State(Final(Redeclare, {}, lines), Outputs(Redeclare, Entry, {}, lines), Final(NoteImports, {}, lines))
  }

  /** Only the wait block is ever recorded. */
  lemma {:induction false} ImportsKnown(lines: seq<string>)
    ensures Final(NoteImports, {}, lines) <= {WAIT_PATTERN}
    decreases |lines|
  {
    if lines != [] {
      ImportsKnown(lines[..|lines| - 1]);
    }
  }

  /** The loop body's effect on the state, for the last line. */
  lemma RunLast(lines: seq<string>)
    requires lines != []
    ensures var init, line := lines[..|lines| - 1], lines[|lines| - 1];
      Run(lines) == State(Redeclare(Run(init).declared, line),
                          Run(init).code + [Entry(Run(init).declared, line)],
                          NoteImports(Run(init).imports, line))
  {
  }

  // ---------------------------------------------------------------------------
  // Assembly

  /** The blocks of the used imports, each followed by a newline. */
  function ImportText(used: set<string>): string
    requires used <= {WAIT_PATTERN}
  {
    if WAIT_PATTERN in used then IMPORTS[WAIT_PATTERN] + "\n" else ""
  }

  /** Each entry followed by a newline. */
  function Lines(code: seq<string>): string
    decreases |code|
  {
    if code == [] then "" else Lines(code[..|code| - 1]) + code[|code| - 1] + "\n"
  }

  function Assemble(st: State): string
    requires st.imports <= {WAIT_PATTERN}
  {
    PRELUDE + ImportText(st.imports) + MAIN_OPEN + Lines(st.code) + EPILOGUE
  }

  /** The text `compile_lint_to_cpp` writes for the lines of its input file. */
  function Program(lines: seq<string>, optimization: bool): string {
    var raw := Assemble(Run(lines));
    if optimization then Optimize(raw) else raw
  }

  // ---------------------------------------------------------------------------
  // The loop itself

  /** The statement rules in order: conditionals, `and`/`or`, then the `repl` table entry by entry. */
  method RewriteStatement(line: string) returns (out: string)
    ensures out == Rewrite(line)
  {
    out := Sub(line, Header("if", "if ("));
    out := Sub(out, Header("elif", "else if ("));
    out := Sub(out, ElseOpen);
    out := ReplaceAll(out, " and ", " && ");
    out := ReplaceAll(out, " or ", " || ");
    out := SubEach(REPL, out);
  }

  /** The loop body from the declaration test on: the entry for a prepared line, and the declared names after it. */
  method TranslateLine(stripped: string, declarations: set<string>) returns (entry: string, declared: set<string>)
    ensures (entry, declared) == Translate(stripped, declarations)
  {
    declared := declarations;
    var decl := MatchDecl(stripped);
    if decl.Some? {
      var name, value := decl.value.0, decl.value.1;
      assert Classify(stripped) == Assign(name, value);
      if name !in declared {
        entry := INDENT + DeclText(value, name);
        declared := declared + {name};
      } else {
        entry := INDENT + AssignText(name, value);
        assert declared + {name} == declared;
      }
      return;
    }
    entry, declared := TranslateUndeclared(stripped, declarations);
  }

  /** The rest of the loop body, for a line that is not a declaration. */
  method TranslateUndeclared(stripped: string, declarations: set<string>) returns (entry: string, declared: set<string>)
    requires MatchDecl(stripped).None?
    ensures (entry, declared) == Translate(stripped, declarations)
  {
    declared := declarations;
    if At(stripped, 0, "loop {") {
      assert Classify(stripped) == WhileOpen;
      entry := INDENT + "while (true) {";
      return;
    } else if stripped == "}" {
      assert Classify(stripped) == BlockClose;
      entry := INDENT + "}";
      return;
    }
    var loopFor := MatchLoopFor(stripped);
    if loopFor.Some? {
      var name, count := loopFor.value.0, loopFor.value.1;
      assert Classify(stripped) == ForOpen(name, count);
      if name !in declared {
        entry := INDENT + ForText(name, count, true);
        declared := declared + {name};
      } else {
        entry := INDENT + ForText(name, count, false);
        assert declared + {name} == declared;
      }
      return;
    }
    entry, declared := TranslateOther(stripped, declarations);
  }

  /** The last two branches: `stop` anywhere in the line, or a statement to rewrite. */
  method TranslateOther(stripped: string, declarations: set<string>) returns (entry: string, declared: set<string>)
    requires MatchDecl(stripped).None? && MatchLoopFor(stripped).None?
    requires !At(stripped, 0, "loop {") && stripped != "}"
    ensures (entry, declared) == Translate(stripped, declarations)
  {
    declared := declarations;
    if Contains(stripped, "stop") {
      assert Classify(stripped) == Break;
      entry := INDENT + "break;";
      return;
    }
    assert Classify(stripped) == Statement;
    assert Translate(stripped, declarations) == (INDENT + Rewrite(stripped), declarations);
    var rewritten := RewriteStatement(stripped);
    entry := INDENT + rewritten;
  }

  /** The loop over the lines: the generated entries and the two sets. */
  method TranslateAll(lintCode: seq<string>) returns (declarations: set<string>, cppCode: seq<string>, usedImports: set<string>)
    ensures State(declarations, cppCode, usedImports) == Run(lintCode)
  {
    declarations, cppCode, usedImports := {}, [], {};
    for i := 0 to |lintCode|
      invariant State(declarations, cppCode, usedImports) == Run(lintCode[..i])
    {
      assert lintCode[..i + 1][..i] == lintCode[..i];
      RunLast(lintCode[..i + 1]);
      var entry;
      entry, declarations, usedImports := ProcessLine(lintCode[i], declarations, usedImports);
      cppCode := cppCode + [entry];
    }
    assert lintCode[..|lintCode|] == lintCode;
  }

  /** One pass of the loop body: the import check, then the translation of the prepared line. */
  method ProcessLine(line: string, declarations: set<string>, usedImports: set<string>)
    returns (entry: string, declared: set<string>, used: set<string>)
    ensures entry == Entry(declarations, line)
    ensures declared == Redeclare(declarations, line)
    ensures used == NoteImports(usedImports, line)
  {
    used := usedImports;
    var stripped := Strip(line);
    if Search(stripped, WAIT_WORD, 0) && WAIT_PATTERN !in used {
      used := used + {WAIT_PATTERN};
    }
    stripped := ProcessAsWritten(stripped);
    entry, declared := TranslateLine(stripped, declarations);
  }

  /** `for imp in used_imports: complete_code += imports[imp] + "\n"` */
  method AppendImports(head: string, usedImports: set<string>) returns (completeCode: string)
    requires usedImports <= {WAIT_PATTERN}
    ensures completeCode == head + ImportText(usedImports)
  {
    completeCode := head;
    var pending := usedImports;
    while pending != {}
      invariant pending <= usedImports
      invariant completeCode == head + ImportText(usedImports - pending)
      decreases pending
    {
      var imp :| imp in pending;
      assert imp == WAIT_PATTERN && usedImports - pending == {} && usedImports == {WAIT_PATTERN};
      completeCode := completeCode + IMPORTS[imp] + "\n";
      pending := pending - {imp};
      assert usedImports - pending == usedImports;
    }
    assert usedImports - pending == usedImports;
  }

  /** `for line in cpp_code: complete_code += line + "\n"` */
  method AppendLines(head: string, cppCode: seq<string>) returns (completeCode: string)
    ensures completeCode == head + Lines(cppCode)
  {
    completeCode := head;
    for j := 0 to |cppCode|
      invariant completeCode == head + Lines(cppCode[..j])
    {
      assert cppCode[..j + 1][..j] == cppCode[..j];
      completeCode := completeCode + cppCode[j] + "\n";
    }
    assert cppCode[..|cppCode|] == cppCode;
  }

  /** `compile_lint_to_cpp` without its file handling: the lines in, the program text out. */
  method Compile(lintCode: seq<string>, optimization: bool) returns (completeCode: string)
    ensures completeCode == Program(lintCode, optimization)
  {
    var declarations, cppCode, usedImports := TranslateAll(lintCode);
    completeCode := PRELUDE;
    completeCode := AppendImports(completeCode, usedImports);
    completeCode := completeCode + MAIN_OPEN;
    completeCode := AppendLines(completeCode, cppCode);
    completeCode := completeCode + EPILOGUE;
    if optimization {
      completeCode := Optimize(completeCode);
    }
  }

  // ---------------------------------------------------------------------------
  // Properties of the loop

  /** Entry `i` is the translation of line `i` under the names the lines before it declared. */
  lemma RunEntry(lines: seq<string>, i: nat)
    requires i < |lines|
    ensures Run(lines).code[i] == Translate(Prepare(lines[i]), Run(lines[..i]).declared).0
  {
    OutputAt(Redeclare, Entry, {}, lines, i);
  }

  /** Every entry starts with the indent. */
  lemma EntriesIndented(lines: seq<string>)
    ensures forall k :: 0 <= k < |lines| ==> StartsWith(Run(lines).code[k], INDENT)
  {
    forall k | 0 <= k < |lines| ensures StartsWith(Run(lines).code[k], INDENT) {
      RunEntry(lines, k);
    }
  }

  /** The name a line binds, as a declaration or as a loop variable, if any. */
  function LineBinds(line: string): Option<string> {
    Binds(Classify(Prepare(line)))
  }

  /** What each line binds, line by line. */
  function Bindings(lines: seq<string>): seq<Option<string>> {
    Map(LineBinds, lines)
  }

  /** Some line before `i` binds `n`, as a declaration or as a loop variable. */
  predicate BoundBefore(lines: seq<string>, i: nat, n: string)
    requires i <= |lines|
  {
    Some(n) in Bindings(lines)[..i]
  }

  /** `BoundBefore` read line by line. */
  lemma BoundBeforeIs(lines: seq<string>, i: nat, n: string)
    requires i <= |lines|
    ensures BoundBefore(lines, i, n) <==> exists j :: 0 <= j < i && LineBinds(lines[j]) == Some(n)
  {
    var b := Bindings(lines);
    if BoundBefore(lines, i, n) {
      var j :| 0 <= j < i && b[..i][j] == Some(n);
    }
    if exists j :: 0 <= j < i && LineBinds(lines[j]) == Some(n) {
      var j :| 0 <= j < i && LineBinds(lines[j]) == Some(n);
      assert b[..i][j] == Some(n);
    }
  }

  /** The declared names are exactly the names that some line binds. */
  lemma {:induction false} DeclaredNames(lines: seq<string>, n: string)
    ensures n in Run(lines).declared <==> BoundBefore(lines, |lines|, n)
    decreases |lines|
  {
    if lines != [] {
      var init := lines[..|lines| - 1];
      var x := LineBinds(lines[|lines| - 1]);
      DeclaredNames(init, n);
      RunLast(lines);
      assert n in Run(lines).declared <==> n in Run(init).declared || x == Some(n);
      MapLast(LineBinds, lines);
      assert Bindings(lines)[..|lines|] == Bindings(lines);
      assert Bindings(init)[..|init|] == Bindings(init);
    }
  }

  /**
   * A name gets its type keyword only where it is first bound: a declaration
   * emits `T name = v;` with `(T, v)` from `GetVarType` when no earlier line
   * binds the name, and `name = value;` with the raw value otherwise; a
   * counting loop writes `int name` only for a first binding.
   */
  lemma FirstBinding(lines: seq<string>, i: nat)
    requires i < |lines|
    ensures Classify(Prepare(lines[i])).Assign? ==>
      var k := Classify(Prepare(lines[i]));
      Run(lines).code[i] == INDENT + (if BoundBefore(lines, i, k.name) then AssignText(k.name, k.value) else DeclText(k.value, k.name))
    ensures Classify(Prepare(lines[i])).ForOpen? ==>
      var k := Classify(Prepare(lines[i]));
      Run(lines).code[i] == INDENT + ForText(k.name, k.count, !BoundBefore(lines, i, k.name))
  {
    var k := Classify(Prepare(lines[i]));
    RunEntry(lines, i);
    if k.Assign? || k.ForOpen? {
      DeclaredBefore(lines, i, k.name);
      BindingEntry(Prepare(lines[i]), Run(lines[..i]).declared);
    }
  }

  /** The names declared after the first `i` lines are the names bound before line `i`. */
  lemma DeclaredBefore(lines: seq<string>, i: nat, n: string)
    requires i <= |lines|
    ensures n in Run(lines[..i]).declared <==> BoundBefore(lines, i, n)
  {
    DeclaredNames(lines[..i], n);
    MapPrefix(LineBinds, lines, i);
  }

  /** The entry of a binding line depends on whether its name is already declared. */
  lemma BindingEntry(s: string, declared: set<string>)
    ensures Classify(s).Assign? ==>
      var k := Classify(s);
      Translate(s, declared).0 == INDENT + (if k.name in declared then AssignText(k.name, k.value) else DeclText(k.value, k.name))
    ensures Classify(s).ForOpen? ==>
      var k := Classify(s);
      Translate(s, declared).0 == INDENT + ForText(k.name, k.count, k.name !in declared)
  {
  }

  /** A statement line goes through the rewriting rules, and its entry has no `'` and no `#`. */
  lemma StatementEntry(lines: seq<string>, i: nat)
    requires i < |lines| && Classify(Prepare(lines[i])) == Statement
    ensures Run(lines).code[i] == INDENT + Rewrite(Prepare(lines[i]))
    ensures '\'' !in Run(lines).code[i] && '#' !in Run(lines).code[i]
  {
    var s := Prepare(lines[i]);
    RunEntry(lines, i);
    StatementText(s, Run(lines[..i]).declared);
    IndentedClean(s);
  }

  /** The entry for a statement: the indent, then the rewritten text. */
  lemma StatementText(s: string, declared: set<string>)
    requires Classify(s) == Statement
    ensures Translate(s, declared).0 == INDENT + Rewrite(s)
  {
  }

  lemma IndentedClean(s: string)
    ensures '\'' !in INDENT + Rewrite(s) && '#' !in INDENT + Rewrite(s)
  {
    RewriteClean(s);
  }

  /** After the `repl` table no `'` and no `#` is left: quotes become `"`, then `#` becomes `//`. */
  lemma RewriteClean(s: string)
    ensures '\'' !in Rewrite(s) && '#' !in Rewrite(s)
  {
    var quote := Literal("'", "\"");
    var hash := Literal("#", "//");
    assert REPL == REPL[..9] + [quote, hash];
    ApplyAllAppend(REPL[..9], [quote, hash], AndOr(Conditionals(s)));
    var y := ApplyAll(REPL[..9], AndOr(Conditionals(s)));
    assert [quote, hash][1..] == [hash];
    assert Rewrite(s) == Sub(Sub(y, quote), hash);
    QuotesThenHashes(y);
  }

  /** Quotes become `"`, then `#` becomes `//`: neither is left. */
  lemma QuotesThenHashes(y: string)
    ensures var z := ReplaceAll(y, "'", "\"");
      '\'' !in ReplaceAll(z, "#", "//") && '#' !in ReplaceAll(z, "#", "//")
  {
    var z := ReplaceAll(y, "'", "\"");
    ReplaceAllRemoves(y, '\'', "\"");
    ReplaceAllKeepsOut(z, "#", "//", '\'');
    ReplaceAllRemoves(z, '#', "//");
  }


  /** Which lines use `wait`, line by line. */
  function Waits(lines: seq<string>): seq<bool> {
    Map(UsesWait, lines)
  }

  /** Some line uses `wait` exactly when `Waits` holds a `true`. */
  lemma WaitsIs(lines: seq<string>)
    ensures true in Waits(lines) <==> exists j :: 0 <= j < |lines| && UsesWait(lines[j])
  {
    var w := Waits(lines);
    if true in w {
      var j :| 0 <= j < |w| && w[j];
    }
    if exists j :: 0 <= j < |lines| && UsesWait(lines[j]) {
      var j :| 0 <= j < |lines| && UsesWait(lines[j]);
      assert w[j];
    }
  }

  /** The wait block is used exactly when some stripped line has `wait` as a whole word. */
  lemma WaitImport(lines: seq<string>)
    ensures WAIT_PATTERN in Run(lines).imports <==> exists j :: 0 <= j < |lines| && UsesWait(lines[j])
  {
    WaitsImported(lines);
    WaitsIs(lines);
  }

  lemma {:induction false} WaitsImported(lines: seq<string>)
    ensures WAIT_PATTERN in Run(lines).imports <==> true in Waits(lines)
    decreases |lines|
  {
    if lines != [] {
      var init := lines[..|lines| - 1];
      WaitsImported(init);
      RunLast(lines);
      MapLast(UsesWait, lines);
    }
  }

  /**
   * The assembled text, in order: the prelude, the wait block (once, and only
   * when some line waits), `int main() {`, each entry with its newline, and
   * the epilogue; the optimizer runs on the whole of it.
   */
  lemma ProgramLayout(lines: seq<string>)
    ensures Program(lines, false) ==
      PRELUDE + (if exists j :: 0 <= j < |lines| && UsesWait(lines[j]) then WAIT_BLOCK + "\n" else "") +
      MAIN_OPEN + Lines(Run(lines).code) + EPILOGUE
    ensures Program(lines, true) == Optimize(Program(lines, false))
  {
    WaitImport(lines);
  }
}
