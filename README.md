# Lint-to-C++ translator (lexer.py), modelled in Dafny

`lexer.py` translates the line-oriented "lint" language into C++ source text.
It strips each source line and notes whether the line uses `wait`. It then
rewrites the `<expr>` interpolation spans with `process_placeholders`, exactly
as that function is written (see Findings), and dispatches the line. The first
rule that applies decides the entry:

- a declaration `name: value`;
- the block lines `loop {`, `}` and `loop v for N {`;
- any line containing `stop`;
- otherwise a statement, which goes through the conditional-header rules,
  the ` and `/` or ` rewrite and the ordered replacement table `repl`.

Every entry is indented by four spaces. The entries are then assembled
between a fixed prelude, the import blocks that were used, `int main() {`
and the closing lines. When `optimization` is set, the whole text finally
goes through `optimize_cpp_code`, an ordered list of whole-text
substitutions.

The model is organised by the program's own parts:

- `text.dfy` (`Text`): ASCII character classes (`\s`, `\w`, `\d`), greedy
  runs, `str.strip`, `in`, `\b`.
- `patterns.dfy` (`Patterns`): the regular expressions of the `repl` and
  `imports` tables, of the conditional rules, of `process_placeholders` and of
  `optimize_cpp_code` are constructors of `Pattern`, with a hand-written
  matcher (`MatchAt`). The two `re.match` patterns of the loop are the
  functions `Translator.MatchDecl` and `Translator.MatchLoopFor`. The integer
  and float tests of `get_var_type` are `VarTypes.IsIntLit` and
  `VarTypes.IsFloatLit`. `re.sub`
  and `str.replace` are one leftmost, non-overlapping, left-to-right
  substitution (`Sub`), built on a generic core (`Substitute`) over any
  matcher. `ApplyAll` and the loop `SubEach` apply an ordered list of
  patterns.
- `vartypes.dfy` (`VarTypes`): `get_var_type`.
- `placeholders.dfy` (`Placeholders`): `process_placeholders`, as written and
  as intended.
- `optimizer.dfy` (`Optimizer`): `optimize_cpp_code` and its step-by-step
  properties.
- `folds.dfy` (`Folds`): a generic map and a generic left fold with outputs,
  used to state what the translation loop computes.
- `translator.dfy` (`Translator`):
  - the line dispatch (`Classify`, `Translate`) and the fold `Run` over the
    two sets and the output list;
  - the assembly (`Program`);
  - the imperative `compile_lint_to_cpp` (`Compile`, `TranslateAll` and the
    methods under them), each proved equal to those functions.
- `shapes.dfy` (`LineShapes`): what the dispatch and the header rules do to
  each line shape of the language.
- `rules.dfy` (`StatementRules`): what the conditional rules, the
  `and`/`or` replacements, the `log` rule and the `stop` test do to typical
  lines.
- `programs.dfy` (`ProgramExamples`): whole lines and whole programs through
  the loop and the assembly, such as `x : 5` then `log(x)`, and
  `loop i for 3 {`, `log(i)`, `}`.

The optimizer is sometimes described as idempotent, meaning a second run over its own output changes nothing. The code is not idempotent, and the model follows the code. The include step adds a newline after each directive. On the next run the whitespace step turns that newline into a space, and the include step adds another newline. `Optimizer.OptimizeNotIdempotent` proves this on `#include <a>`.

The file-system side of `compile_lint_to_cpp` is left out. The source lines
become a `seq<string>` parameter, and the result is the returned text. The
module-level `optimization` flag becomes a parameter of `Compile` and
`Program`.

## Model

| member | source | states |
|---|---|---|
| VarTypes.GetVarType | lexer.py:35-62 | The returned value is the stripped input, re-quoted only when it is single-quoted. The tag is `int` exactly when that value is all digits, and `float` exactly when it is digits, a dot, digits. It is `string` exactly when it is double-quoted, and `bool` exactly when it is `true` or `false`. It is `list` or `set` exactly when it is bracket- or brace-delimited, and `auto` exactly when none of these tests holds. |
| VarTypes.Requote | lexer.py:39-40 | A single-quoted value becomes double-quoted around the same inner text (a lone `'` becomes `""`); any other value is unchanged |
| VarTypes.ClassifyTrimmed | lexer.py:36-40 | On a value without outer whitespace, the returned value is that value re-quoted |
| VarTypes.StripInvariant | lexer.py:36 | Classifying a stripped value gives the same tag and value as classifying the unstripped one |
| VarTypes.IntLaw | lexer.py:43-44 | Digits are classified `int`, value unchanged |
| VarTypes.FloatLaw | lexer.py:46-47 | Digits, `.`, digits are classified `float`, value unchanged |
| VarTypes.DoubleQuotedLaw | lexer.py:49-50 | Any double-quoted text is classified `string`, value unchanged |
| VarTypes.SingleQuotedLaw | lexer.py:39-50 | A single-quoted text `'x'` is classified `string` with the value `"x"` |
| VarTypes.BoolLaw | lexer.py:52-53 | `true` and `false` are classified `bool` |
| VarTypes.CollectionLaw | lexer.py:55-59 | `[x]` is classified `list` and `{x}` is classified `set`, values unchanged, whatever `x` is |
| Placeholders.UnchangedWithoutSpans | lexer.py:65-71 | A line in which no `<` is followed later by a `>` is returned unchanged, by the code as written and by the single-pass expansion |
| Placeholders.FindAllEmpty | lexer.py:67 | On a line where no `<` is followed later by a `>`, the search for `<(.*?)>` finds no span from any position |
| Placeholders.ExpandFirstSpan | lexer.py:67-70 | The first span `<m>` from `p` on, where `m` ends at the first following `>` on the line, becomes `" << m << "`. The text before the span is copied unchanged, and the expansion continues right after the span. |
| Placeholders.SpanAt | lexer.py:67 | `<(.*?)>` matches at a `<` exactly up to the first following `>` on the line, with the text in between as the group |
| Placeholders.NoSpanBefore | lexer.py:67 | No span starts at a `<` that no `>` follows on its line |
| Placeholders.AsWrittenDiffers | lexer.py:67-70 | On `<>>< ">` the function as written and the single-pass expansion give different lines |
| Placeholders.ExampleSpans | lexer.py:67 | `re.findall` finds the two spans `""` and ` "` in `<>>< ">` |
| Placeholders.ExampleFirstReplace | lexer.py:70 | The first `str.replace` turns `<>>< ">` into `" <<  << ">< ">` |
| Placeholders.ExampleSecondReplace | lexer.py:70 | The second `str.replace` then rewrites a `< ">` that straddles the first replacement, giving 31 characters |
| Placeholders.ExampleExpansion | lexer.py:67-70 | The single-pass expansion of `<>>< ">` has 23 characters |
| Patterns.MatchAt | lexer.py:9-27 | A match of any pattern of the tables ends inside the text. A whitespace, token or shrinking literal pattern never replaces a match with a longer text. |
| Patterns.SubFromStep | lexer.py:105 | One step of `re.sub`: a match at the scan position is replaced and skipped as a whole; otherwise one character is copied |
| Patterns.SubFromSkip | lexer.py:105 | Positions where the pattern does not match are copied unchanged |
| Patterns.SubNoMatch | lexer.py:105 | A text the pattern never matches is returned unchanged |
| Patterns.SubFromShrinks | lexer.py:80-98 | A substitution whose replacements are never longer than their matches never lengthens the text |
| Patterns.SubFromRemoves | lexer.py:26-27 | If every occurrence of a character is matched and no replacement contains it, the result does not contain it |
| Patterns.ReplaceAllRemoves | lexer.py:26-27 | Replacing a character by a text without it leaves none of it |
| Patterns.ReplaceAllKeepsOut | lexer.py:26-27 | A character absent from the text and from the replacement stays absent |
| Patterns.ApplyAllAppend | lexer.py:104-105 | Applying an ordered list of patterns is applying its first part, then its second part |
| Patterns.ApplyAllFixed | lexer.py:104-105 | Patterns that each leave a text unchanged leave it unchanged when applied in turn |
| Patterns.SubEach | lexer.py:179-180 | The loop over an ordered pattern list, reassigning the line, yields the patterns applied in list order |
| Patterns.Search | lexer.py:128 | `re.search` succeeds exactly when the pattern matches at some position |
| Text.ContainsFrom | lexer.py:165 | `t in s` holds exactly when `t` occurs in `s` at some position |
| Text.StripIdempotent | lexer.py:124 | Stripping twice is stripping once |
| Text.StripAfterSpaces | lexer.py:124 | Dropping leading whitespace does not change the strip |
| Text.StripIs | lexer.py:124 | Whitespace, a text without outer whitespace, whitespace: the strip is the middle part |
| Optimizer.CollapseSpaces | lexer.py:80 | After the first step every whitespace character is a space and no two whitespace characters are adjacent |
| Optimizer.CollapseFrom | lexer.py:80 | The same for the substitution from any position, whose first character is kept when it is not whitespace |
| Optimizer.TightStep | lexer.py:82-87 | After the `{`, `}`, `(`, `)` or `;` step no whitespace is next to that token, and the step only deleted whitespace |
| Optimizer.TightFrom | lexer.py:82-87 | The same for the substitution from any position |
| Optimizer.ErasedAroundToken | lexer.py:82-87 | Replacing whitespace, token, whitespace by the token deletes only whitespace |
| Optimizer.ApplyAllShrinks | lexer.py:104-105 | Steps that never lengthen their matches, applied in order, never lengthen the text |
| Optimizer.FirstStepsShrink | lexer.py:79-98 | The thirteen steps before the include step never make the text longer |
| Optimizer.IncludeStep | lexer.py:99 | The include step only inserts a `\n` after some `>` characters and changes nothing else |
| Optimizer.IncludeFrom | lexer.py:99 | The same for the substitution from any position |
| Optimizer.GtDirective | lexer.py:99 | A directive ending in `>` followed by `\n` is that directive with one newline inserted |
| Optimizer.GtLonger | lexer.py:99 | Inserting newlines never shortens the text |
| Optimizer.IncludeNotIdempotent | lexer.py:99 | On a text that opens with `#include <…>`, the include step applied twice differs from once |
| Optimizer.OptimizeNotIdempotent | lexer.py:79-105 | The whole optimizer is not idempotent. `#include <a>` becomes `#include <a>\n` on the first pass and `#include <a>\n ` on the second. |
| Optimizer.QuietOptimize | lexer.py:79-105 | When the text left by the whitespace step has no `{`, `}`, `(`, `)`, `;` or `"` and no space-led operator pattern, the optimizer is the whitespace step followed by the include step |
| Optimizer.QuietSteps | lexer.py:82-97 | Steps 2 to 13 leave such a text unchanged |
| Translator.MatchDecl | lexer.py:135-138 | A declaration match yields a word that starts the line, followed by optional whitespace and a colon, and a value without outer whitespace |
| Translator.MatchLoopFor | lexer.py:156-158 | A counting-loop match yields a word and a digit string, and the line starts with `loop <word> for <digits> {` |
| Translator.Declare | lexer.py:141-163 | The declared set after a line is the one before plus exactly the name the line binds, if any |
| Translator.Translate | lexer.py:134-182 | Every entry starts with four spaces |
| Translator.Run | lexer.py:119-182 | The loop yields exactly one entry per source line, and the only import it can record is the `wait` block |
| Translator.RunEntry | lexer.py:123-182 | Entry `i` is the translation of line `i` against the names declared by the lines before it. The line is stripped and then rewritten by `process_placeholders` as written, both by `Prepare`. |
| Translator.EntriesIndented | lexer.py:143-182 | Every generated entry starts with four spaces |
| Translator.ImportsKnown | lexer.py:127-129 | The recorded imports are at most the `wait` pattern |
| Translator.DeclaredNames | lexer.py:141-163 | A name is in the declared set exactly when some line binds it, by a declaration or a counting loop |
| Translator.DeclaredBefore | lexer.py:141-163 | The same for the lines before line `i` |
| Translator.BoundBeforeIs | lexer.py:141-163 | "Bound before line `i`" means some earlier line binds the name |
| Translator.FirstBinding | lexer.py:141-163 | A declaration emits `T name = v;` when its name was not bound by an earlier line, and `name = value;` otherwise. A counting loop emits `for (int v = 0; …)` or `for (v = 0; …)` by the same test. |
| Translator.StatementEntry | lexer.py:169-182 | A statement line's entry is four spaces and the rewritten line, and it contains no `'` and no `#` |
| Translator.IndentedClean | lexer.py:178-182 | The indented rewritten line contains no `'` and no `#` |
| Translator.RewriteClean | lexer.py:26-27 | After the replacement table the line contains no `'` and no `#` |
| Translator.QuotesThenHashes | lexer.py:26-27 | Replacing `'` by `"` and then `#` by `//` leaves neither character |
| Translator.WaitImport | lexer.py:127-129 | The `wait` block is recorded exactly when some stripped source line contains `wait` as a whole word |
| Translator.WaitsImported | lexer.py:127-129 | The same, stated over the per-line flags |
| Translator.WaitsIs | lexer.py:127-129 | Some per-line flag is set exactly when some line uses `wait` |
| Translator.ProgramLayout | lexer.py:185-200 | The text is the prelude, then the `wait` block once if some line uses `wait`, then `int main() {`, each entry followed by a newline, and `    return 0;\n}\n`. With optimization it is the optimizer applied to that text. |
| Translator.Compile | lexer.py:119-200 | The imperative compilation returns the assembled program of the fold, optimized when the flag is set. Each line is stripped and goes through `process_placeholders` as written. |
| Translator.TranslateAll | lexer.py:119-182 | The loop's declared set, entry list and import set equal the fold over the lines, whose lines are prepared by `process_placeholders` as written |
| Translator.ProcessLine | lexer.py:124-182 | One iteration computes that line's entry, declared set and import set: the `wait` check on the stripped line, then `process_placeholders` as written, then the dispatch |
| Translator.TranslateLine | lexer.py:134-182 | The dispatch of one prepared line equals `Translate` |
| Translator.TranslateUndeclared | lexer.py:149-182 | The dispatch after the declaration test equals `Translate` |
| Translator.TranslateOther | lexer.py:165-182 | The `stop` branch and the statement branch equal `Translate` |
| Translator.RewriteStatement | lexer.py:169-180 | The header rules, `and`/`or` and the table loop compute `Rewrite` |
| Translator.AppendImports | lexer.py:188-189 | Appending the used import blocks, each followed by a newline |
| Translator.AppendLines | lexer.py:194-195 | Appending each entry followed by a newline |
| Folds.OutputAt | lexer.py:123-182 | Output `i` of a fold is computed from the state after the first `i` inputs and input `i` |
| Folds.MapLast | lexer.py:123 | A per-line map over a sequence extends by the last element |
| LineShapes.DeclLine | lexer.py:135-138 | `name`, optional whitespace, `:` and a one-line value is a declaration of `name` with the stripped value |
| LineShapes.DeclMatch | lexer.py:135-138 | The declaration regex reads that name and the stripped value |
| LineShapes.DeclMatchAt | lexer.py:135-138 | After a word, optional whitespace, `:` and optional whitespace, a value that starts before the end of the line is read as the stripped rest of that line |
| LineShapes.DeclMatchBlank | lexer.py:135-138 | When only whitespace follows the colon and its first character is not a newline, the line is a declaration with an empty value |
| LineShapes.LoopForLine | lexer.py:156-158 | `loop v for N {…` is a counting loop over `v` and `N`, whatever follows |
| LineShapes.LoopNotDecl | lexer.py:135-138 | A line starting `loop ` and a word character is never a declaration |
| LineShapes.WhileLine | lexer.py:150-151 | A line starting `loop {` opens an endless loop |
| LineShapes.CloseAndStopLines | lexer.py:153-166 | The lone line `}` closes a block and the line `stop` is a break. Lines that merely contain `stop` are covered by `StatementRules.StopLine`, `StatementRules.LoopStop` and `StatementRules.StopInString`. |
| LineShapes.IfHeader | lexer.py:170 | `if c {` becomes `if (c) {` |
| LineShapes.ElifHeader | lexer.py:170-172 | `elif c {` goes through the three header rules as `else if (c) {`, not re-parenthesised by the `if` rule, for a condition `c` in which no whole word `if` is followed by whitespace |
| LineShapes.IfRuleSkips | lexer.py:170 | The `if` rule leaves `elif c {` unchanged when no whole word `if` followed by whitespace occurs in `c` |
| LineShapes.ElifRule | lexer.py:171 | The `elif` rule rewrites all of `elif c {` |
| LineShapes.ElseRuleSkips | lexer.py:172 | The `else` rule leaves `else if (c) {` unchanged |
| LineShapes.HeaderAt | lexer.py:170-171 | The header rule matches the whole line `keyword c {` and replaces it with the opening, `c` and `) {` |
| LineShapes.ElifDiff | lexer.py:170-172 | `elif diff > 0 {` becomes `else if (diff > 0) {` |
| LineShapes.ElifNotify | lexer.py:170-172 | `elif notify {` becomes `else if (notify) {`: the `if` inside `notify` is not a whole word |
| StatementRules.ConditionalsFixed | lexer.py:170-172 | A line with no `f` and no `e` is left unchanged by the three conditional rules |
| StatementRules.AndOrNoSpace | lexer.py:175-176 | A line without spaces is left unchanged by the `and`/`or` replacements, so `band` and `(a)and(b)` stay as they are |
| StatementRules.AndJoin | lexer.py:175-176 | `a and b` becomes `a && b` when `a` and `b` have no spaces |
| StatementRules.OrJoin | lexer.py:175-176 | `a or b` becomes `a`, the C++ logical-or operator (two vertical bars) and `b`, between single spaces, when `a` and `b` have no spaces |
| StatementRules.ElseJoin | lexer.py:172 | The whole word `else`, any whitespace, then `{` becomes `else {`, and the rest of the line is unchanged, when nothing else in it starts with `e` |
| StatementRules.ElifSkipsElse | lexer.py:171 | The `elif` rule leaves such an `else` line unchanged |
| StatementRules.ElseLine | lexer.py:170-172 | Of the three conditional rules only the `else` rule changes such a line, when it also has no `i` outside `else` |
| StatementRules.ElseExample | lexer.py:170-172 | `}else   {` becomes `}else {` |
| StatementRules.LogCall | lexer.py:9-10 | On `log(v)`, with no `)` or newline in `v`, the `log(...).end` rule finds nothing and the `log` rule gives `cout << v << endl;` |
| StatementRules.NoLogEndClose | lexer.py:9 | When the line's only `)` is its last character, no `)` is followed by another character, so `.end` cannot match |
| StatementRules.StopLine | lexer.py:135-166 | A line that is not a declaration, does not start with `loop {`, is not the lone `}`, is no counting loop and contains `stop` anywhere becomes `    break;` and declares nothing. This includes lines such as `loop stop` that start with `loop ` but open no loop. |
| StatementRules.LoopStop | lexer.py:149-166 | `loop stop` starts with `loop ` but is neither `loop {` nor a counting loop, so it becomes `    break;` |
| StatementRules.StopInString | lexer.py:135-166 | `log("stopwatch")` becomes `    break;`, although its `stop` is inside a string |
| Patterns.PrefixMatch | lexer.py:9-27 | A match of a pattern starts with that pattern's fixed leading text |
| Patterns.PrefixAbsent | lexer.py:179-180 | A pattern one of whose leading characters the line does not contain leaves the line unchanged |
| Patterns.SearchAbsent | lexer.py:128 | `re.search` finds no such pattern in the line |
| Patterns.BumpAbsent | lexer.py:22-23 | The `+= 1` or `-= 1` rule leaves a line without its operator unchanged |
| Patterns.ReplaceAbsent | lexer.py:175-176 | `str.replace` on a line where the needle does not occur returns the line unchanged |
| Patterns.ReplaceOnce | lexer.py:175-176 | `str.replace` on `a + needle + b`, where the needle's first character is in neither `a` nor `b`, gives `a + rep + b` |
| ProgramExamples.PrepareTrimmed | lexer.py:124-132 | A line with no outer whitespace and no `<` reaches the dispatch unchanged |
| ProgramExamples.NoWait | lexer.py:127-129 | A stripped line without `w` does not pull in the `wait` block |
| ProgramExamples.NoStop | lexer.py:165 | A line without `s` does not contain `stop` |
| ProgramExamples.LogIsStatement | lexer.py:135-166 | `log(v)`, with no `s` in `v`, is not a declaration, a loop, a `}` or a `stop` line, so it is a statement |
| ProgramExamples.StatementDeclares | lexer.py:169-182 | A statement declares no name |
| ProgramExamples.LogRewrite | lexer.py:169-180 | The conditional, `and`/`or` and `repl` rules turn `log(v)`, for a word `v` that no other rule touches, into `cout << v << endl;` |
| ProgramExamples.RestOfTable | lexer.py:11-27 | The `repl` entries after the `log` rules leave a line alone when it has none of their leading characters (`p`, `T`, `F`, `N`, `w`, `+`, `-`, `'`, `#`) |
| ProgramExamples.LogVariable | lexer.py:134-182 | The entry for `log(v)` is `    cout << v << endl;`, and no name is declared |
| ProgramExamples.LogLine | lexer.py:123-182 | Through one pass of the loop, `log(v)` gives `    cout << v << endl;`, declares nothing and uses no import |
| ProgramExamples.FirstAssign | lexer.py:141-144 | The first binding of a name emits its typed declaration and adds the name to the declared set |
| ProgramExamples.DeclareInt | lexer.py:123-147 | Through one pass of the loop, `name : n` for digits `n` and an undeclared `name` gives `    int name = n;`, declares `name` and uses no import |
| ProgramExamples.FirstLoop | lexer.py:156-161 | The first binding of a loop variable emits `for (int v = 0; …)` and adds `v` to the declared set |
| ProgramExamples.CountingLoop | lexer.py:156-164 | Through one pass of the loop, `loop v for n {` for an undeclared `v` gives `    for (int v = 0; v < n; v++) {`, declares `v` and uses no import |
| ProgramExamples.Close | lexer.py:153-155 | Through one pass of the loop, `}` gives `    }`, declares nothing and uses no import |
| ProgramExamples.RunStep | lexer.py:123-182 | A further line that does not use `wait` appends its entry, updates the declared set and leaves the imports as they were |
| ProgramExamples.NoImportProgram | lexer.py:185-197 | With no import used, the program is the prelude, `int main() {`, each entry with a newline, and `    return 0;\n}\n` |
| ProgramExamples.DeclareThenLog | lexer.py:119-197 | The two lines `name : n` and `log(name)`, as in `x : 5` and `log(x)`, give the entries `    int name = n;` and `    cout << name << endl;`, and the whole unoptimized program text around them |
| ProgramExamples.CountAndLog | lexer.py:119-197 | The three lines `loop v for n {`, `log(v)` and `}`, as in `loop i for 3 {`, `log(i)`, `}`, give a counting loop that prints `v`, and the whole unoptimized program text around it |
| Optimizer.Optimize | lexer.py:73-107 | The fourteen substitutions in order. Their properties are stated by `Optimizer.CollapseSpaces`, `Optimizer.TightStep`, `Optimizer.FirstStepsShrink`, `Optimizer.IncludeStep`, `Optimizer.QuietOptimize` and `Optimizer.OptimizeNotIdempotent`. |
| Placeholders.ProcessAsWritten | lexer.py:65-71 | `re.findall` of the spans, then one `str.replace` per span on the whole line. Stated by `Placeholders.UnchangedWithoutSpans`, `Placeholders.ExampleSpans`, `Placeholders.ExampleFirstReplace`, `Placeholders.ExampleSecondReplace` and `Placeholders.AsWrittenDiffers`. |
| Placeholders.ExpandPlaceholders | lexer.py:65-71 | The corrected single-pass expansion of the Findings. Stated by `Placeholders.ExpandFirstSpan`, `Placeholders.UnchangedWithoutSpans` and `Placeholders.ExampleExpansion`. |
| Translator.Classify | lexer.py:134-167 | The dispatch order: declaration, `loop {`, `}`, counting loop, `stop`, statement. Stated by `LineShapes.DeclLine`, `LineShapes.WhileLine`, `LineShapes.LoopForLine`, `LineShapes.CloseAndStopLines`, `StatementRules.StopLine` and `ProgramExamples.LogIsStatement`. |
| Translator.Body | lexer.py:141-182 | The entry text per kind of line. Stated by `Translator.FirstBinding`, `Translator.StatementEntry`, `ProgramExamples.FirstAssign` and `ProgramExamples.FirstLoop`. |
| Translator.Conditionals | lexer.py:170-172 | The `if`, `elif` and `else` rules in order. Stated by `LineShapes.IfHeader`, `LineShapes.ElifHeader`, `StatementRules.ElseLine` and `StatementRules.ConditionalsFixed`. |
| Translator.AndOr | lexer.py:175-176 | The two `str.replace` calls. Stated by `StatementRules.AndJoin`, `StatementRules.OrJoin` and `StatementRules.AndOrNoSpace`. |
| Translator.Rewrite | lexer.py:169-180 | The statement rules in order. Stated by `Translator.RewriteClean` and `ProgramExamples.LogRewrite`. |
| Translator.Prepare | lexer.py:124-132 | `strip`, then `process_placeholders` as written. Stated by `ProgramExamples.PrepareTrimmed`. |
| Translator.Assemble | lexer.py:185-197 | The program text around the entries. Stated by `Translator.ProgramLayout` and `ProgramExamples.NoImportProgram`. |
| Translator.Program | lexer.py:185-200 | The text that is written, optimized when the flag is set. Stated by `Translator.ProgramLayout`, `Translator.Compile`, `ProgramExamples.DeclareThenLog` and `ProgramExamples.CountAndLog`. |
| Patterns.Sub | lexer.py:105 | `re.sub` of one pattern. Stated by `Patterns.SubFromStep`, `Patterns.SubFromSkip`, `Patterns.SubNoMatch`, `Patterns.SubFromShrinks`, `Patterns.SubFromRemoves` and `Patterns.PrefixAbsent`. |
| Patterns.ReplaceAll | lexer.py:175-176 | `str.replace`. Stated by `Patterns.ReplaceOnce`, `Patterns.ReplaceAbsent`, `Patterns.ReplaceAllRemoves` and `Patterns.ReplaceAllKeepsOut`. |
| Text.Strip | lexer.py:124 | `str.strip`. Stated by `Text.StripIs`, `Text.StripIdempotent` and `Text.StripAfterSpaces`. |

## Left out

- File handling: the existence check, reading, writing and the final message (lexer.py:111-116, 203-206). The lines are a parameter and the program text is the result.
- The module-level `optimization` flag (lexer.py:4) is a parameter of `Translator.Compile` and `Translator.Program`, not global state.
- Python's Unicode `\s`, `\w`, `\d` and `str.strip`. The model uses ASCII: `\s` is space, tab, newline, carriage return, vertical tab and form feed, and `\w` is letters, digits and `_`.
- The iteration order of `used_imports` (lexer.py:188). There is a single import pattern, so at most one block is emitted; the set is kept, but only that case is modelled.
- The general regular-expression engine. Each fixed pattern of lexer.py has its own matcher, including the backtracking cases the patterns can reach.
- Patterns.MatchAt: its contract states only where a match ends and that shrinking patterns do not lengthen. What each pattern matches is stated by the lemmas of `LineShapes`, `Placeholders` and `Optimizer`, and for the other patterns only by their definitions.
- Optimizer.IncludeStep: states that the step only inserts a newline after `>` characters. It does not state that these are exactly the ends of the `#include <…>` directives.
- LineShapes.ElifHeader: requires that no whole word `if` followed by whitespace occurs in the condition. For such a condition the `if` rule does rewrite the line, and the lemma does not say what it becomes.
- Translator.Translate: its own contract states only the indentation. What each kind of line produces is stated by `Translator.FirstBinding`, `Translator.StatementEntry`, the `LineShapes` lemmas and the `StatementRules` and `ProgramExamples` lemmas.
- Translator.MatchDecl: its contract states the shape of a match, not when a match exists. `LineShapes.DeclMatch`, `LineShapes.DeclMatchAt` and `LineShapes.DeclMatchBlank` state when it does.
- Translator.MatchLoopFor: its contract states the shape of a match, not when a match exists. `LineShapes.LoopForLine` states when it does.
- ProgramExamples.DeclareThenLog and ProgramExamples.CountAndLog: they are stated for any variable name and any digit string, with `x : 5`/`log(x)` and `loop i for 3 {`/`log(i)`/`}` as instances. The name may not contain the letters that other rules react to (`e`, `f`, `p`, `s`, `w`, `T`, `F`, `N`). They give the unoptimized text; the optimized one is `Optimizer.Optimize` of it (`Translator.ProgramLayout`) and is not written out.
- ProgramExamples.LogVariable and ProgramExamples.LogLine: they cover `log(v)` for such variable names only. For other arguments, the rules that then apply are stated one by one (`StatementRules`, `Translator.RewriteClean`).
- StatementRules.ElseJoin and StatementRules.ElseLine: they cover lines in which no other character is an `e` (and, for `ElseLine`, an `i`). Lines with more keywords go through the same rules, but no lemma states their result.
- StatementRules.AndJoin and StatementRules.OrJoin: they cover one ` and ` or ` or ` between operands without spaces.
- LineShapes.DeclLine and LineShapes.LoopForLine: they cover the single-line shapes of the language. Lines with embedded newlines are covered only by `Translator.MatchDecl` and `Translator.MatchLoopFor` themselves.

## Findings

| source | as written | input that shows it | evidently intended | confidence | as-written member | corrected member |
|---|---|---|---|---|---|---|
| lexer.py:67-70 | Collects the spans first, then rewrites each span's text with `str.replace` on the whole, already partly rewritten line, so a later replacement can hit text produced by an earlier one | `<>>< ">`: the second `str.replace` also rewrites a `< ">` formed by the end of the first replacement and the original `>` | Every span `<m>` is expanded once, left to right, and text outside the spans is untouched | not executed | Placeholders.AsWrittenDiffers | Placeholders.ExpandFirstSpan |

The translator keeps the code as written: `Translator.Prepare` uses `Placeholders.ProcessAsWritten`. `Placeholders.ExpandPlaceholders` is the corrected expansion, and `Placeholders.ExpandFirstSpan` states the intended property for it.
