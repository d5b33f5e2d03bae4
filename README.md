# Semantic analyzer of a toy statement language, in Dafny

This project models the semantic analyzer in `sematic.py`. The analyzer
takes a batch of statement records. Each record is an assignment
(name, declared type, value) or a print (name). The analyzer does three
things:

- It keeps a **symbol table** that maps each declared name to its type and
  value. A name may be declared only once. A name must be declared before
  it is printed.
- It **type-checks** the right-hand side of an assignment when that side
  is an expression node. The check uses a fixed rule table over `int`,
  `float` and `str` with the operators `+ - * /`. The checked type
  replaces the statement's type.
- It reports a duplicate declaration or an undeclared name, naming the
  variable but not the line, and carries on with the next statement. The
  model tags each diagnostic with its statement's 1-based line, the loop
  counter of `analyze`.
- A type mismatch is different in the code as written: building its
  message raises an error that the statement loop does not catch, so the
  first mismatch ends the whole analysis (see Findings). `Analysis.Run` and
  `Analyzer.SemanticAnalyzer.Analyze` model the evidently intended
  behaviour, where a mismatch is reported like the other errors and
  analysis goes on. `Findings.RunAsWritten` models the code as written.
- A separate pass then builds one tree node per statement.

Modules, leaves first:

- `Types` (`types.dfy`): type tags, operators, statement records, tree
  nodes and error kinds.
- `TypeRules` (`type_rules.dfy`): the operator rule table (`type_check`).
  It is written as branches and again as the list of accepted rows, and
  the two are proved equal.
- `SymbolTables` (`symbol_table.dfy`): the table as a value (`Table`, with
  `Declare`, `Lookup` and `Render`). It is also a class, `SymbolTable`,
  whose methods update its fields in place and are proved against the
  value.
- `Analysis` (`analysis.dfy`): the behaviour as functions:
  - the type of an operand and of an expression node;
  - one statement (`Step`);
  - a whole batch (`Run`);
  - tree generation (`GenerateAst`);
  - the properties of a batch, proved for all inputs.
- `Analyzer` (`analyzer.dfy`): the `SemanticAnalyzer` class. It owns a
  `SymbolTable` and rewrites an array of statements in place. Its methods
  are proved to produce exactly the table, statements and diagnostics
  that `Run` gives.
- `Findings` (`findings.dfy`): the batch as the code actually runs it when
  an expression fails its type check (see Findings).
- `Scenarios` (`scenarios.dfy`): concrete batches and their proved
  outcomes.

Modelling choices:

- **Type strings.** A type is a tag: `Int`, `Float` and `Str` for the
  three recognised strings, `Other(s)` for any other declared string, and
  `NoType` for Python's `None`. `None` is what `type_check` returns for an
  operator it does not know. The subset type `TypeTag` rules out
  `Other("int")` and the like, so each type string has exactly one tag
  (`TagOf`, `TagRoundTrip`).
- **Operator strings.** An operator is `Add`, `Sub`, `Mul` or `Div` for
  the four symbols `type_check` compares against, and `OtherOp(s)` for any
  other symbol. The subset type `Op` rules out `OtherOp("+")` and the
  like (`OpOf`, `OpRoundTrip`).
- **Expression children.** A child of an expression node that is itself a
  node is looked up by the name its `value` holds (`Ref`). That is how
  `_get_expression_type` treats any node child, so nested nodes need no
  separate case. Every other child is typed `int` (`Constant`).
- **Diagnostics.** Errors are data, not exceptions: `Result`/`Option`
  values, and a `Diagnostic(line, kind)` for each error caught at the
  statement boundary. The printed message text is not modelled. The
  messages of a duplicate declaration and of an undeclared name carry no
  line number; the `line` of a diagnostic is the value of the loop
  counter for its statement, which the model adds so that a diagnostic
  can be tied to the statement it came from.
- **Behaviour of the code a reader might not expect (the model follows
  the code):**
  - `float + float` is a mismatch. The other three operators accept it.
  - A failed expression check does not undo the declaration that came
    before it, so the name is in the table and the statement is reported
    too.
  - The declared type is never reconciled with the checked type. The table
    keeps the declared type, and the statement and its tree node get the
    checked one.
  - Tree generation builds a node for every statement, failed or not. It
    fails as a whole at the first print of a name missing from the table.
  - A print never checks an expression.
  - A literal child of an expression is always `int`.
  - Re-checking a rewritten statement need not give the same type
    (`Scenarios.RecheckNotIdempotent`).

## Model

| member | source | states |
|---|---|---|
| Types.TagOf | sematic.py:41-45 | a declared type string is one of the three primitive tags exactly when it is "int", "float" or "str"; any other string is kept as is, and printing the tag gives the string back |
| Types.TagRoundTrip | sematic.py:41-45 | every tag other than None is the reading of its own name, so no two tags share a type string |
| Types.OpOf | sematic.py:40-72 | an operator symbol is one of the four known operators exactly when it is `+`, `-`, `*` or `/`; any other symbol is kept as is, and the operator's symbol gives the string back |
| Types.OpRoundTrip | sematic.py:40-72 | every operator is the reading of its own symbol |
| TypeRules.TypeCheck | sematic.py:38-72 | an unknown operator, and only an unknown operator, yields no type; an accepted pair yields int, float or str; a numeric result needs two numeric operands; a str result needs a str operand |
| TypeRules.TypeCheckMatchesRows | sematic.py:40-70 | for the four operators the branches accept exactly the 18 listed (left, right, operator, result) rows, and every other combination is a mismatch |
| TypeRules.NumericOperators | sematic.py:50-68 | on two numeric operands `-` and `*` give float exactly when one side is float (otherwise int), and `/` always gives float |
| TypeRules.AdditionRule | sematic.py:40-48 | `+` accepts exactly int+int, str+str, int+float and float+int, and anything else, float+float included, is a mismatch |
| TypeRules.RepetitionRule | sematic.py:56-64 | with a str operand `*` is accepted exactly for str*int and int*str, and the result is str |
| TypeRules.TypeCheckSymmetric | sematic.py:38-72 | the verdict does not depend on the order of the two operand types |
| TypeRules.UnknownTypeRejected | sematic.py:38-70 | an operand type outside int/float/str (including None) is a mismatch under every known operator |
| SymbolTables.Table.Declare | sematic.py:7-11 | declaring fails, with a duplicate-declaration error, exactly when the name is present; otherwise the new entry is added at the end of the order, every other entry is unchanged, and well-formedness is kept |
| SymbolTables.Table.Lookup | sematic.py:13-17 | lookup succeeds exactly for a present name and returns its entry; otherwise it fails with an undeclared-variable error |
| SymbolTables.Table.Render | sematic.py:19-23 | the listing exists exactly when every entry has a literal value and a type name; it is the header followed by one row per name in declaration order, with that name's type name and value |
| SymbolTables.LookupAfterDeclare | sematic.py:7-17 | after declaring a fresh name, that name resolves to the new entry and every other name resolves as before |
| SymbolTables.RedeclareFails | sematic.py:7-11 | a second declaration of a name always fails, whatever its type and value |
| SymbolTables.SymbolTable.constructor | sematic.py:4-5 | a new table is empty and well formed |
| SymbolTables.SymbolTable.Declare | sematic.py:7-11 | the in-place declaration fails exactly on a duplicate and then changes nothing; otherwise it appends the name and adds the entry; its outcome and new state are those of `Table.Declare` on the old state |
| SymbolTables.SymbolTable.Lookup | sematic.py:13-17 | the in-place lookup returns the entry of a present name, fails for any other, and agrees with `Table.Lookup` |
| Analysis.OperandType | sematic.py:124-129 | a node child is typed by looking its name up, so an unknown name fails as undeclared; any other child is int |
| Analysis.CheckExpression | sematic.py:118-122 | a successful check gives int, float, str or None, never another type; a failure is an undeclared name or a mismatch, never a duplicate |
| Analysis.CheckExpressionOutcome | sematic.py:118-122 | an expression fails as undeclared exactly when a child's name is unknown, and the left child is reported first; it fails as a mismatch exactly when the rule table rejects the two child types, and the error carries both types and the operator; otherwise its type is the table's result, or None for an unknown operator |
| Analysis.Step | sematic.py:83-98 | one statement fails as a duplicate exactly when it assigns a name already in the table; a mismatch comes only from an expression assignment of a fresh name; a statement that comes back changed is an assignment whose type is int, float, str or None |
| Analysis.StepFacts | sematic.py:83-96 | one statement: an assignment adds its name with the declared type and value, or fails as a duplicate and changes nothing; a literal assignment of a fresh name never fails; a print fails exactly when its name is absent and never changes the table; only a successfully checked expression assignment has its statement changed, and only in its type |
| Analysis.StepStatementType | sematic.py:84-90 | the statement's type becomes the checked type when a fresh name's expression checks, and stays the declared type in every other case |
| Analysis.Run | sematic.py:79-101 | a batch gives back exactly one statement per input statement, in place |
| Analysis.RunLines | sematic.py:81-101 | every diagnostic of a batch is on one of its lines (the first statement on line `line`), and the diagnostics are in strictly increasing line order, so there is at most one per statement and they come in statement order |
| Analysis.RunShape | sematic.py:79-101 | a batch only adds to the table: earlier entries, their order and well-formedness are kept, and each statement keeps its kind, name and value |
| Analysis.RunKeys | sematic.py:82-86 | after a batch the table holds exactly the earlier names plus the names of all assignments, including those whose check failed |
| Analysis.RunKeepsFirstAssignment | sematic.py:84-86 | the entry of a name new to the batch holds the declared type and value of its first assignment |
| Analysis.RunEntryFromFirstAssignment | sematic.py:84-86 | every name the batch adds comes from its first assignment in the batch |
| Analysis.RunDiagnosticAt | sematic.py:81-101 | a diagnostic for line `line + k` is reported with error `e` exactly when statement `k` fails with `e` against the table left by the statements before it |
| Analysis.RunStatementAt | sematic.py:82-90 | statement `k` is left as its own step rewrites it against the table of the statements before it |
| Analysis.RunReportsRedeclaration | sematic.py:84-99 | an assignment of a name already in the table or assigned earlier in the batch is always reported as a duplicate on its own line |
| Analysis.RunReportsUndeclaredPrint | sematic.py:92-99 | a print is reported as undeclared on its own line exactly when its name was neither in the table nor assigned earlier in the batch; otherwise nothing is reported on its line |
| Analysis.CreateAst | sematic.py:107-116 | a node is built for every assignment and for a print exactly when its name is in the table; it is the node the statement describes (an assignment node over a variable and a literal leaf with the statement's type, or a print node with the table's type); otherwise the error names the printed name |
| Analysis.GenerateAst | sematic.py:103-116 | generation succeeds exactly when every printed name is in the table; it then gives one node per statement, in order: an assignment node over a variable leaf and a literal leaf with the statement's type, or a print node with the table's type; otherwise it fails with the first printed name missing from the table |
| Analysis.RunThenGenerateAst | sematic.py:103-115 | after analysing a batch from an empty table, generation succeeds exactly when every printed name is assigned somewhere in the batch, even after the print |
| Analysis.RunThenGenerateAstTypes | sematic.py:109-112 | after analysis, an assignment's node carries the type its own step left in the statement: the checked type, or the declared type |
| Analyzer.SemanticAnalyzer.constructor | sematic.py:76-77 | a new analyzer owns a fresh, empty symbol table |
| Analyzer.SemanticAnalyzer.AnalyzeStatement | sematic.py:83-98 | processing one statement in place gives the table, the rewritten statement and the error of `Step` on the old table, and keeps the table well formed |
| Analyzer.SemanticAnalyzer.Analyze | sematic.py:79-101 | the loop over the statements, numbering lines from 1, leaves the table, the rewritten statement array and the diagnostics that `Run` gives for the old table and the old statements |
| Findings.RunAsWritten | sematic.py:79-101 | the code as written either processes every statement or stops on one of the batch's lines, having processed the statements up to and including the one on that line |
| Findings.AsWrittenStopsAtFirstMismatch | sematic.py:48 | the code as written agrees with `Run` when no expression fails its type check; otherwise it stops on the line of the first mismatch: it has reported exactly `Run`'s diagnostics for the earlier lines (a prefix of them), none of which is a mismatch, and `Run` reports that mismatch on the stopping line; a run that never stops meets no mismatch in `Run`'s diagnostics |
| Findings.MismatchAbortsRun | sematic.py:40-48 | for a str variable added to an int literal and then a print of an unknown name, the code as written stops at line 2 with no diagnostics, while `Run` reports line 2 as a mismatch and line 3 as undeclared |
| Scenarios.DeclareThenPrint | sematic.py:79-101 | `x: int = 5; print x` reports nothing and leaves the table holding x only |
| Scenarios.DeclareThenPrintListing | sematic.py:19-23 | that table is listed as the header and the row `x int 5` |
| Scenarios.DeclareThenPrintTree | sematic.py:103-116 | its tree is an int assignment node for x followed by an int print node |
| Scenarios.Redeclaration | sematic.py:7-11 | a second declaration of x is reported on line 2 and the table keeps the first entry |
| Scenarios.PrintUndeclared | sematic.py:92-94 | printing an unknown name is reported on line 1, the table stays empty, and tree generation fails on that name |
| Scenarios.ExpressionChecks | sematic.py:118-129 | int + str is a mismatch naming both types and `+`; str * int is str; an unknown right child is undeclared |
| Scenarios.SelfReference | sematic.py:84-90 | `x: int = x + 1` passes, because x is declared before its expression is checked |
| Scenarios.DeclaredTypeNotReconciled | sematic.py:84-90 | `x: str = 1 + 2` reports nothing; the table keeps str while the statement and its node get int |
| Scenarios.UnknownOperatorClearsType | sematic.py:72 | an unknown operator is no error and sets the statement's type to None, and a table holding an expression value cannot be listed |
| Scenarios.PrintBeforeAssignment | sematic.py:92-115 | a print ahead of its name's assignment is reported by analysis, but generation after the batch succeeds |
| Scenarios.FailedCheckStillDeclares | sematic.py:84-90 | an assignment whose expression names an unknown variable is reported, and its name is still declared |
| Scenarios.RecheckNotIdempotent | sematic.py:40-48 | `x: int = x + y` with a float y is rewritten to float, and the rewritten statement checked again is a float + float mismatch |

## Left out

- The repository's other scripts (price fetching, keypad conversion, tip
  splitting, pizza pricing) are not part of this model.
- Interactive statement entry (`get_user_input`) and the `__main__` block
  read from and write to the terminal. They are not part of this model.
- Printed text is not modelled: the error messages, the `Error Output:`
  lines, the table's column padding and newline joining, and the text form
  of tree nodes (`ASTNode.__repr__`). Diagnostics are modelled by line and
  error kind, and the listing by its rows.
- Literal values are opaque text. Their Python types and the formatting of
  numbers are not modelled. The one formatting failure that matters is
  modelled: an expression node cannot be listed.
- Analysis.Run: on a type mismatch this follows the evidently intended
  behaviour (report and go on); the code as written is
  `Findings.RunAsWritten`.
- Analyzer.SemanticAnalyzer.Analyze: on a type mismatch this follows the
  evidently intended behaviour (report and go on); the code as written is
  `Findings.RunAsWritten`.
- Analyzer.SemanticAnalyzer.Analyze: statement objects are values in an array. The same object
  appearing twice in the list, where rewriting one occurrence would change
  the other, is not modelled.
- Statements of any class other than assignment and print are not
  modelled. `analyze` skips them, but the line counter still advances, and
  `_create_ast` gives `None` for them.
- The print branch that checks an expression (lines 95-96) is not
  modelled. A print's name is always a string there, so the branch never
  runs.
- `declare`'s default value `None` is not modelled. The analyzer always
  passes the statement's value.
- Exceptions other than the value errors and the attribute error under
  Findings are not modelled, for example an unhashable name.
- `import re` is unused.

## Findings

| source | as written | input that shows it | evidently intended | confidence | as-written member | corrected member |
|---|---|---|---|---|---|---|
| sematic.py:48 | The mismatch message formats `expr1.value` and `expr2.value`, but both operands are plain dictionaries. The same text is at lines 54, 64 and 70. Building the message raises an attribute error, and `except ValueError` (line 98) does not catch it, so the first type mismatch ends the whole `analyze` call. | `s: str = "a"`, then `x: int = 5 + s` with `s` a node child, then `print y` | The mismatch is raised as a value error, reported for its line, and analysis goes on. Line 3 is then reported as undeclared. | high; not executed | Findings.RunAsWritten / Findings.MismatchAbortsRun | Analysis.Run |
