/**
 * The analyzer's behaviour as values: how one statement is processed
 * against the table, how a whole batch is processed, and how the tree is
 * generated; with the properties the analyzer promises, proved over all
 * inputs.
 */
module Analysis {
  import opened Types
  import opened TypeRules
  import opened SymbolTables

  // ---------------------------------------------------------------------
  // Expression typing (one level deep)
  // ---------------------------------------------------------------------

  /** The type of one child of an expression node: a variable reference is
      looked up in the table, any other child is taken to be an int. */
  function OperandType(t: Table, o: Operand): (r: Result<TypeTag>)
    ensures r.Failure? <==> o.Ref? && o.name !in t.entries
    ensures r.Failure? ==> r.error == UndeclaredVariable(o.name)
    ensures o.Constant? ==> r.Success? && r.value == Int
    ensures o.Ref? && r.Success? ==> r.value == t.entries[o.name].varType
  {
    match o
    case Ref(name) =>
      (match t.Lookup(name)
       case Success(entry) => Success(entry.varType)
       case Failure(err) => Failure(err))
    case Constant(_) => Result<TypeTag>.Success(Int)
  }

  /** The type of an expression node: both children are resolved, left
      first, and the rule table decides. An unknown operator yields the
      absent type rather than an error. */
  function CheckExpression(t: Table, e: Expr): (c: Result<TypeTag>)
    ensures c.Success? ==> c.value in {Int, Float, Str, NoType}
    ensures c.Failure? ==> c.error.UndeclaredVariable? || c.error.TypeMismatch?
  {
    match OperandType(t, e.left)
    case Failure(err) => Failure(err)
    case Success(l) =>
      match OperandType(t, e.right)
      case Failure(err) => Failure(err)
      case Success(r) =>
        match TypeCheck(l, r, e.op)
        case Ok(ty) => Success(ty)
        case NoResult => Result<TypeTag>.Success(NoType)
        case Mismatch => Failure(TypeMismatch(l, r, e.op))
  }

  /** What the verdict on an expression node means: it fails as undeclared
      exactly when a child names an unknown variable (the left child is
      reported first), fails as a mismatch exactly when the rule table
      rejects the two child types, and otherwise carries the table's result
      type, or the absent type for an unknown operator. */
  lemma CheckExpressionOutcome(t: Table, e: Expr)
    ensures var c := CheckExpression(t, e);
            (c.Success? || c.error.TypeMismatch?) <==>
              OperandType(t, e.left).Success? && OperandType(t, e.right).Success?
    ensures var c := CheckExpression(t, e);
            c.Failure? && c.error.UndeclaredVariable? ==>
              c.error == if OperandType(t, e.left).Failure? then OperandType(t, e.left).error
                         else OperandType(t, e.right).error
    ensures var c := CheckExpression(t, e);
            c.Failure? && c.error.TypeMismatch? ==>
              && c.error == TypeMismatch(OperandType(t, e.left).value, OperandType(t, e.right).value, e.op)
              && TypeCheck(c.error.left, c.error.right, e.op) == Mismatch
    ensures var c := CheckExpression(t, e);
            c.Success? ==>
              TypeCheck(OperandType(t, e.left).value, OperandType(t, e.right).value, e.op)
                == if e.op.OtherOp? then NoResult else Ok(c.value)
    ensures var c := CheckExpression(t, e);
            c.Success? ==> (c.value == NoType <==> e.op.OtherOp?)
  {
  }

  // ---------------------------------------------------------------------
  // One statement
  // ---------------------------------------------------------------------

  /** What processing one statement leaves behind: the table, the statement
      (whose type an expression check may overwrite) and the error, if any. */
  datatype StepResult = StepResult(table: Table, statement: Statement, error: Option<ErrorKind>)

  /** `s'` is `s` except, possibly, for the type of an assignment. */
  predicate SameStatement(s: Statement, s': Statement)
  {
    match s
    case Assignment(name, _, value) => s'.Assignment? && s'.name == name && s'.value == value
    case Print(_) => s' == s
  }

  /** Processing of one statement: an assignment is declared first and its
      expression, if any, is checked afterwards against the table that
      already holds the new name; a print only looks its name up. */
  function Step(t: Table, s: Statement): (r: StepResult)
    ensures r.error == Some(DuplicateDeclaration(s.name)) <==> s.Assignment? && s.name in t.entries
    ensures r.error.Some? && r.error.value.TypeMismatch? ==> s.Assignment? && s.value.Compound? && s.name !in t.entries
    ensures r.statement != s ==> r.statement.Assignment? && r.statement.varType in {Int, Float, Str, NoType}
  {
    match s
    case Assignment(name, ty, value) =>
      (match t.Declare(name, ty, value)
       case Failure(err) => StepResult(t, s, Some(err))
       case Success(declared) =>
         if value.Compound? then
           match CheckExpression(declared, value.expr)
           case Failure(err) => StepResult(declared, s, Some(err))
           case Success(checked) => StepResult(declared, s.(varType := checked), None)
         else
           StepResult(declared, s, None))
    case Print(name) =>
      match t.Lookup(name)
      case Failure(err) => StepResult(t, s, Some(err))
      case Success(_) => StepResult(t, s, None)
  }

  /** What one statement does: an assignment adds its name with its
      declared type and value, or fails as a duplicate and changes nothing;
      a literal assignment of a fresh name never fails; a print fails
      exactly when its name is absent and never changes the table; only an
      expression assignment whose check succeeds comes back changed, and
      only in its type. */
  lemma StepFacts(t: Table, s: Statement)
    ensures Step(t, s).table.entries.Keys == t.entries.Keys + (if s.Assignment? then {s.name} else {})
    ensures forall n :: n in t.entries ==> Step(t, s).table.entries[n] == t.entries[n]
    ensures s.Assignment? && s.name !in t.entries ==> Step(t, s).table.entries[s.name] == Entry(s.varType, s.value)
    ensures SameStatement(s, Step(t, s).statement)
    ensures Step(t, s).statement != s ==> s.Assignment? && s.value.Compound? && Step(t, s).error.None?
    ensures s.Assignment? && s.name in t.entries ==> Step(t, s).error == Some(DuplicateDeclaration(s.name))
    ensures s.Assignment? && s.name !in t.entries && s.value.Scalar? ==> Step(t, s).error.None?
    ensures s.Print? ==> Step(t, s).error == if s.name in t.entries then None else Some(UndeclaredVariable(s.name))
  {
  }

  /** A compound assignment of a fresh name whose check succeeds takes the
      checked type; in every other case the statement keeps its type. */
  lemma StepStatementType(t: Table, s: Statement)
    requires s.Assignment?
    ensures var r := Step(t, s);
            r.statement.varType ==
              if s.name !in t.entries && s.value.Compound? &&
                 CheckExpression(t.Declare(s.name, s.varType, s.value).value, s.value.expr).Success?
              then CheckExpression(t.Declare(s.name, s.varType, s.value).value, s.value.expr).value
              else s.varType
  {
  }

  function Report(line: int, e: Option<ErrorKind>): seq<Diagnostic>
  {
    if e.Some? then [Diagnostic(line, e.value)] else []
  }

  // ---------------------------------------------------------------------
  // A batch of statements
  // ---------------------------------------------------------------------

  datatype RunResult = RunResult(table: Table, statements: seq<Statement>, diagnostics: seq<Diagnostic>)

  /** Processing of a batch, the first statement on line `line`: each
      statement is processed in turn, whatever happened to the earlier
      ones, and each failure becomes one diagnostic on its own line. */
  function Run(t: Table, stmts: seq<Statement>, line: int): (r: RunResult)
    ensures |r.statements| == |stmts|
    decreases |stmts|
  {
    if stmts == [] then RunResult(t, [], [])
    else
      var n := |stmts| - 1;
      var prev := Run(t, stmts[..n], line);
      var st := Step(prev.table, stmts[n]);
      RunResult(st.table, prev.statements + [st.statement], prev.diagnostics + Report(line + n, st.error))
  }

  /** Every diagnostic of a batch is on one of its lines, and the
      diagnostics come in strictly increasing line order: at most one per
      statement, in statement order. */
  lemma {:induction false} RunLines(t: Table, stmts: seq<Statement>, line: int)
    ensures forall d :: d in Run(t, stmts, line).diagnostics ==> line <= d.line < line + |stmts|
    ensures forall i, j :: 0 <= i < j < |Run(t, stmts, line).diagnostics| ==>
              Run(t, stmts, line).diagnostics[i].line < Run(t, stmts, line).diagnostics[j].line
    decreases |stmts|
  {
    if stmts != [] {
      var n := |stmts| - 1;
      var prev := Run(t, stmts[..n], line);
      var st := Step(prev.table, stmts[n]);
      RunLines(t, stmts[..n], line);
      var ds := Run(t, stmts, line).diagnostics;
      assert ds == prev.diagnostics + Report(line + n, st.error);
      forall i, j | 0 <= i < j < |ds| ensures ds[i].line < ds[j].line {
        assert ds[i] == prev.diagnostics[i];
        var pd := prev.diagnostics;
        if j < |pd| {
          assert ds[j] == pd[j];
          assert pd[i].line < pd[j].line;
        } else {
          assert ds[j] == Diagnostic(line + n, st.error.value);
          assert pd[i] in pd;
          assert pd[i].line < line + n;
        }
      }
    }
  }

  /** One more statement at the end of a batch is processed against the
      table the rest left behind, on the next line. */
  lemma RunSnoc(t: Table, input: seq<Statement>, i: int, st: StepResult)
    requires 0 <= i < |input|
    requires st == Step(Run(t, input[..i], 1).table, input[i])
    ensures Run(t, input[..i + 1], 1).table == st.table
    ensures Run(t, input[..i + 1], 1).statements == Run(t, input[..i], 1).statements + [st.statement]
    ensures Run(t, input[..i + 1], 1).diagnostics == Run(t, input[..i], 1).diagnostics + Report(i + 1, st.error)
  {
    assert input[..i + 1][..i] == input[..i];
  }

  /** A batch of one statement is that statement's step, on the first
      line. */
  lemma RunOne(t: Table, s: Statement, line: int)
    ensures var st := Step(t, s);
            Run(t, [s], line) == RunResult(st.table, [st.statement], Report(line, st.error))
  {
    assert [s][..0] == [];
  }

  /** A batch of two statements is the second step after the first, on the
      next line. */
  lemma RunTwo(t: Table, s0: Statement, s1: Statement, line: int)
    ensures var st0 := Step(t, s0);
            var st1 := Step(st0.table, s1);
            Run(t, [s0, s1], line) ==
              RunResult(st1.table, [st0.statement, st1.statement],
                        Report(line, st0.error) + Report(line + 1, st1.error))
  {
    assert [s0, s1][..1] == [s0];
    RunOne(t, s0, line);
  }

  /** Replacing the first unprocessed element of a partly processed
      sequence extends the processed part by one. */
  lemma ReplaceNext<T>(done: seq<T>, input: seq<T>, x: T)
    requires |done| < |input|
    ensures (done + input[|done|..])[|done| := x] == done + [x] + input[|done| + 1..]
  {
  }

  /** A batch only adds to the table: earlier entries and their order are
      kept, the table stays well formed, and each statement keeps its kind,
      name and value (only an assignment's type may change). */
  lemma RunShape(t: Table, stmts: seq<Statement>, line: int)
    ensures var r := Run(t, stmts, line);
            forall k :: 0 <= k < |stmts| ==> SameStatement(stmts[k], r.statements[k])
    ensures var r := Run(t, stmts, line);
            forall n :: n in t.entries ==> n in r.table.entries && r.table.entries[n] == t.entries[n]
    ensures t.names <= Run(t, stmts, line).table.names
    ensures t.Valid() ==> Run(t, stmts, line).table.Valid()
  {
    RunKeepsStatementShape(t, stmts, line);
    RunKeepsEntries(t, stmts, line);
  }

  /** The statement half of `RunShape`. */
  lemma {:induction false} RunKeepsStatementShape(t: Table, stmts: seq<Statement>, line: int)
    ensures forall k :: 0 <= k < |stmts| ==> SameStatement(stmts[k], Run(t, stmts, line).statements[k])
    decreases |stmts|
  {
    if stmts != [] {
      var n := |stmts| - 1;
      var prev := Run(t, stmts[..n], line);
      RunKeepsStatementShape(t, stmts[..n], line);
      var st := Step(prev.table, stmts[n]);
      StepFacts(prev.table, stmts[n]);
      var r := Run(t, stmts, line);
      assert r.statements == prev.statements + [st.statement];
      forall k | 0 <= k < |stmts| ensures SameStatement(stmts[k], r.statements[k]) {
        if k < n {
          assert stmts[..n][k] == stmts[k];
          assert r.statements[k] == prev.statements[k];
        } else {
          assert r.statements[k] == st.statement;
        }
      }
    }
  }

  /** The table half of `RunShape`. */
  lemma {:induction false} RunKeepsEntries(t: Table, stmts: seq<Statement>, line: int)
    ensures forall n :: n in t.entries ==> n in Run(t, stmts, line).table.entries && Run(t, stmts, line).table.entries[n] == t.entries[n]
    ensures t.names <= Run(t, stmts, line).table.names
    ensures t.Valid() ==> Run(t, stmts, line).table.Valid()
    decreases |stmts|
  {
    if stmts != [] {
      var n := |stmts| - 1;
      var prev := Run(t, stmts[..n], line);
      RunKeepsEntries(t, stmts[..n], line);
      var st := Step(prev.table, stmts[n]);
      StepKeepsOrder(prev.table, stmts[n]);
      StepFacts(prev.table, stmts[n]);
      assert Run(t, stmts, line).table == st.table;
    }
  }

  /** One statement keeps the declaration order and the well-formedness of
      the table. */
  lemma StepKeepsOrder(t: Table, s: Statement)
    ensures t.names <= Step(t, s).table.names
    ensures t.Valid() ==> Step(t, s).table.Valid()
  {
  }

  /** The names of all assignments in a batch. */
  function AssignedNames(stmts: seq<Statement>): set<string>
  {
    set k | 0 <= k < |stmts| && stmts[k].Assignment? :: stmts[k].name
  }

  lemma AssignedNamesSnoc(stmts: seq<Statement>)
    requires stmts != []
    ensures var n := |stmts| - 1;
            AssignedNames(stmts) ==
              AssignedNames(stmts[..n]) + (if stmts[n].Assignment? then {stmts[n].name} else {})
  {
    var n := |stmts| - 1;
    var last := if stmts[n].Assignment? then {stmts[n].name} else {};
    forall x | x in AssignedNames(stmts) ensures x in AssignedNames(stmts[..n]) + last {
      var k :| 0 <= k < |stmts| && stmts[k].Assignment? && stmts[k].name == x;
      if k < n {
        assert stmts[..n][k] == stmts[k];
      }
    }
    forall x | x in AssignedNames(stmts[..n]) ensures x in AssignedNames(stmts) {
      var k :| 0 <= k < n && stmts[..n][k].Assignment? && stmts[..n][k].name == x;
      assert stmts[k] == stmts[..n][k];
    }
  }

  /** After a batch the table holds exactly the names it held before plus
      the names of all assignments, successful or not. */
  lemma {:induction false} RunKeys(t: Table, stmts: seq<Statement>, line: int)
    ensures Run(t, stmts, line).table.entries.Keys == t.entries.Keys + AssignedNames(stmts)
    decreases |stmts|
  {
    if stmts != [] {
      var n := |stmts| - 1;
      RunKeys(t, stmts[..n], line);
      AssignedNamesSnoc(stmts);
    }
  }

  /** Statement `k` is the first assignment of its name in the batch. */
  predicate FirstAssignment(stmts: seq<Statement>, k: int)
  {
    0 <= k < |stmts| && stmts[k].Assignment? && stmts[k].name !in AssignedNames(stmts[..k])
  }

  /** The entry of a name new to the batch holds the type and value of its
      first assignment, even when that assignment's check failed. */
  lemma {:induction false} RunKeepsFirstAssignment(t: Table, stmts: seq<Statement>, line: int, k: int)
    requires FirstAssignment(stmts, k) && stmts[k].name !in t.entries
    ensures stmts[k].name in Run(t, stmts, line).table.entries
    ensures Run(t, stmts, line).table.entries[stmts[k].name] == Entry(stmts[k].varType, stmts[k].value)
    decreases |stmts|
  {
    var n := |stmts| - 1;
    var prev := Run(t, stmts[..n], line);
    StepFacts(prev.table, stmts[n]);
    assert Run(t, stmts, line).table == Step(prev.table, stmts[n]).table;
    if k == n {
      assert stmts[..k] == stmts[..n];
      RunKeys(t, stmts[..n], line);
      assert stmts[k].name !in prev.table.entries;
    } else {
      assert stmts[..n][..k] == stmts[..k];
      RunKeepsFirstAssignment(t, stmts[..n], line, k);
    }
  }

  /** Conversely, every name the batch added comes from its first
      assignment in the batch. */
  lemma {:induction false} RunEntryFromFirstAssignment(t: Table, stmts: seq<Statement>, line: int, name: string)
    requires name in Run(t, stmts, line).table.entries && name !in t.entries
    ensures exists k :: FirstAssignment(stmts, k) && stmts[k].name == name &&
                        Run(t, stmts, line).table.entries[name] == Entry(stmts[k].varType, stmts[k].value)
    decreases |stmts|
  {
    var n := |stmts| - 1;
    var prev := Run(t, stmts[..n], line);
    var st := Step(prev.table, stmts[n]);
    assert Run(t, stmts, line).table == st.table;
    RunKeys(t, stmts[..n], line);
    if name in prev.table.entries {
      assert st.table.entries[name] == prev.table.entries[name];
      RunEntryFromFirstAssignment(t, stmts[..n], line, name);
      var k :| FirstAssignment(stmts[..n], k) && stmts[..n][k].name == name &&
               prev.table.entries[name] == Entry(stmts[..n][k].varType, stmts[..n][k].value);
      assert stmts[..n][..k] == stmts[..k];
      assert FirstAssignment(stmts, k);
    } else {
      assert stmts[n].Assignment? && stmts[n].name == name;
      assert st.table.entries[name] == Entry(stmts[n].varType, stmts[n].value);
      assert FirstAssignment(stmts, n);
    }
  }

  /** Statement `k` of a batch is processed against the table left by the
      statements before it, and its line is `line + k`: a diagnostic for
      that line is reported exactly when that statement fails, with its
      error. */
  lemma {:induction false} RunDiagnosticAt(t: Table, stmts: seq<Statement>, line: int, k: int, e: ErrorKind)
    requires 0 <= k < |stmts|
    ensures Diagnostic(line + k, e) in Run(t, stmts, line).diagnostics <==>
              Step(Run(t, stmts[..k], line).table, stmts[k]).error == Some(e)
    decreases |stmts|
  {
    var n := |stmts| - 1;
    var prev := Run(t, stmts[..n], line);
    var st := Step(prev.table, stmts[n]);
    var d := Diagnostic(line + k, e);
    assert Run(t, stmts, line).diagnostics == prev.diagnostics + Report(line + n, st.error);
    if k < n {
      assert d !in Report(line + n, st.error);
      assert stmts[..n][..k] == stmts[..k];
      RunDiagnosticAt(t, stmts[..n], line, k, e);
    } else {
      assert stmts[..k] == stmts[..n];
      RunLines(t, stmts[..n], line);
      assert d !in prev.diagnostics;
      assert d in Report(line + n, st.error) <==> st.error == Some(e);
    }
  }

  /** Likewise, the statement left in place of statement `k` is the one its
      own step produces. */
  lemma {:induction false} RunStatementAt(t: Table, stmts: seq<Statement>, line: int, k: int)
    requires 0 <= k < |stmts|
    ensures Run(t, stmts, line).statements[k] == Step(Run(t, stmts[..k], line).table, stmts[k]).statement
    decreases |stmts|
  {
    var n := |stmts| - 1;
    var prev := Run(t, stmts[..n], line);
    var st := Step(prev.table, stmts[n]);
    assert Run(t, stmts, line).statements == prev.statements + [st.statement];
    if k < n {
      assert stmts[..n][..k] == stmts[..k];
      RunStatementAt(t, stmts[..n], line, k);
    } else {
      assert stmts[..k] == stmts[..n];
    }
  }

  /** A second assignment of a name is always reported as a duplicate, on
      its own line. */
  lemma RunReportsRedeclaration(t: Table, stmts: seq<Statement>, line: int, k: int)
    requires 0 <= k < |stmts| && stmts[k].Assignment?
    requires stmts[k].name in t.entries || stmts[k].name in AssignedNames(stmts[..k])
    ensures Diagnostic(line + k, DuplicateDeclaration(stmts[k].name)) in Run(t, stmts, line).diagnostics
  {
    RunKeys(t, stmts[..k], line);
    RunDiagnosticAt(t, stmts, line, k, DuplicateDeclaration(stmts[k].name));
  }

  /** A print is reported as undeclared, on its own line, exactly when no
      earlier statement (nor the initial table) declared its name;
      otherwise nothing is reported for it. */
  lemma RunReportsUndeclaredPrint(t: Table, stmts: seq<Statement>, line: int, k: int)
    requires 0 <= k < |stmts| && stmts[k].Print?
    ensures stmts[k].name !in t.entries && stmts[k].name !in AssignedNames(stmts[..k]) ==>
              Diagnostic(line + k, UndeclaredVariable(stmts[k].name)) in Run(t, stmts, line).diagnostics
    ensures stmts[k].name in t.entries || stmts[k].name in AssignedNames(stmts[..k]) ==>
              forall d :: d in Run(t, stmts, line).diagnostics ==> d.line != line + k
  {
    var name := stmts[k].name;
    var before := Run(t, stmts[..k], line).table;
    assert name in before.entries <==> name in t.entries || name in AssignedNames(stmts[..k]) by {
      RunKeys(t, stmts[..k], line);
    }
    assert Step(before, stmts[k]).error == if name in before.entries then None else Some(UndeclaredVariable(name)) by {
      StepFacts(before, stmts[k]);
    }
    RunDiagnosticAt(t, stmts, line, k, UndeclaredVariable(name));
    if stmts[k].name in t.entries || stmts[k].name in AssignedNames(stmts[..k]) {
      forall d | d in Run(t, stmts, line).diagnostics ensures d.line != line + k {
        if d.line == line + k {
          RunDiagnosticAt(t, stmts, line, k, d.kind);
        }
      }
    }
  }

  // ---------------------------------------------------------------------
  // Tree generation
  // ---------------------------------------------------------------------

  /** `node` is the tree node for statement `s`: an assignment gives an
      assignment node over a variable leaf and a literal leaf, both carrying
      the statement's name, value and current type; a print gives a print
      node carrying the type the table records for its name. */
  predicate Describes(t: Table, s: Statement, node: AstNode)
  {
    match s
    case Assignment(name, ty, value) =>
      && node.Assign? && node.name == name && node.varType == ty
      && node.left == Variable(name, ty) && node.right == Literal(value)
    case Print(name) =>
      && node.PrintOut? && node.name == name
      && name in t.entries && node.varType == t.entries[name].varType
  }

  function CreateAst(t: Table, s: Statement): (r: Result<AstNode>)
    ensures r.Success? <==> s.Assignment? || s.name in t.entries
    ensures r.Success? ==> Describes(t, s, r.value)
    ensures r.Failure? ==> r.error == UndeclaredVariable(s.name)
  {
    match s
    case Assignment(name, ty, value) =>
      Success(Assign(name, Variable(name, ty), Literal(value), ty))
    case Print(name) =>
      match t.Lookup(name)
      case Success(entry) => Success(PrintOut(name, entry.varType))
      case Failure(err) => Failure(err)
  }

  /** The tree of a batch: one node per statement, in order. Building the
      node of a print whose name is not in the table fails, and the first
      such print ends the whole generation. */
  function GenerateAst(t: Table, stmts: seq<Statement>): (r: Result<seq<AstNode>>)
    ensures r.Success? <==> forall k :: 0 <= k < |stmts| && stmts[k].Print? ==> stmts[k].name in t.entries
    ensures r.Success? ==> |r.value| == |stmts|
    ensures r.Success? ==> forall k :: 0 <= k < |stmts| ==> Describes(t, stmts[k], r.value[k])
    ensures r.Failure? ==> exists k :: && 0 <= k < |stmts| && stmts[k].Print? && stmts[k].name !in t.entries
                                       && r.error == UndeclaredVariable(stmts[k].name)
                                       && forall j :: 0 <= j < k && stmts[j].Print? ==> stmts[j].name in t.entries
    decreases |stmts|
  {
    if stmts == [] then Success([])
    else
      match CreateAst(t, stmts[0])
      case Failure(err) => Failure(err)
      case Success(node) =>
        match GenerateAst(t, stmts[1..])
        case Failure(err) => Failure(err)
        case Success(rest) => Success([node] + rest)
  }

  /** Analysis followed by generation, from an empty table: generation
      succeeds exactly when every printed name is assigned somewhere in the
      batch (possibly after the print). */
  lemma RunThenGenerateAst(stmts: seq<Statement>)
    ensures var r := Run(Table([], map[]), stmts, 1);
            GenerateAst(r.table, r.statements).Success? <==>
              forall k :: 0 <= k < |stmts| && stmts[k].Print? ==> stmts[k].name in AssignedNames(stmts)
  {
    var t0 := Table([], map[]);
    var r := Run(t0, stmts, 1);
    RunKeys(t0, stmts, 1);
    assert r.table.entries.Keys == AssignedNames(stmts);
    RunShape(t0, stmts, 1);
    var g := GenerateAst(r.table, r.statements);
    if g.Success? {
      forall k | 0 <= k < |stmts| && stmts[k].Print? ensures stmts[k].name in AssignedNames(stmts) {
        assert SameStatement(stmts[k], r.statements[k]);
        assert r.statements[k].name in r.table.entries;
      }
    } else {
      var k :| 0 <= k < |stmts| && r.statements[k].Print? && r.statements[k].name !in r.table.entries;
      assert SameStatement(stmts[k], r.statements[k]);
    }
  }

  /** After analysis, the node generated for an assignment carries the type
      that the assignment's own step left in the statement: the checked type
      of a compound right-hand side, otherwise the declared one. */
  lemma RunThenGenerateAstTypes(t: Table, stmts: seq<Statement>, line: int, k: int)
    requires 0 <= k < |stmts| && stmts[k].Assignment?
    requires GenerateAst(Run(t, stmts, line).table, Run(t, stmts, line).statements).Success?
    ensures GenerateAst(Run(t, stmts, line).table, Run(t, stmts, line).statements).value[k].varType
              == Step(Run(t, stmts[..k], line).table, stmts[k]).statement.varType
  {
    var r := Run(t, stmts, line);
    var g := GenerateAst(r.table, r.statements);
    RunStatementAt(t, stmts, line, k);
    assert Describes(r.table, r.statements[k], g.value[k]);
  }
}
