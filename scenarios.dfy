/**
 * Concrete batches, each with the outcome the analyzer gives it: the
 * diagnostics, the table it leaves, the statements it rewrites and the
 * tree that is generated afterwards.
 */
module Scenarios {
  import opened Types
  import opened TypeRules
  import opened SymbolTables
  import opened Analysis

  const Empty: Table := Table([], map[])

  /** A declared variable that is then printed: no diagnostic, the table
      holds the one variable and the statements are left as they were. */
  lemma DeclareThenPrint()
    ensures var r := Run(Empty, [Assignment("x", Int, Scalar("5")), Print("x")], 1);
            && r.diagnostics == []
            && r.table == Table(["x"], map["x" := Entry(Int, Scalar("5"))])
            && r.statements == [Assignment("x", Int, Scalar("5")), Print("x")]
  {
    var s0, s1 := Assignment("x", Int, Scalar("5")), Print("x");
    DeclareThenPrintSteps();
    RunTwo(Empty, s0, s1, 1);
  }

  /** The two statements of that batch, one step at a time. */
  lemma DeclareThenPrintSteps()
    ensures var t1 := Table(["x"], map["x" := Entry(Int, Scalar("5"))]);
            && Step(Empty, Assignment("x", Int, Scalar("5"))) == StepResult(t1, Assignment("x", Int, Scalar("5")), None)
            && Step(t1, Print("x")) == StepResult(t1, Print("x"), None)
  {
    var t1 := Table(["x"], map["x" := Entry(Int, Scalar("5"))]);
    assert Empty.names + ["x"] == t1.names;
    assert Empty.entries["x" := Entry(Int, Scalar("5"))] == t1.entries;
    assert Empty.Declare("x", Int, Scalar("5")) == Success(t1);
  }

  /** The table that batch leaves is listed as a header and one row. */
  lemma DeclareThenPrintListing()
    ensures var t := Table(["x"], map["x" := Entry(Int, Scalar("5"))]);
            t.Valid() && t.Render() == Some([Header, Row("x", "int", "5")])
  {
    var t := Table(["x"], map["x" := Entry(Int, Scalar("5"))]);
    var rows := t.Render();
    assert rows.Some? && |rows.value| == 2 && rows.value[0] == Header && rows.value[1..][0] == Row("x", "int", "5");
    assert rows.value == [Header, Row("x", "int", "5")];
  }

  /** The tree of that batch: an assignment node and a print node, both of
      type int. */
  lemma DeclareThenPrintTree()
    ensures var t := Table(["x"], map["x" := Entry(Int, Scalar("5"))]);
            GenerateAst(t, [Assignment("x", Int, Scalar("5")), Print("x")]) ==
              Success([Assign("x", Variable("x", Int), Literal(Scalar("5")), Int), PrintOut("x", Int)])
  {
    var t := Table(["x"], map["x" := Entry(Int, Scalar("5"))]);
    var s0, s1 := Assignment("x", Int, Scalar("5")), Print("x");
    var g := GenerateAst(t, [s0, s1]);
    assert g.Success? && |g.value| == 2;
    assert Describes(t, s0, g.value[0]) && Describes(t, s1, g.value[1]);
    assert g.value == [Assign("x", Variable("x", Int), Literal(Scalar("5")), Int), PrintOut("x", Int)];
  }

  /** A second assignment of the same name is reported on line 2, and the
      table keeps the first declaration only. */
  lemma Redeclaration()
    ensures var r := Run(Empty, [Assignment("x", Int, Scalar("5")), Assignment("x", Float, Scalar("2.0"))], 1);
            && r.diagnostics == [Diagnostic(2, DuplicateDeclaration("x"))]
            && r.table == Table(["x"], map["x" := Entry(Int, Scalar("5"))])
  {
    var stmts := [Assignment("x", Int, Scalar("5")), Assignment("x", Float, Scalar("2.0"))];
    assert stmts[..1] == [stmts[0]];
  }

  /** Printing a name nobody declared is reported on line 1, the table stays
      empty, and generating the tree fails on the same name. */
  lemma PrintUndeclared()
    ensures var r := Run(Empty, [Print("y")], 1);
            && r.diagnostics == [Diagnostic(1, UndeclaredVariable("y"))]
            && r.table == Empty
            && GenerateAst(r.table, r.statements) == Failure(UndeclaredVariable("y"))
  {
    assert [Print("y")][..0] == [];
  }

  /** An int constant added to a string variable is a mismatch naming both
      types and the operator; a string variable repeated an int number of
      times is a string. */
  lemma ExpressionChecks()
    ensures var t := Table(["s"], map["s" := Entry(Str, Scalar("a"))]);
            && CheckExpression(t, BinOp(Add, Constant("5"), Ref("s"))) == Failure(TypeMismatch(Int, Str, Add))
            && CheckExpression(t, BinOp(Mul, Ref("s"), Constant("3"))) == Result<TypeTag>.Success(Str)
            && CheckExpression(t, BinOp(Mul, Ref("s"), Ref("t"))) == Failure(UndeclaredVariable("t"))
  {
  }

  /** An assignment may refer to its own name: the name is declared before
      the expression is checked. */
  lemma SelfReference()
    ensures var r := Run(Empty, [Assignment("x", Int, Compound(BinOp(Add, Ref("x"), Constant("1"))))], 1);
            && r.diagnostics == []
            && r.statements[0].varType == Int
  {
    var stmts := [Assignment("x", Int, Compound(BinOp(Add, Ref("x"), Constant("1"))))];
    assert stmts[..0] == [];
  }

  /** The declared type and the checked type are not reconciled: the table
      keeps the declared `str`, the statement and its tree node get the
      checked `int`, and nothing is reported. */
  lemma DeclaredTypeNotReconciled()
    ensures var s := Assignment("x", Str, Compound(BinOp(Add, Constant("1"), Constant("2"))));
            var r := Run(Empty, [s], 1);
            && r.diagnostics == []
            && r.table.entries["x"].varType == Str
            && r.statements[0].varType == Int
            && GenerateAst(r.table, r.statements).Success?
            && GenerateAst(r.table, r.statements).value[0].varType == Int
  {
    var stmts := [Assignment("x", Str, Compound(BinOp(Add, Constant("1"), Constant("2"))))];
    assert stmts[..0] == [];
  }

  /** An unknown operator is not an error: the statement's type becomes the
      absent type. A table holding an expression value cannot be listed. */
  lemma UnknownOperatorClearsType()
    ensures var s := Assignment("x", Int, Compound(BinOp(OtherOp("%"), Constant("7"), Constant("2"))));
            var r := Run(Empty, [s], 1);
            && r.diagnostics == []
            && r.statements[0].varType == NoType
            && r.table.Valid()
            && r.table.Render() == None
  {
    var stmts := [Assignment("x", Int, Compound(BinOp(OtherOp("%"), Constant("7"), Constant("2"))))];
    assert stmts[..0] == [];
    assert !Printable(Run(Empty, stmts, 1).table.entries["x"]);
  }

  /** A print ahead of the assignment of its name is reported during
      analysis, but the tree, generated after the whole batch, succeeds. */
  lemma PrintBeforeAssignment()
    ensures var r := Run(Empty, [Print("x"), Assignment("x", Int, Scalar("1"))], 1);
            && r.diagnostics == [Diagnostic(1, UndeclaredVariable("x"))]
            && GenerateAst(r.table, r.statements).Success?
  {
    var stmts := [Print("x"), Assignment("x", Int, Scalar("1"))];
    assert stmts[..1] == [stmts[0]];
  }

  /** A failed check does not undo the declaration: the name is in the table
      and the statement is reported as well. */
  lemma FailedCheckStillDeclares()
    ensures var s := Assignment("x", Int, Compound(BinOp(Add, Ref("y"), Constant("1"))));
            var r := Run(Empty, [s], 1);
            && r.diagnostics == [Diagnostic(1, UndeclaredVariable("y"))]
            && r.table == Table(["x"], map["x" := Entry(Int, Compound(BinOp(Add, Ref("y"), Constant("1"))))])
            && r.statements == [s]
  {
    var s := Assignment("x", Int, Compound(BinOp(Add, Ref("y"), Constant("1"))));
    RunOne(Empty, s, 1);
  }

  /** Checking is not idempotent: a self-referring sum of an int and a float
      variable is rewritten to float, and the rewritten statement, checked
      again against the same table, is a float + float mismatch. */
  lemma RecheckNotIdempotent()
    ensures var t := Table(["y"], map["y" := Entry(Float, Scalar("2.5"))]);
            var s := Assignment("x", Int, Compound(BinOp(Add, Ref("x"), Ref("y"))));
            && Step(t, s).statement.varType == Float
            && Step(t, s).error == None
            && Step(t, Step(t, s).statement).error == Some(TypeMismatch(Float, Float, Add))
  {
  }
}
