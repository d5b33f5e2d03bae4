/**
 * The semantic analyzer object: it owns a symbol table and processes a
 * batch of statements in place, overwriting the type of an assignment
 * whose expression it checks and collecting one diagnostic per failing
 * statement.
 */
module Analyzer {
  import opened Types
  import opened SymbolTables
  import opened Analysis

  class SemanticAnalyzer {
    const symbolTable: SymbolTable

    ghost predicate Valid()
      reads this, symbolTable
    {
      symbolTable.Valid()
    }

    constructor ()
      ensures Valid() && fresh(symbolTable)
      ensures symbolTable.State() == Table([], map[])
    {
      symbolTable := new SymbolTable();
    }

    /** Processes one statement against the table: an assignment is
        declared first, and its expression, if it has one, is checked
        afterwards; a print looks its name up. The statement comes back with
        the checked type when there was one, and the failure, if any, is
        returned instead of thrown. */
    method AnalyzeStatement(statement: Statement) returns (updated: Statement, error: Option<ErrorKind>)
      requires Valid()
      modifies symbolTable
      ensures Valid()
      ensures symbolTable.State() == Step(old(symbolTable.State()), statement).table
      ensures updated == Step(old(symbolTable.State()), statement).statement
      ensures error == Step(old(symbolTable.State()), statement).error
    {
      updated, error := statement, None;
      match statement {
        case Assignment(name, ty, value) =>
          var declared := symbolTable.Declare(name, ty, value);
          if declared.Fail? {
            error := Some(declared.error);
          } else if value.Compound? {
            var checked := CheckExpression(symbolTable.State(), value.expr);
            if checked.Failure? {
              error := Some(checked.error);
            } else {
              updated := statement.(varType := checked.value);
            }
          }
        case Print(name) =>
          var found := symbolTable.Lookup(name);
          if found.Failure? {
            error := Some(found.error);
          }
      }
    }

    /** Processes every statement in order, the first on line 1. A failure
        is caught at the statement boundary and reported, and processing
        goes on with the next statement. */
    method Analyze(statements: array<Statement>) returns (diagnostics: seq<Diagnostic>)
      requires Valid()
      modifies symbolTable, statements
      ensures Valid()
      ensures symbolTable.State() == Run(old(symbolTable.State()), old(statements[..]), 1).table
      ensures statements[..] == Run(old(symbolTable.State()), old(statements[..]), 1).statements
      ensures diagnostics == Run(old(symbolTable.State()), old(statements[..]), 1).diagnostics
    {
      ghost var initial := symbolTable.State();
      ghost var input := statements[..];
      diagnostics := [];
      var lineNumber := 1;
      var i := 0;
      while i < statements.Length
        invariant 0 <= i <= statements.Length
        invariant lineNumber == i + 1
        invariant symbolTable.Valid()
        invariant symbolTable.State() == Run(initial, input[..i], 1).table
        invariant statements[..] == Run(initial, input[..i], 1).statements + input[i..]
        invariant diagnostics == Run(initial, input[..i], 1).diagnostics
      {
        ghost var done := Run(initial, input[..i], 1).statements;
        assert statements[i] == input[i];
        var updated, error := AnalyzeStatement(statements[i]);
        statements[i] := updated;
        diagnostics := diagnostics + Report(lineNumber, error);
        RunSnoc(initial, input, i, StepResult(symbolTable.State(), updated, error));
        ReplaceNext(done, input, updated);
        lineNumber := lineNumber + 1;
        i := i + 1;
      }
      assert input[..i] == input;
      assert input[i..] == [];
    }
  }
}
