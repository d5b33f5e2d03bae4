/**
 * The batch as the analyzer's code actually runs it. The message of every
 * type-mismatch error reads an attribute that the operand records (plain
 * dictionaries) do not have, so building the message raises an attribute
 * error instead of the value error the statement boundary catches: the
 * first mismatch ends the whole batch. `Analysis.Run` is the intended
 * behaviour, where the mismatch is reported like any other error.
 */
module Findings {
  import opened Types
  import opened SymbolTables
  import opened Analysis

  /** A run that either completed or stopped at the line of the first type
      mismatch. */
  datatype Trace = Trace(result: RunResult, abortedAt: Option<int>)

  function RunAsWritten(t: Table, stmts: seq<Statement>, line: int): (tr: Trace)
    ensures tr.abortedAt.Some? ==> line <= tr.abortedAt.value < line + |stmts|
    ensures |tr.result.statements| == if tr.abortedAt.Some? then tr.abortedAt.value - line + 1 else |stmts|
    decreases |stmts|
  {
    if stmts == [] then Trace(RunResult(t, [], []), None)
    else
      var n := |stmts| - 1;
      var prev := RunAsWritten(t, stmts[..n], line);
      if prev.abortedAt.Some? then prev
      else
        var st := Step(prev.result.table, stmts[n]);
        if st.error.Some? && st.error.value.TypeMismatch? then
          // the declaration has happened; the statement keeps its type
          Trace(RunResult(st.table, prev.result.statements + [stmts[n]], prev.result.diagnostics), Some(line + n))
        else
          Trace(RunResult(st.table, prev.result.statements + [st.statement],
                          prev.result.diagnostics + Report(line + n, st.error)), None)
  }

  /** The code as written agrees with the intended run until the first type
      mismatch: a run without one is the intended run, and a run that stops
      has reported exactly the intended diagnostics of the earlier lines,
      none of them a mismatch, while the intended run reports the mismatch
      on the stopping line and goes on. */
  lemma {:induction false} AsWrittenStopsAtFirstMismatch(t: Table, stmts: seq<Statement>, line: int)
    ensures var tr := RunAsWritten(t, stmts, line);
            tr.abortedAt.None? ==> tr.result == Run(t, stmts, line)
    ensures var tr := RunAsWritten(t, stmts, line);
            var r := Run(t, stmts, line);
            tr.abortedAt.Some? ==>
              && line <= tr.abortedAt.value < line + |stmts|
              && tr.result.diagnostics <= r.diagnostics
              && (forall d :: d in tr.result.diagnostics ==> d.line < tr.abortedAt.value)
              && (exists d :: d in r.diagnostics && d.line == tr.abortedAt.value && d.kind.TypeMismatch?)
    ensures var tr := RunAsWritten(t, stmts, line);
            var r := Run(t, stmts, line);
            tr.abortedAt.Some? ==>
              forall d :: d in r.diagnostics && d.line < tr.abortedAt.value ==>
                d in tr.result.diagnostics && !d.kind.TypeMismatch?
    ensures var tr := RunAsWritten(t, stmts, line);
            tr.abortedAt.None? ==> forall d :: d in Run(t, stmts, line).diagnostics ==> !d.kind.TypeMismatch?
    decreases |stmts|
  {
    if stmts != [] {
      var n := |stmts| - 1;
      AsWrittenStopsAtFirstMismatch(t, stmts[..n], line);
      var prev := RunAsWritten(t, stmts[..n], line);
      var prevRun := Run(t, stmts[..n], line);
      var r := Run(t, stmts, line);
      var runStep := Step(prevRun.table, stmts[n]);
      assert r.diagnostics == prevRun.diagnostics + Report(line + n, runStep.error);
      if prev.abortedAt.Some? {
        assert RunAsWritten(t, stmts, line) == prev;
        var d :| d in prevRun.diagnostics && d.line == prev.abortedAt.value && d.kind.TypeMismatch?;
        assert d in r.diagnostics;
        PrefixGrows(prev.result.diagnostics, prevRun.diagnostics, Report(line + n, runStep.error));
        // the new statement's line is past the stopping line
        forall d | d in r.diagnostics && d.line < prev.abortedAt.value
          ensures d in prev.result.diagnostics && !d.kind.TypeMismatch?
        {
          assert d !in Report(line + n, runStep.error);
          assert d in prevRun.diagnostics;
        }
      } else {
        assert prev.result == prevRun;
        if runStep.error.Some? && runStep.error.value.TypeMismatch? {
          RunLines(t, stmts[..n], line);
          assert RunAsWritten(t, stmts, line).result.diagnostics == prevRun.diagnostics;
          assert Diagnostic(line + n, runStep.error.value) in r.diagnostics;
          forall d | d in r.diagnostics && d.line < line + n
            ensures d in prevRun.diagnostics && !d.kind.TypeMismatch?
          {
            assert d !in Report(line + n, runStep.error);
          }
        } else {
          assert r.table == runStep.table;
          assert r.statements == prevRun.statements + [runStep.statement];
          forall d | d in r.diagnostics ensures !d.kind.TypeMismatch? {
            if d !in prevRun.diagnostics {
              assert d in Report(line + n, runStep.error);
            }
          }
        }
      }
    }
  }

  /** A prefix of a sequence is a prefix of any extension of it. */
  lemma PrefixGrows<T>(p: seq<T>, s: seq<T>, extra: seq<T>)
    requires p <= s
    ensures p <= s + extra
  {
    assert (s + extra)[..|p|] == s[..|p|];
  }

  /** A string variable, an int literal added to it, and a print of a name
      nobody declared: the code as written stops at line 2 and never reaches
      line 3; the intended run reports both. */
  lemma MismatchAbortsRun()
    ensures var stmts := [Assignment("s", Str, Scalar("a")),
                          Assignment("x", Int, Compound(BinOp(Add, Constant("5"), Ref("s")))),
                          Print("y")];
            && RunAsWritten(Table([], map[]), stmts, 1).abortedAt == Some(2)
            && RunAsWritten(Table([], map[]), stmts, 1).result.diagnostics == []
            && Run(Table([], map[]), stmts, 1).diagnostics ==
                 [Diagnostic(2, TypeMismatch(Int, Str, Add)), Diagnostic(3, UndeclaredVariable("y"))]
  {
    var s0 := Assignment("s", Str, Scalar("a"));
    var s1 := Assignment("x", Int, Compound(BinOp(Add, Constant("5"), Ref("s"))));
    var s2 := Print("y");
    var t0 := Table([], map[]);
    var t1, t2 := MismatchBatchSteps(s0, s1, s2);
    RunTwo(t0, s0, s1, 1);
    assert [s0, s1, s2][..2] == [s0, s1];
    assert [s0, s1][..1] == [s0];
    assert [s0][..0] == [];
    assert RunAsWritten(t0, [s0], 1).abortedAt == None;
    assert RunAsWritten(t0, [s0], 1).result.table == t1;
    assert RunAsWritten(t0, [s0], 1).result.diagnostics == [];
  }

  /** The three statements of that batch, one step at a time. */
  lemma MismatchBatchSteps(s0: Statement, s1: Statement, s2: Statement) returns (t1: Table, t2: Table)
    requires s0 == Assignment("s", Str, Scalar("a"))
    requires s1 == Assignment("x", Int, Compound(BinOp(Add, Constant("5"), Ref("s"))))
    requires s2 == Print("y")
    ensures Step(Table([], map[]), s0) == StepResult(t1, s0, None)
    ensures Step(t1, s1) == StepResult(t2, s1, Some(TypeMismatch(Int, Str, Add)))
    ensures Step(t2, s2).error == Some(UndeclaredVariable("y"))
  {
    var t0 := Table([], map[]);
    t1 := t0.Declare("s", Str, Scalar("a")).value;
    t2 := t1.Declare("x", Int, s1.value).value;
    assert t2.entries["s"].varType == Str;
    assert CheckExpression(t2, s1.value.expr) == Failure(TypeMismatch(Int, Str, Add));
    assert t2.entries.Keys == {"s", "x"};
  }
}
