/**
  How the two runners' schedules fare under the schedule check: the
  tardiness variant always produces a consistent schedule, while the
  maintenance variant's schedule is consistent exactly when the engine's
  reported makespan covers every operation.
*/
module Consistency {
  import opened Wrappers
  import opened Text
  import opened Errors
  import opened Models
  import opened Extract
  import opened Validation
  import opened Normalize

  lemma DropPrefix(p: string, a: string, b: string)
    requires p + a == p + b
    ensures a == b
  {
    assert a == (p + a)[|p|..];
    assert b == (p + b)[|p|..];
  }

  lemma JobIdInjective(a: nat, b: nat)
    requires JobId(a) == JobId(b)
    ensures a == b
  {
    DropPrefix("J", ShowNat(a), ShowNat(b));
    ShowNatInjective(a, b);
  }

  lemma MachineIdInjective(a: nat, b: nat)
    requires MachineId(a) == MachineId(b)
    ensures a == b
  {
    DropPrefix("M", ShowNat(a), ShowNat(b));
    ShowNatInjective(a, b);
  }

  lemma OpIdInjective(i: nat, j: nat, j': nat)
    requires OpId(i, j) == OpId(i, j')
    ensures j == j'
  {
    var p := "J" + ShowNat(i) + "-";
    assert OpId(i, j) == p + ShowNat(j);
    assert OpId(i, j') == p + ShowNat(j');
    DropPrefix(p, ShowNat(j), ShowNat(j'));
    ShowNatInjective(j, j');
  }

  /** The machines M1..Mtasks have distinct ids. */
  lemma MachinesDistinct(tasks: int)
    ensures DistinctIds(Machines(tasks))
  {
    var ms := Machines(tasks);
    forall a, b | 0 <= a < b < |ms| ensures ms[a].id != ms[b].id {
      if ms[a].id == ms[b].id {
        MachineIdInjective(a + 1, b + 1);
      }
    }
  }

  /** Operation k has sound times and runs on machine m, one of
      M1..Mtasks. */
  lemma OperationSound(starts: seq<seq<int>>, durations: seq<seq<int>>, tasks: int, k: nat) returns (m: nat)
    requires IsMatrix(starts, |starts|, Max0(tasks)) && IsMatrix(durations, |starts|, Max0(tasks))
    requires Operations(starts, durations, Max0(tasks)).Success?
    requires k < |Operations(starts, durations, Max0(tasks)).value|
    ensures SoundTimes(Operations(starts, durations, Max0(tasks)).value[k])
    ensures m < |Machines(tasks)|
    ensures Machines(tasks)[m].id == Operations(starts, durations, Max0(tasks)).value[k].machineId
  {
    var cols := Max0(tasks);
    var g := OpGrid(starts, durations, cols);
    var i, j := OperationCell(starts, durations, cols, k);
    assert ValidOperation(g[i][j]);
    m := j;
  }

  /** Two different operations never share a (jobId, opId) pair. */
  lemma OperationKeysDiffer(starts: seq<seq<int>>, durations: seq<seq<int>>, cols: nat, a: nat, b: nat)
    requires IsMatrix(starts, |starts|, cols) && IsMatrix(durations, |starts|, cols)
    requires Operations(starts, durations, cols).Success?
    requires a < b < |Operations(starts, durations, cols).value|
    ensures OpKey(Operations(starts, durations, cols).value[a]) != OpKey(Operations(starts, durations, cols).value[b])
  {
    var ops := Operations(starts, durations, cols).value;
    var i, j := OperationCell(starts, durations, cols, a);
    var i', j' := OperationCell(starts, durations, cols, b);
    if OpKey(ops[a]) == OpKey(ops[b]) {
      JobIdInjective(i + 1, i' + 1);
      OpIdInjective(i + 1, j + 1, j' + 1);
    }
  }

  /** The operations built from a start-time matrix and a duration matrix
      have sound times, name machines among M1..Mtasks, and never repeat a
      (jobId, opId) pair. */
  lemma OperationsSound(starts: seq<seq<int>>, durations: seq<seq<int>>, tasks: int)
    requires IsMatrix(starts, |starts|, Max0(tasks)) && IsMatrix(durations, |starts|, Max0(tasks))
    requires Operations(starts, durations, Max0(tasks)).Success?
    ensures var ops := Operations(starts, durations, Max0(tasks)).value;
      && (forall k :: 0 <= k < |ops| ==> SoundTimes(ops[k]))
      && (forall k :: 0 <= k < |ops| ==>
            exists m :: 0 <= m < |Machines(tasks)| && Machines(tasks)[m].id == ops[k].machineId)
      && (forall a, b :: 0 <= a < b < |ops| ==> OpKey(ops[a]) != OpKey(ops[b]))
  {
    var ops := Operations(starts, durations, Max0(tasks)).value;
    forall k | 0 <= k < |ops|
      ensures SoundTimes(ops[k])
      ensures exists m :: 0 <= m < |Machines(tasks)| && Machines(tasks)[m].id == ops[k].machineId
    {
      var m := OperationSound(starts, durations, tasks, k);
      assert 0 <= m < |Machines(tasks)| && Machines(tasks)[m].id == ops[k].machineId;
    }
    assert forall k :: 0 <= k < |ops| ==>
      exists m :: 0 <= m < |Machines(tasks)| && Machines(tasks)[m].id == ops[k].machineId;
    forall a, b | 0 <= a < b < |ops| ensures OpKey(ops[a]) != OpKey(ops[b]) {
      OperationKeysDiffer(starts, durations, Max0(tasks), a, b);
    }
  }

  /** A schedule the tardiness runner returns always passes the schedule
      check, and satisfies the record constraints. */
  lemma TardinessOutputPasses(data: Data, search: SolverConfig, engine: (TardinessInput, Option<real>) -> EngineRun)
    requires Tardiness(data, search, engine).Success?
    ensures Consistent(Tardiness(data, search, engine).value.0)
    ensures Verdict(Tardiness(data, search, engine).value.0) == Pass
    ensures ValidSolution(Tardiness(data, search, engine).value.0)
  {
    var inp := TardinessInputOf(data).value;
    var result := engine(inp, SolveTimeout(search)).result;
    var s := RequireResult2d(result, "s", inp.jobs, inp.tasks).value;
    var ops := Operations(s, inp.d, Max0(inp.tasks)).value;
    OperationsSound(s, inp.d, inp.tasks);
    MachinesDistinct(inp.tasks);
    var sol := Tardiness(data, search, engine).value.0;
    assert sol.operations == ops && sol.machines == Machines(inp.tasks);
    assert sol.makespan == LargestEnd(ops);
    VerdictPassIff(sol);
  }

  /** A schedule made of the machines M1..Mtasks and the operations built
      from the start and duration matrices passes the schedule check
      exactly when its makespan is non-negative and no operation ends after
      it. */
  lemma BuiltScheduleVerdict(sol: Solution, starts: seq<seq<int>>, durations: seq<seq<int>>, tasks: int)
    requires IsMatrix(starts, |starts|, Max0(tasks)) && IsMatrix(durations, |starts|, Max0(tasks))
    requires Operations(starts, durations, Max0(tasks)).Success?
    requires sol.machines == Machines(tasks) && sol.operations == Operations(starts, durations, Max0(tasks)).value
    ensures Verdict(sol) == Pass <==>
      sol.makespan >= 0 && forall k :: 0 <= k < |sol.operations| ==> sol.operations[k].end <= sol.makespan
  {
    var ops := sol.operations;
    OperationsSound(starts, durations, tasks);
    MachinesDistinct(tasks);
    assert DistinctIds(sol.machines);
    assert forall k :: 0 <= k < |ops| ==> SoundTimes(ops[k]);
    assert forall k :: 0 <= k < |ops| ==> exists m :: 0 <= m < |sol.machines| && sol.machines[m].id == ops[k].machineId;
    assert forall a, b :: 0 <= a < b < |ops| ==> OpKey(ops[a]) != OpKey(ops[b]);
    VerdictPassIff(sol);
  }

  /** The maintenance schedule reports the engine's END as its makespan,
      satisfies the record constraints, and passes the schedule check
      exactly when no operation ends after END. */
  lemma MaintenanceSolutionPassesIff(inp: MaintenanceInput, s: seq<seq<int>>, end: int)
    requires MaintenanceShaped(inp) && IsMatrix(s, Max0(inp.jobs), Max0(inp.tasks))
    requires MaintenanceSolution(inp, s, end).Success?
    ensures ValidSolution(MaintenanceSolution(inp, s, end).value.0)
    ensures MaintenanceSolution(inp, s, end).value.0.makespan == end
    ensures var ops := MaintenanceSolution(inp, s, end).value.0.operations;
      Verdict(MaintenanceSolution(inp, s, end).value.0) == Pass <==> forall k :: 0 <= k < |ops| ==> ops[k].end <= end
  {
    var sol := MaintenanceSolution(inp, s, end).value.0;
    assert end >= 0 && sol.makespan == end;
    assert sol.operations == Operations(s, inp.procTime, Max0(inp.tasks)).value;
    assert sol.machines == Machines(inp.tasks);
    OperationsSound(s, inp.procTime, inp.tasks);
    BuiltScheduleVerdict(sol, s, inp.procTime, inp.tasks);
  }

  /** A schedule the maintenance runner returns has the engine's END as its
      makespan, reported rather than recomputed, and passes the schedule
      check exactly when END is at least every operation's end. */
  lemma MaintenanceOutputPassesIff(data: Data, search: SolverConfig, engine: (MaintenanceInput, Option<real>) -> EngineRun)
    requires Maintenance(data, search, engine).Success?
    ensures MaintenanceInputOf(data).Success?
    ensures var run := engine(MaintenanceInputOf(data).value, SolveTimeout(search));
      run.Assigned? && RequireResultInt(run.result, "END").Success?
    ensures var end := RequireResultInt(engine(MaintenanceInputOf(data).value, SolveTimeout(search)).result, "END").value;
      var sol := Maintenance(data, search, engine).value.0;
      && sol.makespan == end
      && (Verdict(sol) == Pass <==> forall k :: 0 <= k < |sol.operations| ==> sol.operations[k].end <= end)
    ensures ValidSolution(Maintenance(data, search, engine).value.0)
  {
    var inp := MaintenanceInputOf(data).value;
    var result := engine(inp, SolveTimeout(search)).result;
    var s := RequireResult2d(result, "S", inp.jobs, inp.tasks).value;
    var end := RequireResultInt(result, "END").value;
    assert Maintenance(data, search, engine) == MaintenanceSolution(inp, s, end);
    MaintenanceSolutionPassesIff(inp, s, end);
  }
}
