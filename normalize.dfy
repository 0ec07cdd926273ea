/**
  The two job-shop variants: reading the typed instance out of the loose
  data, handing it to the constraint engine, and turning the engine's start
  times into machines, operations, a makespan and variant statistics.

  The engine itself is a parameter: a function from the instance it is
  given (and the time limit it runs under) to what it reports.
*/
module Normalize {
  import opened Wrappers
  import opened Text
  import opened PyValues
  import opened Errors
  import opened Models
  import opened Extract
  import opened Validation

  /** What the constraint engine made of an instance: no solver installed,
      a run that found no solution, or the values of the output variables. */
  datatype EngineRun = SolverMissing | Unsatisfied | Assigned(result: Data)

  /** The time limit the engine runs under: the configured number of seconds
      when it is positive, none otherwise. */
  function SolveTimeout(search: SolverConfig): (r: Option<real>)
    ensures r.Some? <==> search.timeLimitSec > 0.0
    ensures r.Some? ==> r.value == search.timeLimitSec
  {
    if search.timeLimitSec > 0.0 then Some(search.timeLimitSec) else None
  }

  // ---------------------------------------------------------------------
  // Identifiers, machines, operations

  function JobId(i: nat): string { "J" + ShowNat(i) }

  function MachineId(j: nat): string { "M" + ShowNat(j) }

  function OpId(i: nat, j: nat): string { "J" + ShowNat(i) + "-" + ShowNat(j) }

  /** [Machine(id=f"M{j}", name=f"M{j}") for j in range(1, tasks + 1)] */
  function Machines(tasks: int): (ms: seq<Machine>)
    ensures |ms| == Max0(tasks)
    ensures forall k :: 0 <= k < |ms| ==> ms[k] == Machine(MachineId(k + 1), MachineId(k + 1))
  {
    seq(Max0(tasks), k requires 0 <= k < Max0(tasks) => Machine(MachineId(k + 1), MachineId(k + 1)))
  }

  /** The operation of job i on task j, both counted from 0 here and from 1
      in the identifiers: it starts at the engine's start time and lasts the
      instance's duration. */
  function Op(starts: seq<seq<int>>, durations: seq<seq<int>>, i: nat, j: nat): Operation
    requires i < |starts| && i < |durations| && j < |starts[i]| && j < |durations[i]|
  {
    Operation(JobId(i + 1), MachineId(j + 1), OpId(i + 1, j + 1),
              starts[i][j], starts[i][j] + durations[i][j], durations[i][j])
  }

  /** One operation per (job, task) cell. */
  function OpGrid(starts: seq<seq<int>>, durations: seq<seq<int>>, cols: nat): (g: seq<seq<Operation>>)
    requires IsMatrix(starts, |starts|, cols) && IsMatrix(durations, |starts|, cols)
    ensures IsMatrix(g, |starts|, cols)
    ensures forall i, j :: 0 <= i < |starts| && 0 <= j < cols ==> g[i][j] == Op(starts, durations, i, j)
  {
    seq(|starts|, i requires 0 <= i < |starts| =>
      seq(cols, j requires 0 <= j < cols => Op(starts, durations, i, j)))
  }

  /** The operations job by job, or the constraint error raised by building
      one with a negative time. */
  function Operations(starts: seq<seq<int>>, durations: seq<seq<int>>, cols: nat): Result<seq<Operation>, Error>
    requires IsMatrix(starts, |starts|, cols) && IsMatrix(durations, |starts|, cols)
  {
    var g := OpGrid(starts, durations, cols);
    if forall i, j :: 0 <= i < |starts| && 0 <= j < cols ==> ValidOperation(g[i][j])
    then Success(Flatten(g))
    else Failure(FieldConstraint("Operation"))
  }

  lemma FlattenSnoc<T>(m: seq<seq<T>>, i: nat)
    requires i < |m|
    ensures Flatten(m[..i + 1]) == Flatten(m[..i]) + m[i]
  {
    assert m[..i + 1][..i] == m[..i];
  }

  /** The nested loops of both runners that append one Operation per
      (job, task) pair, job by job. */
  method BuildOperations(starts: seq<seq<int>>, durations: seq<seq<int>>, cols: nat)
    returns (r: Result<seq<Operation>, Error>)
    requires IsMatrix(starts, |starts|, cols) && IsMatrix(durations, |starts|, cols)
    ensures r == Operations(starts, durations, cols)
  {
    ghost var g := OpGrid(starts, durations, cols);
    var ops: seq<Operation> := [];
    for i := 0 to |starts|
      invariant ops == Flatten(g[..i])
      invariant forall i', j :: 0 <= i' < i && 0 <= j < cols ==> ValidOperation(g[i'][j])
    {
      var row: seq<Operation> := [];
      for j := 0 to cols
        invariant row == g[i][..j]
        invariant forall j' :: 0 <= j' < j ==> ValidOperation(g[i][j'])
      {
        var start := starts[i][j];
        var duration := durations[i][j];
        var built := NewOperation(JobId(i + 1), MachineId(j + 1), OpId(i + 1, j + 1), start, start + duration, duration);
        assert g[i][j] == Operation(JobId(i + 1), MachineId(j + 1), OpId(i + 1, j + 1), start, start + duration, duration);
        if built.Failure? {
          assert !ValidOperation(g[i][j]);
          return Failure(built.error);
        }
        assert g[i][..j + 1] == g[i][..j] + [built.value];
        row := row + [built.value];
      }
      assert row == g[i];
      FlattenSnoc(g, i);
      ops := ops + row;
    }
    assert g[..|starts|] == g;
    r := Success(ops);
  }

  /** Operation (i, j) sits at position i * cols + j: job-major order, one
      per cell, each ending at its start plus its duration. */
  lemma OperationAt(starts: seq<seq<int>>, durations: seq<seq<int>>, cols: nat, i: nat, j: nat)
    requires IsMatrix(starts, |starts|, cols) && IsMatrix(durations, |starts|, cols)
    requires Operations(starts, durations, cols).Success?
    requires i < |starts| && j < cols
    ensures |Operations(starts, durations, cols).value| == |starts| * cols
    ensures i * cols + j < |starts| * cols
    ensures Operations(starts, durations, cols).value[i * cols + j] == Op(starts, durations, i, j)
    ensures Op(starts, durations, i, j).end == Op(starts, durations, i, j).start + Op(starts, durations, i, j).duration
  {
    var g := OpGrid(starts, durations, cols);
    FlattenChunks(g, cols);
    ChunksCell(Flatten(g), |starts|, cols, i, j);
  }

  /** Position k of a row-major rows x cols layout is cell (k / cols, k % cols). */
  lemma RowColumn(k: nat, rows: nat, cols: nat) returns (i: nat, j: nat)
    requires k < rows * cols
    ensures i < rows && j < cols && k == i * cols + j
  {
    assert cols > 0;
    i, j := k / cols, k % cols;
  }

  /** Every operation produced is the operation of one cell, the one whose
      row-major position it occupies. */
  lemma OperationCell(starts: seq<seq<int>>, durations: seq<seq<int>>, cols: nat, k: nat) returns (i: nat, j: nat)
    requires IsMatrix(starts, |starts|, cols) && IsMatrix(durations, |starts|, cols)
    requires Operations(starts, durations, cols).Success?
    requires k < |Operations(starts, durations, cols).value|
    ensures i < |starts| && j < cols && k == i * cols + j
    ensures Operations(starts, durations, cols).value[k] == Op(starts, durations, i, j)
  {
    var g := OpGrid(starts, durations, cols);
    FlattenChunks(g, cols);
    i, j := RowColumn(k, |starts|, cols);
    OperationAt(starts, durations, cols, i, j);
  }

  /** max((op.end for op in ops), default=0) */
  function LargestEnd(ops: seq<Operation>): (r: int)
    ensures ops == [] ==> r == 0
    ensures ops != [] ==> exists k :: 0 <= k < |ops| && ops[k].end == r
    ensures forall k :: 0 <= k < |ops| ==> ops[k].end <= r
    decreases |ops|
  {
    if ops == [] then 0
    else if |ops| == 1 then ops[0].end
    else
      var init := ops[..|ops| - 1];
      assert forall k :: 0 <= k < |init| ==> init[k] == ops[k];
      Max(LargestEnd(init), ops[|ops| - 1].end)
  }

  /** Over operations with non-negative ends, Python's max with default 0
      and the validator's running maximum from 0 agree. */
  lemma LargestEndIsMaxEnd(ops: seq<Operation>)
    requires forall k :: 0 <= k < |ops| ==> ops[k].end >= 0
    ensures LargestEnd(ops) == MaxEnd(ops)
  {
    if ops != [] {
      var k :| 0 <= k < |ops| && ops[k].end == LargestEnd(ops);
      if MaxEnd(ops) != 0 {
        var k' :| 0 <= k' < |ops| && ops[k'].end == MaxEnd(ops);
      }
    }
  }

  // ---------------------------------------------------------------------
  // Weighted tardiness variant

  datatype TardinessInput = TardinessInput(
    jobs: int,
    tasks: int,
    d: seq<seq<int>>,
    weights: seq<int>,
    dueDates: seq<int>)

  predicate TardinessShaped(inp: TardinessInput) {
    && inp.jobs >= 0
    && IsMatrix(inp.d, inp.jobs, Max0(inp.tasks))
    && |inp.weights| == inp.jobs && |inp.dueDates| == inp.jobs
  }

  /** jobs, tasks, d, weights and due_dates, read in that order. */
  function TardinessInputOf(data: Data): (r: Result<TardinessInput, Error>)
    ensures r.Success? ==> TardinessShaped(r.value)
  {
    var jobs :- RequireInt(data, "jobs");
    var tasks :- RequireInt(data, "tasks");
    var d :- Int2d(data, "d", jobs, tasks);
    var weights :- Require1dInt(data, "weights", jobs);
    var dueDates :- Require1dInt(data, "due_dates", jobs);
    Int2dShape(data, "d", jobs, tasks);
    Success(TardinessInput(jobs, tasks, d, weights, dueDates))
  }

  method ReadTardinessInput(data: Data) returns (r: Result<TardinessInput, Error>)
    ensures r == TardinessInputOf(data)
  {
    var jobs :- RequireInt(data, "jobs");
    var tasks :- RequireInt(data, "tasks");
    var d :- Require2dInt(data, "d", jobs, tasks);
    var weights :- Require1dInt(data, "weights", jobs);
    var dueDates :- Require1dInt(data, "due_dates", jobs);
    return Success(TardinessInput(jobs, tasks, d, weights, dueDates));
  }

  /** The schedule built from the engine's start times s and objective w:
      machines M1..Mtasks, one operation per (job, task), the makespan as
      the largest end, and w as the only statistic. */
  function TardinessSolution(inp: TardinessInput, s: seq<seq<int>>, w: int): Result<(Solution, Stats), Error>
    requires TardinessShaped(inp) && IsMatrix(s, inp.jobs, Max0(inp.tasks))
  {
    var ops :- Operations(s, inp.d, Max0(inp.tasks));
    var stats := map["w" := w];
    var sol :- NewSolution(LargestEnd(ops), Machines(inp.tasks), ops, stats);
    Success((sol, stats))
  }

  /** What _run_jobshop_tardanza returns or raises. */
  function Tardiness(data: Data, search: SolverConfig, engine: (TardinessInput, Option<real>) -> EngineRun)
    : Result<(Solution, Stats), Error>
  {
    var inp :- TardinessInputOf(data);
    match engine(inp, SolveTimeout(search))
    case SolverMissing => Failure(NoSolverFound)
    case Unsatisfied => Failure(NoFeasibleSolution)
    case Assigned(result) =>
      var s :- RequireResult2d(result, "s", inp.jobs, inp.tasks);
      var w :- RequireResultInt(result, "w");
      TardinessSolution(inp, s, w)
  }

  /** _run_jobshop_tardanza */
  method RunTardiness(data: Data, search: SolverConfig, engine: (TardinessInput, Option<real>) -> EngineRun)
    returns (r: Result<(Solution, Stats), Error>)
    ensures r == Tardiness(data, search, engine)
  {
    var inp :- ReadTardinessInput(data);
    var run := engine(inp, SolveTimeout(search));
    if run.SolverMissing? {
      return Failure(NoSolverFound);
    }
    if run.Unsatisfied? {
      return Failure(NoFeasibleSolution);
    }
    var s :- RequireResult2d(run.result, "s", inp.jobs, inp.tasks);
    var w :- RequireResultInt(run.result, "w");
    var machines := Machines(inp.tasks);
    var ops :- BuildOperations(s, inp.d, Max0(inp.tasks));
    var stats := map["w" := w];
    var solution :- NewSolution(LargestEnd(ops), machines, ops, stats);
    return Success((solution, stats));
  }

  // ---------------------------------------------------------------------
  // Maintenance-aware variant

  datatype MaintenanceInput = MaintenanceInput(
    jobs: int,
    tasks: int,
    procTime: seq<seq<int>>,
    maxWindows: int,
    maintStart: seq<seq<int>>,
    maintEnd: seq<seq<int>>,
    maintActive: seq<seq<bool>>)

  predicate MaintenanceShaped(inp: MaintenanceInput) {
    && IsMatrix(inp.procTime, Max0(inp.jobs), Max0(inp.tasks))
    && IsMatrix(inp.maintStart, Max0(inp.tasks), Max0(inp.maxWindows))
    && IsMatrix(inp.maintEnd, Max0(inp.tasks), Max0(inp.maxWindows))
    && IsMatrix(inp.maintActive, Max0(inp.tasks), Max0(inp.maxWindows))
  }

  lemma ShapeWithMax0<T>(m: seq<seq<T>>, rows: int, cols: int)
    requires IsMatrix(m, Max0(rows), cols)
    ensures IsMatrix(m, Max0(rows), Max0(cols))
  {
    if rows > 0 {
      assert |m[0]| == cols;
    }
  }

  /** JOBS, TASKS, PROC_TIME, MAX_MAINT_WINDOWS, MAINT_START, MAINT_END and
      MAINT_ACTIVE, read in that order. */
  function MaintenanceInputOf(data: Data): (r: Result<MaintenanceInput, Error>)
    ensures r.Success? ==> MaintenanceShaped(r.value)
  {
    var jobs :- RequireInt(data, "JOBS");
    var tasks :- RequireInt(data, "TASKS");
    var procTime :- Int2d(data, "PROC_TIME", jobs, tasks);
    var maxWindows :- RequireInt(data, "MAX_MAINT_WINDOWS");
    var maintStart :- Int2d(data, "MAINT_START", tasks, maxWindows);
    var maintEnd :- Int2d(data, "MAINT_END", tasks, maxWindows);
    var maintActive :- Bool2d(data, "MAINT_ACTIVE", tasks, maxWindows);
    Int2dShape(data, "PROC_TIME", jobs, tasks);
    ShapeWithMax0(procTime, jobs, tasks);
    Int2dShape(data, "MAINT_START", tasks, maxWindows);
    ShapeWithMax0(maintStart, tasks, maxWindows);
    Int2dShape(data, "MAINT_END", tasks, maxWindows);
    ShapeWithMax0(maintEnd, tasks, maxWindows);
    Bool2dShape(data, "MAINT_ACTIVE", tasks, maxWindows);
    ShapeWithMax0(maintActive, tasks, maxWindows);
    Success(MaintenanceInput(jobs, tasks, procTime, maxWindows, maintStart, maintEnd, maintActive))
  }

  method ReadMaintenanceInput(data: Data) returns (r: Result<MaintenanceInput, Error>)
    ensures r == MaintenanceInputOf(data)
  {
    var jobs :- RequireInt(data, "JOBS");
    var tasks :- RequireInt(data, "TASKS");
    var procTime :- Require2dInt(data, "PROC_TIME", jobs, tasks);
    var maxWindows :- RequireInt(data, "MAX_MAINT_WINDOWS");
    var maintStart :- Require2dInt(data, "MAINT_START", tasks, maxWindows);
    var maintEnd :- Require2dInt(data, "MAINT_END", tasks, maxWindows);
    var maintActive :- Require2dBool(data, "MAINT_ACTIVE", tasks, maxWindows);
    return Success(MaintenanceInput(jobs, tasks, procTime, maxWindows, maintStart, maintEnd, maintActive));
  }

  /** The length of a maintenance window, never negative. */
  function WindowLength(start: int, end: int): nat {
    Max0(end - start)
  }

  /** The lengths of the active windows of one machine, in window order. */
  function RowWindows(starts: seq<int>, ends: seq<int>, active: seq<bool>): (ws: seq<nat>)
    requires |starts| == |ends| == |active|
    decreases |active|
  {
    if active == [] then []
    else
      var n := |active| - 1;
      RowWindows(starts[..n], ends[..n], active[..n]) + (if active[n] then [WindowLength(starts[n], ends[n])] else [])
  }

  /** The lengths of all active windows, machine by machine. */
  function Windows(starts: seq<seq<int>>, ends: seq<seq<int>>, active: seq<seq<bool>>, cols: nat): seq<nat>
    requires IsMatrix(starts, |active|, cols) && IsMatrix(ends, |active|, cols) && IsMatrix(active, |active|, cols)
    decreases |active|
  {
    if active == [] then []
    else
      var n := |active| - 1;
      Windows(starts[..n], ends[..n], active[..n], cols) + RowWindows(starts[n], ends[n], active[n])
  }

  function Sum(xs: seq<nat>): nat
    decreases |xs|
  {
    if xs == [] then 0 else Sum(xs[..|xs| - 1]) + xs[|xs| - 1]
  }

  lemma {:induction false} SumAppend(a: seq<nat>, b: seq<nat>)
    ensures Sum(a + b) == Sum(a) + Sum(b)
    decreases |b|
  {
    if b != [] {
      assert (a + b)[..|a + b| - 1] == a + b[..|b| - 1];
      SumAppend(a, b[..|b| - 1]);
    } else {
      assert a + b == a;
    }
  }

  /** maint_windows and maint_time: how many cells are active and the sum of
      their lengths. */
  function MaintenanceStatsOf(inp: MaintenanceInput): (stats: Stats)
    requires MaintenanceShaped(inp)
  {
    var ws := Windows(inp.maintStart, inp.maintEnd, inp.maintActive, Max0(inp.maxWindows));
    map["maint_windows" := |ws|, "maint_time" := Sum(ws)]
  }

  lemma RowStep(starts: seq<int>, ends: seq<int>, active: seq<bool>, k: nat)
    requires |starts| == |ends| == |active| && k < |active|
    ensures RowWindows(starts[..k + 1], ends[..k + 1], active[..k + 1]) ==
      RowWindows(starts[..k], ends[..k], active[..k]) + (if active[k] then [WindowLength(starts[k], ends[k])] else [])
  {
    assert starts[..k + 1][..k] == starts[..k];
    assert ends[..k + 1][..k] == ends[..k];
    assert active[..k + 1][..k] == active[..k];
  }

  lemma WindowsStep(starts: seq<seq<int>>, ends: seq<seq<int>>, active: seq<seq<bool>>, cols: nat, m: nat)
    requires IsMatrix(starts, |active|, cols) && IsMatrix(ends, |active|, cols) && IsMatrix(active, |active|, cols)
    requires m < |active|
    ensures Windows(starts[..m + 1], ends[..m + 1], active[..m + 1], cols) ==
      Windows(starts[..m], ends[..m], active[..m], cols) + RowWindows(starts[m], ends[m], active[m])
  {
    assert starts[..m + 1][..m] == starts[..m];
    assert ends[..m + 1][..m] == ends[..m];
    assert active[..m + 1][..m] == active[..m];
  }

  /** The inner loop of the maintenance count, over one machine's window
      slots: how many are active and the sum of their lengths. */
  method CountRow(starts: seq<int>, ends: seq<int>, active: seq<bool>) returns (count: int, time: int)
    requires |starts| == |ends| == |active|
    ensures count == |RowWindows(starts, ends, active)| && time == Sum(RowWindows(starts, ends, active))
  {
    count, time := 0, 0;
    for k := 0 to |active|
      invariant var row := RowWindows(starts[..k], ends[..k], active[..k]);
        count == |row| && time == Sum(row)
    {
      RowStep(starts, ends, active, k);
      ghost var row := RowWindows(starts[..k], ends[..k], active[..k]);
      if active[k] {
        var dur := Max0(ends[k] - starts[k]);
        SumAppend(row, [dur]);
        count := count + 1;
        time := time + dur;
      } else {
        assert row + [] == row;
      }
    }
    assert starts[..|active|] == starts && ends[..|active|] == ends && active[..|active|] == active;
  }

  /** The counting loop of _run_jobshop_mantenimiento: one pass over every
      (machine, window) cell, counting the active ones and adding up
      max(0, end - start) for them. */
  method CountMaintenance(inp: MaintenanceInput) returns (maintWindows: int, maintTime: int)
    requires MaintenanceShaped(inp)
    ensures var ws := Windows(inp.maintStart, inp.maintEnd, inp.maintActive, Max0(inp.maxWindows));
      maintWindows == |ws| && maintTime == Sum(ws)
  {
    var cols := Max0(inp.maxWindows);
    var starts, ends, active := inp.maintStart, inp.maintEnd, inp.maintActive;
    maintWindows, maintTime := 0, 0;
    for m := 0 to Max0(inp.tasks)
      invariant var ws := Windows(starts[..m], ends[..m], active[..m], cols);
        maintWindows == |ws| && maintTime == Sum(ws)
    {
      WindowsStep(starts, ends, active, cols, m);
      ghost var before := Windows(starts[..m], ends[..m], active[..m], cols);
      var count, time := CountRow(starts[m], ends[m], active[m]);
      SumAppend(before, RowWindows(starts[m], ends[m], active[m]));
      maintWindows := maintWindows + count;
      maintTime := maintTime + time;
    }
    assert starts[..Max0(inp.tasks)] == starts && ends[..Max0(inp.tasks)] == ends;
    assert active[..Max0(inp.tasks)] == active;
  }

  /** One machine with two window slots, the first active from 10 to 25:
      one window, of length 15. */
  lemma MaintenanceStatsExample()
    ensures MaintenanceStatsOf(MaintenanceInput(0, 1, [], 2, [[10, 0]], [[25, 0]], [[true, false]]))
      == map["maint_windows" := 1, "maint_time" := 15]
  {
    var starts, ends, active := [[10, 0]], [[25, 0]], [[true, false]];
    assert RowWindows([], [], []) == [];
    assert RowWindows([10], [25], [true]) == [15] by {
      assert [10][..0] == [] && [25][..0] == [] && [true][..0] == [];
    }
    assert RowWindows([10, 0], [25, 0], [true, false]) == [15] by {
      assert [10, 0][..1] == [10] && [25, 0][..1] == [25] && [true, false][..1] == [true];
    }
    assert starts[..0] == [] && ends[..0] == [] && active[..0] == [];
    assert Windows(starts, ends, active, 2) == [15];
    assert Sum([15]) == 15 by {
      assert [15][..0] == [];
    }
  }

  function CountTrue(bs: seq<bool>): nat
    decreases |bs|
  {
    if bs == [] then 0 else CountTrue(bs[..|bs| - 1]) + (if bs[|bs| - 1] then 1 else 0)
  }

  lemma {:induction false} CountTrueAppend(a: seq<bool>, b: seq<bool>)
    ensures CountTrue(a + b) == CountTrue(a) + CountTrue(b)
    decreases |b|
  {
    if b == [] {
      assert a + b == a;
    } else {
      assert (a + b)[..|a + b| - 1] == a + b[..|b| - 1];
      CountTrueAppend(a, b[..|b| - 1]);
    }
  }

  lemma {:induction false} CountTrueBound(bs: seq<bool>)
    ensures CountTrue(bs) <= |bs|
    decreases |bs|
  {
    if bs != [] {
      CountTrueBound(bs[..|bs| - 1]);
    }
  }

  lemma {:induction false} RowWindowCount(starts: seq<int>, ends: seq<int>, active: seq<bool>)
    requires |starts| == |ends| == |active|
    ensures |RowWindows(starts, ends, active)| == CountTrue(active)
    decreases |active|
  {
    if active != [] {
      var n := |active| - 1;
      RowWindowCount(starts[..n], ends[..n], active[..n]);
    }
  }

  /** maint_windows counts exactly the active cells, so it never exceeds
      the number of (machine, window) cells. */
  lemma {:induction false} WindowCount(starts: seq<seq<int>>, ends: seq<seq<int>>, active: seq<seq<bool>>, cols: nat)
    requires IsMatrix(starts, |active|, cols) && IsMatrix(ends, |active|, cols) && IsMatrix(active, |active|, cols)
    ensures |Windows(starts, ends, active, cols)| == CountTrue(Flatten(active))
    ensures |Windows(starts, ends, active, cols)| <= |active| * cols
    decreases |active|
  {
    if active != [] {
      var n := |active| - 1;
      WindowCount(starts[..n], ends[..n], active[..n], cols);
      RowWindowCount(starts[n], ends[n], active[n]);
      CountTrueAppend(Flatten(active[..n]), active[n]);
      FlattenChunks(active, cols);
      CountTrueBound(Flatten(active));
    }
  }

  /** Only active cells are read: changing the start or end of an inactive
      window changes nothing. */
  lemma {:induction false} RowInactiveIgnored(starts: seq<int>, ends: seq<int>, starts': seq<int>, ends': seq<int>, active: seq<bool>)
    requires |starts| == |ends| == |starts'| == |ends'| == |active|
    requires forall k :: 0 <= k < |active| && active[k] ==> starts[k] == starts'[k] && ends[k] == ends'[k]
    ensures RowWindows(starts, ends, active) == RowWindows(starts', ends', active)
    decreases |active|
  {
    if active != [] {
      var n := |active| - 1;
      RowInactiveIgnored(starts[..n], ends[..n], starts'[..n], ends'[..n], active[..n]);
    }
  }

  lemma {:induction false} InactiveWindowsIgnored(starts: seq<seq<int>>, ends: seq<seq<int>>,
                                                  starts': seq<seq<int>>, ends': seq<seq<int>>,
                                                  active: seq<seq<bool>>, cols: nat)
    requires IsMatrix(starts, |active|, cols) && IsMatrix(ends, |active|, cols) && IsMatrix(active, |active|, cols)
    requires IsMatrix(starts', |active|, cols) && IsMatrix(ends', |active|, cols)
    requires forall i, j :: 0 <= i < |active| && 0 <= j < cols && active[i][j] ==>
      starts[i][j] == starts'[i][j] && ends[i][j] == ends'[i][j]
    ensures Windows(starts, ends, active, cols) == Windows(starts', ends', active, cols)
    decreases |active|
  {
    if active != [] {
      var n := |active| - 1;
      InactiveWindowsIgnored(starts[..n], ends[..n], starts'[..n], ends'[..n], active[..n], cols);
      RowInactiveIgnored(starts[n], ends[n], starts'[n], ends'[n], active[n]);
    }
  }

  /** The schedule built from the engine's start times S and makespan END:
      machines M1..Mtasks, one operation per (job, task), END taken as the
      makespan as reported, and the maintenance statistics. */
  function MaintenanceSolution(inp: MaintenanceInput, s: seq<seq<int>>, end: int): Result<(Solution, Stats), Error>
    requires MaintenanceShaped(inp) && IsMatrix(s, Max0(inp.jobs), Max0(inp.tasks))
  {
    var ops :- Operations(s, inp.procTime, Max0(inp.tasks));
    var stats := MaintenanceStatsOf(inp);
    var sol :- NewSolution(end, Machines(inp.tasks), ops, stats);
    Success((sol, stats))
  }

  /** What _run_jobshop_mantenimiento returns or raises. */
  function Maintenance(data: Data, search: SolverConfig, engine: (MaintenanceInput, Option<real>) -> EngineRun)
    : Result<(Solution, Stats), Error>
  {
    var inp :- MaintenanceInputOf(data);
    match engine(inp, SolveTimeout(search))
    case SolverMissing => Failure(NoSolverFound)
    case Unsatisfied => Failure(NoFeasibleSolution)
    case Assigned(result) =>
      var s :- RequireResult2d(result, "S", inp.jobs, inp.tasks);
      var end :- RequireResultInt(result, "END");
      MaintenanceSolution(inp, s, end)
  }

  /** _run_jobshop_mantenimiento */
  method RunMaintenance(data: Data, search: SolverConfig, engine: (MaintenanceInput, Option<real>) -> EngineRun)
    returns (r: Result<(Solution, Stats), Error>)
    ensures r == Maintenance(data, search, engine)
  {
    var inp :- ReadMaintenanceInput(data);
    var run := engine(inp, SolveTimeout(search));
    if run.SolverMissing? {
      return Failure(NoSolverFound);
    }
    if run.Unsatisfied? {
      return Failure(NoFeasibleSolution);
    }
    var s :- RequireResult2d(run.result, "S", inp.jobs, inp.tasks);
    var end :- RequireResultInt(run.result, "END");
    var machines := Machines(inp.tasks);
    var ops :- BuildOperations(s, inp.procTime, Max0(inp.tasks));
    var maintWindows, maintTime := CountMaintenance(inp);
    var stats := map["maint_windows" := maintWindows, "maint_time" := maintTime];
    var solution :- NewSolution(end, machines, ops, stats);
    return Success((solution, stats));
  }
}
