/**
  The checks applied to a solver configuration before a run and to a
  schedule after it. Each check reports the first problem it meets, in the
  order the source tests them.
*/
module Validation {
  import opened Wrappers
  import opened Errors
  import opened Models

  // ---------------------------------------------------------------------
  // Solver configuration

  /** validate_search: the time limit is checked first, then the number of
      solutions; it passes exactly on the configurations the record's own
      field constraints allow. */
  function ValidateSearch(c: SolverConfig): (r: Outcome<Error>)
    ensures r.Pass? <==> ValidSolverConfig(c)
    ensures c.timeLimitSec < 0.0 ==> r == Fail(NegativeTimeLimit)
    ensures c.timeLimitSec >= 0.0 && c.maxSolutions < 1 ==> r == Fail(MaxSolutionsBelowOne)
  {
    if c.timeLimitSec < 0.0 then Fail(NegativeTimeLimit)
    else if c.maxSolutions < 1 then Fail(MaxSolutionsBelowOne)
    else Pass
  }

  /** A configuration that could be built at all passes validate_search:
      the check adds nothing to the record's own constraints. */
  lemma BuiltConfigPassesSearchCheck(problemType: string, solver: string, searchHeuristic: string,
                                     valueChoice: string, timeLimitSec: real, maxSolutions: int)
    requires NewSolverConfig(problemType, solver, searchHeuristic, valueChoice, timeLimitSec, maxSolutions).Success?
    ensures ValidateSearch(NewSolverConfig(problemType, solver, searchHeuristic, valueChoice,
                                           timeLimitSec, maxSolutions).value) == Pass
  {
  }

  // ---------------------------------------------------------------------
  // Schedule

  predicate DistinctIds(ms: seq<Machine>) {
    forall i, j :: 0 <= i < j < |ms| ==> ms[i].id != ms[j].id
  }

  /** [m.id for m in machines] */
  function IdList(ms: seq<Machine>): (ids: seq<string>)
    ensures |ids| == |ms| && forall k :: 0 <= k < |ms| ==> ids[k] == ms[k].id
  {
    seq(|ms|, k requires 0 <= k < |ms| => ms[k].id)
  }

  /** set(xs) */
  function ToSet(xs: seq<string>): set<string>
    decreases |xs|
  {
    if xs == [] then {} else ToSet(xs[..|xs| - 1]) + {xs[|xs| - 1]}
  }

  /** set(xs) holds exactly the elements of xs. */
  lemma {:induction false} ToSetMembers(xs: seq<string>)
    ensures forall x :: x in ToSet(xs) <==> x in xs
    decreases |xs|
  {
    if xs != [] {
      var init := xs[..|xs| - 1];
      ToSetMembers(init);
      assert xs == init + [xs[|xs| - 1]];
    }
  }

  predicate Distinct(xs: seq<string>) {
    forall i, j :: 0 <= i < j < |xs| ==> xs[i] != xs[j]
  }

  /** Appending an element keeps a list repetition-free exactly when the
      list was and did not hold the element. */
  lemma DistinctSnoc(xs: seq<string>)
    requires xs != []
    ensures Distinct(xs) <==> Distinct(xs[..|xs| - 1]) && xs[|xs| - 1] !in xs[..|xs| - 1]
  {
    var init := xs[..|xs| - 1];
    assert forall k :: 0 <= k < |init| ==> init[k] == xs[k];
  }

  /** A list and the set of its elements have the same size exactly when no
      element repeats: the duplicate-id test len(ids) != len(set(ids)). */
  lemma {:induction false} SetSizeIffDistinct(xs: seq<string>)
    ensures |ToSet(xs)| <= |xs|
    ensures |ToSet(xs)| == |xs| <==> Distinct(xs)
    decreases |xs|
  {
    if xs != [] {
      var init := xs[..|xs| - 1];
      var last := xs[|xs| - 1];
      SetSizeIffDistinct(init);
      ToSetMembers(init);
      DistinctSnoc(xs);
      assert ToSet(xs) == ToSet(init) + {last};
      if last in init {
        assert ToSet(xs) == ToSet(init);
      } else {
        assert |ToSet(xs)| == |ToSet(init)| + 1;
      }
    }
  }

  function OpKey(op: Operation): (string, string) {
    (op.jobId, op.opId)
  }

  /** The (jobId, opId) pairs of ops. */
  function OpKeys(ops: seq<Operation>): (r: set<(string, string)>)
    ensures forall k :: 0 <= k < |ops| ==> OpKey(ops[k]) in r
    ensures forall key :: key in r ==> exists k :: 0 <= k < |ops| && OpKey(ops[k]) == key
    decreases |ops|
  {
    if ops == [] then {}
    else
      var init := ops[..|ops| - 1];
      assert forall k :: 0 <= k < |init| ==> init[k] == ops[k];
      OpKeys(init) + {OpKey(ops[|ops| - 1])}
  }

  /** The problem an operation raises, given the machine ids and the pairs
      of the operations before it: negative times, then end before start,
      then an unknown machine, then a repeated (jobId, opId). */
  function OpFault(op: Operation, machineIds: set<string>, seen: set<(string, string)>): Option<Error> {
    if op.start < 0 || op.end < 0 || op.duration < 0 then Some(NegativeTime)
    else if op.end < op.start then Some(EndBeforeStart)
    else if op.machineId !in machineIds then Some(UnknownMachine(op.machineId))
    else if OpKey(op) in seen then Some(DuplicateOperation(op.jobId, op.opId))
    else None
  }

  /** The problem raised by the first faulty operation, if any. */
  function FirstOpFault(ops: seq<Operation>, machineIds: set<string>): Option<Error>
    decreases |ops|
  {
    if ops == [] then None
    else
      var init := ops[..|ops| - 1];
      match FirstOpFault(init, machineIds)
      case Some(e) => Some(e)
      case None => OpFault(ops[|ops| - 1], machineIds, OpKeys(init))
  }

  function Max(a: int, b: int): int {
    if a < b then b else a
  }

  /** The running maximum of the end times, starting from 0. */
  function MaxEnd(ops: seq<Operation>): (r: int)
    ensures r >= 0
    ensures forall k :: 0 <= k < |ops| ==> ops[k].end <= r
    ensures r == 0 || exists k :: 0 <= k < |ops| && ops[k].end == r
    decreases |ops|
  {
    if ops == [] then 0
    else
      var init := ops[..|ops| - 1];
      assert forall k :: 0 <= k < |init| ==> init[k] == ops[k];
      Max(MaxEnd(init), ops[|ops| - 1].end)
  }

  /** What validate_solution raises, if anything: duplicate machine ids
      first, then the first faulty operation, then a makespan below the
      largest end. */
  function Verdict(sol: Solution): Outcome<Error> {
    var ids := IdList(sol.machines);
    if |ids| != |ToSet(ids)| then Fail(DuplicateMachineId)
    else match FirstOpFault(sol.operations, ToSet(ids))
      case Some(e) => Fail(e)
      case None => if sol.makespan < MaxEnd(sol.operations) then Fail(MakespanBelowMaxEnd) else Pass
  }

  lemma FaultStep(ops: seq<Operation>, i: nat, machineIds: set<string>)
    requires i < |ops|
    ensures ops[..i + 1][..i] == ops[..i] && ops[..i + 1][i] == ops[i]
    ensures FirstOpFault(ops[..i + 1], machineIds) ==
      match FirstOpFault(ops[..i], machineIds)
      case Some(e) => Some(e)
      case None => OpFault(ops[i], machineIds, OpKeys(ops[..i]))
    ensures OpKeys(ops[..i + 1]) == OpKeys(ops[..i]) + {OpKey(ops[i])}
    ensures MaxEnd(ops[..i + 1]) == Max(MaxEnd(ops[..i]), ops[i].end)
  {
    assert ops[..i + 1][..i] == ops[..i];
  }

  /** The loop of validate_solution: the operations in order, tracking the
      pairs seen so far and the largest end, stopping at the first fault. */
  method ScanOperations(ops: seq<Operation>, machineSet: set<string>) returns (fault: Option<Error>, maxEnd: int)
    ensures fault == FirstOpFault(ops, machineSet)
    ensures fault.None? ==> maxEnd == MaxEnd(ops)
  {
    var seen: set<(string, string)> := {};
    maxEnd := 0;
    for i := 0 to |ops|
      invariant FirstOpFault(ops[..i], machineSet) == None
      invariant seen == OpKeys(ops[..i])
      invariant maxEnd == MaxEnd(ops[..i])
    {
      FaultStep(ops, i, machineSet);
      var op := ops[i];
      fault := None;
      if op.start < 0 || op.end < 0 || op.duration < 0 {
        fault := Some(NegativeTime);
      } else if op.end < op.start {
        fault := Some(EndBeforeStart);
      } else if op.machineId !in machineSet {
        fault := Some(UnknownMachine(op.machineId));
      } else if (op.jobId, op.opId) in seen {
        fault := Some(DuplicateOperation(op.jobId, op.opId));
      }
      if fault.Some? {
        FirstFaultDecides(ops, machineSet, i);
        return;
      }
      seen := seen + {(op.jobId, op.opId)};
      if op.end > maxEnd {
        maxEnd := op.end;
      }
    }
    assert ops[..|ops|] == ops;
    fault := None;
  }

  /** validate_solution */
  method ValidateSolution(sol: Solution) returns (r: Outcome<Error>)
    ensures r == Verdict(sol)
  {
    var machineIds := IdList(sol.machines);
    var machineSet := ToSet(machineIds);
    if |machineIds| != |machineSet| {
      return Fail(DuplicateMachineId);
    }
    var fault, maxEnd := ScanOperations(sol.operations, machineSet);
    if fault.Some? {
      return Fail(fault.value);
    }
    if sol.makespan < maxEnd {
      return Fail(MakespanBelowMaxEnd);
    }
    return Pass;
  }

  // ---------------------------------------------------------------------
  // What passing means

  /** An operation whose times are usable: all non-negative, the end not
      before the start. */
  predicate SoundTimes(op: Operation) {
    op.start >= 0 && op.end >= 0 && op.duration >= 0 && op.end >= op.start
  }

  /** The schedule contract, stated as a whole rather than as a scan. */
  predicate Consistent(sol: Solution) {
    var ops := sol.operations;
    && DistinctIds(sol.machines)
    && (forall k :: 0 <= k < |ops| ==> SoundTimes(ops[k]))
    && (forall k :: 0 <= k < |ops| ==> exists m :: 0 <= m < |sol.machines| && sol.machines[m].id == ops[k].machineId)
    && (forall i, j :: 0 <= i < j < |ops| ==> OpKey(ops[i]) != OpKey(ops[j]))
    && sol.makespan >= 0
    && (forall k :: 0 <= k < |ops| ==> ops[k].end <= sol.makespan)
  }

  predicate OpsAcceptable(ops: seq<Operation>, machineIds: set<string>) {
    && (forall k :: 0 <= k < |ops| ==> SoundTimes(ops[k]) && ops[k].machineId in machineIds)
    && (forall i, j :: 0 <= i < j < |ops| ==> OpKey(ops[i]) != OpKey(ops[j]))
  }

  /** No operation is faulty exactly when all have sound times and known
      machines and no (jobId, opId) pair repeats. */
  lemma {:induction false} NoFaultIff(ops: seq<Operation>, machineIds: set<string>)
    ensures FirstOpFault(ops, machineIds).None? <==> OpsAcceptable(ops, machineIds)
    decreases |ops|
  {
    if ops != [] {
      NoFaultIff(ops[..|ops| - 1], machineIds);
      AcceptableSnoc(ops, machineIds);
    }
  }

  /** The operations are acceptable exactly when those before the last one
      are and the last one raises nothing. */
  lemma AcceptableSnoc(ops: seq<Operation>, machineIds: set<string>)
    requires ops != []
    ensures OpsAcceptable(ops, machineIds) <==>
      OpsAcceptable(ops[..|ops| - 1], machineIds) &&
      OpFault(ops[|ops| - 1], machineIds, OpKeys(ops[..|ops| - 1])).None?
  {
    var init := ops[..|ops| - 1];
    var last := ops[|ops| - 1];
    assert forall k :: 0 <= k < |init| ==> init[k] == ops[k];
    if OpsAcceptable(ops, machineIds) {
      assert OpsAcceptable(init, machineIds);
      assert OpKey(last) !in OpKeys(init);
    }
    if OpsAcceptable(init, machineIds) && OpFault(last, machineIds, OpKeys(init)).None? {
      forall i, j | 0 <= i < j < |ops| ensures OpKey(ops[i]) != OpKey(ops[j]) {
        if j == |ops| - 1 {
          assert OpKey(init[i]) in OpKeys(init);
        } else {
          assert OpKey(init[i]) != OpKey(init[j]);
        }
      }
    }
  }

  /** The duplicate-id test rejects exactly the machine lists with a
      repeated id. */
  lemma DuplicateTestIff(ms: seq<Machine>)
    ensures |IdList(ms)| == |ToSet(IdList(ms))| <==> DistinctIds(ms)
  {
    var ids := IdList(ms);
    SetSizeIffDistinct(ids);
    assert forall i, j :: 0 <= i < j < |ids| ==> (ids[i] != ids[j] <==> ms[i].id != ms[j].id);
  }

  lemma KnownMachineIff(ms: seq<Machine>, machineId: string)
    ensures machineId in ToSet(IdList(ms)) <==> exists m :: 0 <= m < |ms| && ms[m].id == machineId
  {
    var ids := IdList(ms);
    ToSetMembers(ids);
    if machineId in ToSet(ids) {
      var m :| 0 <= m < |ids| && ids[m] == machineId;
      assert ms[m].id == machineId;
    }
    if exists m :: 0 <= m < |ms| && ms[m].id == machineId {
      var m :| 0 <= m < |ms| && ms[m].id == machineId;
      assert ids[m] == machineId;
    }
  }

  /** validate_solution accepts a schedule exactly when it is consistent. */
  lemma VerdictPassIff(sol: Solution)
    ensures Verdict(sol) == Pass <==> Consistent(sol)
  {
    var ops := sol.operations;
    var machineSet := ToSet(IdList(sol.machines));
    DuplicateTestIff(sol.machines);
    NoFaultIff(ops, machineSet);
    forall k | 0 <= k < |ops|
      ensures ops[k].machineId in machineSet <==>
        exists m :: 0 <= m < |sol.machines| && sol.machines[m].id == ops[k].machineId
    {
      KnownMachineIff(sol.machines, ops[k].machineId);
    }
  }

  /** Machine ids are checked before any operation: a repeated id is
      reported whatever the operations hold. */
  lemma DuplicateIdReportedFirst(sol: Solution, i: nat, j: nat)
    requires i < j < |sol.machines| && sol.machines[i].id == sol.machines[j].id
    ensures Verdict(sol) == Fail(DuplicateMachineId)
  {
    DuplicateTestIff(sol.machines);
  }

  /** The operations are checked in order: the first faulty one decides the
      error, whatever follows it. */
  lemma {:induction false} FirstFaultDecides(ops: seq<Operation>, machineIds: set<string>, k: nat)
    requires k < |ops| && FirstOpFault(ops[..k], machineIds).None?
    requires OpFault(ops[k], machineIds, OpKeys(ops[..k])).Some?
    ensures FirstOpFault(ops, machineIds) == OpFault(ops[k], machineIds, OpKeys(ops[..k]))
    decreases |ops|
  {
    FaultStep(ops, k, machineIds);
    if k + 1 < |ops| {
      var init := ops[..|ops| - 1];
      assert init[..k] == ops[..k] && init[k] == ops[k];
      FirstFaultDecides(init, machineIds, k);
    } else {
      assert ops[..k + 1] == ops;
    }
  }
}
