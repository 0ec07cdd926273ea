/**
  The domain records: the solver configuration, machines, operations,
  maintenance windows, the schedule and the envelope it travels in. Each
  enumerated literal is a datatype whose parser accepts exactly the
  literal's spelling, and each numeric field constraint is a validity
  predicate checked by the record's constructor function.
*/
module Models {
  import opened Wrappers
  import opened Errors

  datatype ProblemType = JsspMaint | TardanzaPonderada

  function ProblemTypeName(p: ProblemType): string {
    match p
    case JsspMaint => "jssp_maint"
    case TardanzaPonderada => "tardanza_ponderada"
  }

  /** The literal check on problemType: accepts a name iff it is one of the
      two spellings, and gives back the value spelled that way. */
  function ParseProblemType(s: string): (r: Option<ProblemType>)
    ensures r.Some? ==> ProblemTypeName(r.value) == s
    ensures r.None? ==> forall p :: ProblemTypeName(p) != s
  {
    if s == "jssp_maint" then Some(JsspMaint)
    else if s == "tardanza_ponderada" then Some(TardanzaPonderada)
    else None
  }

  datatype SolverName = Chuffed | Gecode | OrTools

  function SolverNameText(b: SolverName): string {
    match b
    case Chuffed => "chuffed"
    case Gecode => "gecode"
    case OrTools => "or-tools"
  }

  function ParseSolverName(s: string): (r: Option<SolverName>)
    ensures r.Some? ==> SolverNameText(r.value) == s
    ensures r.None? ==> forall b :: SolverNameText(b) != s
  {
    if s == "chuffed" then Some(Chuffed)
    else if s == "gecode" then Some(Gecode)
    else if s == "or-tools" then Some(OrTools)
    else None
  }

  datatype SearchHeuristic = InputOrder | FirstFail | Smallest | Largest | DomWDeg | Impact | Activity

  function SearchHeuristicName(h: SearchHeuristic): string {
    match h
    case InputOrder => "input_order"
    case FirstFail => "first_fail"
    case Smallest => "smallest"
    case Largest => "largest"
    case DomWDeg => "dom_w_deg"
    case Impact => "impact"
    case Activity => "activity"
  }

  function ParseSearchHeuristic(s: string): (r: Option<SearchHeuristic>)
    ensures r.Some? ==> SearchHeuristicName(r.value) == s
    ensures r.None? ==> forall h :: SearchHeuristicName(h) != s
  {
    if s == "input_order" then Some(InputOrder)
    else if s == "first_fail" then Some(FirstFail)
    else if s == "smallest" then Some(Smallest)
    else if s == "largest" then Some(Largest)
    else if s == "dom_w_deg" then Some(DomWDeg)
    else if s == "impact" then Some(Impact)
    else if s == "activity" then Some(Activity)
    else None
  }

  datatype ValueChoice = IndomainMin | IndomainMax | IndomainMiddle | IndomainMedian | IndomainRandom | IndomainSplit

  function ValueChoiceName(v: ValueChoice): string {
    match v
    case IndomainMin => "indomain_min"
    case IndomainMax => "indomain_max"
    case IndomainMiddle => "indomain_middle"
    case IndomainMedian => "indomain_median"
    case IndomainRandom => "indomain_random"
    case IndomainSplit => "indomain_split"
  }

  function ParseValueChoice(s: string): (r: Option<ValueChoice>)
    ensures r.Some? ==> ValueChoiceName(r.value) == s
    ensures r.None? ==> forall v :: ValueChoiceName(v) != s
  {
    if s == "indomain_min" then Some(IndomainMin)
    else if s == "indomain_max" then Some(IndomainMax)
    else if s == "indomain_middle" then Some(IndomainMiddle)
    else if s == "indomain_median" then Some(IndomainMedian)
    else if s == "indomain_random" then Some(IndomainRandom)
    else if s == "indomain_split" then Some(IndomainSplit)
    else None
  }

  datatype SolverConfig = SolverConfig(
    problemType: ProblemType,
    solver: SolverName,
    searchHeuristic: SearchHeuristic,
    valueChoice: ValueChoice,
    timeLimitSec: real,
    maxSolutions: int)

  /** The field constraints timeLimitSec >= 0 and maxSolutions >= 1. */
  predicate ValidSolverConfig(c: SolverConfig) {
    c.timeLimitSec >= 0.0 && c.maxSolutions >= 1
  }

  /** Building a SolverConfig from the caller's literals: it succeeds iff
      every literal is one of its allowed spellings and both numeric
      constraints hold, and the record then spells back to those literals. */
  function NewSolverConfig(problemType: string, solver: string, searchHeuristic: string,
                           valueChoice: string, timeLimitSec: real, maxSolutions: int)
    : (r: Result<SolverConfig, Error>)
    ensures r.Success? <==>
      && ParseProblemType(problemType).Some? && ParseSolverName(solver).Some?
      && ParseSearchHeuristic(searchHeuristic).Some? && ParseValueChoice(valueChoice).Some?
      && timeLimitSec >= 0.0 && maxSolutions >= 1
    ensures r.Success? ==>
      && ValidSolverConfig(r.value)
      && ProblemTypeName(r.value.problemType) == problemType
      && SolverNameText(r.value.solver) == solver
      && SearchHeuristicName(r.value.searchHeuristic) == searchHeuristic
      && ValueChoiceName(r.value.valueChoice) == valueChoice
      && r.value.timeLimitSec == timeLimitSec && r.value.maxSolutions == maxSolutions
    ensures r.Failure? ==> r.error == FieldConstraint("SolverConfig")
  {
    match (ParseProblemType(problemType), ParseSolverName(solver),
           ParseSearchHeuristic(searchHeuristic), ParseValueChoice(valueChoice))
    case (Some(p), Some(b), Some(h), Some(v)) =>
      if timeLimitSec >= 0.0 && maxSolutions >= 1
      then Success(SolverConfig(p, b, h, v, timeLimitSec, maxSolutions))
      else Failure(FieldConstraint("SolverConfig"))
    case _ => Failure(FieldConstraint("SolverConfig"))
  }

  datatype Machine = Machine(id: string, name: string)

  datatype Operation = Operation(
    jobId: string,
    machineId: string,
    opId: string,
    start: int,
    end: int,
    duration: int)

  /** start, end and duration are all >= 0; end == start + duration is not
      part of the record's constraints. */
  predicate ValidOperation(op: Operation) {
    op.start >= 0 && op.end >= 0 && op.duration >= 0
  }

  /** Operation(...): the record, or the validation error its constraints
      raise. */
  function NewOperation(jobId: string, machineId: string, opId: string, start: int, end: int, duration: int)
    : (r: Result<Operation, Error>)
    ensures r.Success? <==> start >= 0 && end >= 0 && duration >= 0
    ensures r.Success? ==> ValidOperation(r.value) && r.value == Operation(jobId, machineId, opId, start, end, duration)
    ensures r.Failure? ==> r.error == FieldConstraint("Operation")
  {
    var op := Operation(jobId, machineId, opId, start, end, duration);
    if ValidOperation(op) then Success(op) else Failure(FieldConstraint("Operation"))
  }

  datatype MaintenanceWindow = MaintenanceWindow(machineId: string, start: int, end: int, duration: int)

  predicate ValidMaintenanceWindow(w: MaintenanceWindow) {
    w.start >= 0 && w.end >= 0 && w.duration >= 0
  }

  function NewMaintenanceWindow(machineId: string, start: int, end: int, duration: int)
    : (r: Result<MaintenanceWindow, Error>)
    ensures r.Success? <==> start >= 0 && end >= 0 && duration >= 0
    ensures r.Success? ==> ValidMaintenanceWindow(r.value) && r.value == MaintenanceWindow(machineId, start, end, duration)
    ensures r.Failure? ==> r.error == FieldConstraint("MaintenanceWindow")
  {
    var w := MaintenanceWindow(machineId, start, end, duration);
    if ValidMaintenanceWindow(w) then Success(w) else Failure(FieldConstraint("MaintenanceWindow"))
  }

  type Stats = map<string, int>

  datatype Solution = Solution(
    makespan: int,
    machines: seq<Machine>,
    operations: seq<Operation>,
    maintenanceWindows: Option<seq<MaintenanceWindow>>,
    stats: Stats)

  /** makespan >= 0 and every nested record satisfies its own constraints. */
  predicate ValidSolution(s: Solution) {
    && s.makespan >= 0
    && (forall k :: 0 <= k < |s.operations| ==> ValidOperation(s.operations[k]))
    && (s.maintenanceWindows.Some? ==>
          forall k :: 0 <= k < |s.maintenanceWindows.value| ==> ValidMaintenanceWindow(s.maintenanceWindows.value[k]))
  }

  /** Solution(...) as the normalisers call it: maintenanceWindows is left
      absent, the operations are records already checked when they were
      built, so only the makespan constraint can fail here. */
  function NewSolution(makespan: int, machines: seq<Machine>, operations: seq<Operation>, stats: Stats)
    : (r: Result<Solution, Error>)
    ensures r.Success? <==> makespan >= 0
    ensures r.Success? ==>
      && r.value.maintenanceWindows.None?
      && r.value.makespan == makespan && r.value.machines == machines
      && r.value.operations == operations && r.value.stats == stats
    ensures r.Success? && (forall k :: 0 <= k < |operations| ==> ValidOperation(operations[k])) ==>
      ValidSolution(r.value)
    ensures r.Failure? ==> r.error == FieldConstraint("Solution")
  {
    if makespan >= 0 then Success(Solution(makespan, machines, operations, None, stats))
    else Failure(FieldConstraint("Solution"))
  }

  datatype Status = Pending | Running | Completed | Errored

  function StatusName(s: Status): string {
    match s
    case Pending => "PENDING"
    case Running => "RUNNING"
    case Completed => "COMPLETED"
    case Errored => "ERROR"
  }

  function ParseStatus(s: string): (r: Option<Status>)
    ensures r.Some? ==> StatusName(r.value) == s
    ensures r.None? ==> forall t :: StatusName(t) != s
  {
    if s == "PENDING" then Some(Pending)
    else if s == "RUNNING" then Some(Running)
    else if s == "COMPLETED" then Some(Completed)
    else if s == "ERROR" then Some(Errored)
    else None
  }

  datatype Meta = Meta(elapsedMs: real, timestamp: string)

  predicate ValidMeta(m: Meta) {
    m.elapsedMs >= 0.0
  }

  datatype SolutionEnvelope = SolutionEnvelope(
    status: Status,
    solution: Option<Solution>,
    meta: Option<Meta>,
    logs: Option<seq<string>>)

  /** Meta(...): the record, or the validation error of a negative
      elapsedMs. */
  function NewMeta(elapsedMs: real, timestamp: string): (r: Result<Meta, Error>)
    ensures r.Success? <==> elapsedMs >= 0.0
    ensures r.Success? ==> ValidMeta(r.value) && r.value == Meta(elapsedMs, timestamp)
    ensures r.Failure? ==> r.error == FieldConstraint("Meta")
  {
    if elapsedMs >= 0.0 then Success(Meta(elapsedMs, timestamp)) else Failure(FieldConstraint("Meta"))
  }

  predicate ValidEnvelope(e: SolutionEnvelope) {
    && (e.solution.Some? ==> ValidSolution(e.solution.value))
    && (e.meta.Some? ==> ValidMeta(e.meta.value))
  }

  /** SolutionEnvelope(...) with the status given as text: only the status
      literal is checked here, since the solution and meta passed in are
      records already checked when they were built. */
  function NewEnvelope(status: string, solution: Option<Solution>, meta: Option<Meta>, logs: Option<seq<string>>)
    : (r: Result<SolutionEnvelope, Error>)
    ensures r.Success? <==> ParseStatus(status).Some?
    ensures r.Success? ==>
      && StatusName(r.value.status) == status
      && r.value.solution == solution && r.value.meta == meta && r.value.logs == logs
    ensures r.Success? && (solution.Some? ==> ValidSolution(solution.value)) && (meta.Some? ==> ValidMeta(meta.value)) ==>
      ValidEnvelope(r.value)
    ensures r.Failure? ==> r.error == FieldConstraint("SolutionEnvelope")
  {
    match ParseStatus(status)
    case Some(st) => Success(SolutionEnvelope(st, solution, meta, logs))
    case None => Failure(FieldConstraint("SolutionEnvelope"))
  }
}
