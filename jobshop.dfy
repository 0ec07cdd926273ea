/**
  solve_jobshop: the public entry point. It chooses the constraint model
  file for the model id and variation, then runs the normaliser of that
  variation. Whether a model file exists is a parameter, and so is each
  variation's engine.
*/
module Jobshop {
  import opened Wrappers
  import opened Errors
  import opened Models
  import opened Extract
  import opened Validation
  import opened Normalize
  import opened Consistency

  const TardinessModel: string := "modelos/JOBSHOP_TARDANZA.MZN"
  const MaintenanceModel: string := "modelos/JOBSHOP_MANTENIMIENTO.MZN"

  /** The model file of a variation, when it has one. */
  function ModelFile(variation: string): (r: Option<string>)
    ensures r.Some? <==> variation == "tardanza" || variation == "mantenimiento"
    ensures variation == "tardanza" ==> r == Some(TardinessModel)
    ensures variation == "mantenimiento" ==> r == Some(MaintenanceModel)
  {
    if variation == "tardanza" then Some(TardinessModel)
    else if variation == "mantenimiento" then Some(MaintenanceModel)
    else None
  }

  /** _select_jobshop_model_path: the model id is checked first, then the
      variation, then that the chosen file exists. */
  function ModelPath(modelId: string, variation: string, fileExists: string -> bool): (r: Result<string, Error>)
    ensures r.Success? <==>
      modelId == "jobshop" && ModelFile(variation).Some? && fileExists(ModelFile(variation).value)
    ensures r.Success? ==> r.value == ModelFile(variation).value
    ensures modelId != "jobshop" ==> r == Failure(UnsupportedModel(modelId))
    ensures modelId == "jobshop" && ModelFile(variation).None? ==>
      r == Failure(UnsupportedVariation(variation, modelId))
    ensures modelId == "jobshop" && ModelFile(variation).Some? && !fileExists(ModelFile(variation).value) ==>
      r == Failure(ModelFileMissing(ModelFile(variation).value))
    ensures r.Failure? ==>
      (r.error.Class() == RuntimeError <==> modelId == "jobshop" && ModelFile(variation).Some?) &&
      r.error.Class() != TypeError
  {
    if modelId != "jobshop" then Failure(UnsupportedModel(modelId))
    else
      match ModelFile(variation)
      case None => Failure(UnsupportedVariation(variation, modelId))
      case Some(p) => if fileExists(p) then Success(p) else Failure(ModelFileMissing(p))
  }

  /** What solve_jobshop returns or raises. */
  function SolveJobshop(
    modelId: string, variation: string, data: Data, search: SolverConfig, fileExists: string -> bool,
    tardinessEngine: (TardinessInput, Option<real>) -> EngineRun,
    maintenanceEngine: (MaintenanceInput, Option<real>) -> EngineRun)
    : Result<(Solution, Stats), Error>
  {
    var _ :- ModelPath(modelId, variation, fileExists);
    if variation == "tardanza" then Tardiness(data, search, tardinessEngine)
    else if variation == "mantenimiento" then Maintenance(data, search, maintenanceEngine)
    else Failure(UnsupportedVariation(variation, modelId))
  }

  /** solve_jobshop */
  method Solve(
    modelId: string, variation: string, data: Data, search: SolverConfig, fileExists: string -> bool,
    tardinessEngine: (TardinessInput, Option<real>) -> EngineRun,
    maintenanceEngine: (MaintenanceInput, Option<real>) -> EngineRun)
    returns (r: Result<(Solution, Stats), Error>)
    ensures r == SolveJobshop(modelId, variation, data, search, fileExists, tardinessEngine, maintenanceEngine)
  {
    var _ :- ModelPath(modelId, variation, fileExists);
    if variation == "tardanza" {
      r := RunTardiness(data, search, tardinessEngine);
    } else if variation == "mantenimiento" {
      r := RunMaintenance(data, search, maintenanceEngine);
    } else {
      r := Failure(UnsupportedVariation(variation, modelId));
    }
  }

  /** The model and variation are checked before the instance is read: an
      unsupported choice fails the same way whatever the data and engines. */
  lemma ChoiceCheckedFirst(
    modelId: string, variation: string, data: Data, search: SolverConfig, fileExists: string -> bool,
    te: (TardinessInput, Option<real>) -> EngineRun, me: (MaintenanceInput, Option<real>) -> EngineRun)
    requires ModelPath(modelId, variation, fileExists).Failure?
    ensures SolveJobshop(modelId, variation, data, search, fileExists, te, me) ==
      Failure(ModelPath(modelId, variation, fileExists).error)
  {
  }

  /** With a supported choice whose model file exists, the run is exactly
      the normaliser of that variation. */
  lemma DispatchByVariation(
    variation: string, data: Data, search: SolverConfig, fileExists: string -> bool,
    te: (TardinessInput, Option<real>) -> EngineRun, me: (MaintenanceInput, Option<real>) -> EngineRun)
    requires ModelPath("jobshop", variation, fileExists).Success?
    ensures variation == "tardanza" ==>
      SolveJobshop("jobshop", variation, data, search, fileExists, te, me) == Tardiness(data, search, te)
    ensures variation == "mantenimiento" ==>
      SolveJobshop("jobshop", variation, data, search, fileExists, te, me) == Maintenance(data, search, me)
  {
  }

  /** Every solution solve_jobshop returns satisfies the record constraints
      of Solution; a tardiness solution always passes validate_solution and
      a maintenance one does exactly when no operation ends after its
      makespan. */
  lemma SolvedScheduleChecks(
    modelId: string, variation: string, data: Data, search: SolverConfig, fileExists: string -> bool,
    te: (TardinessInput, Option<real>) -> EngineRun, me: (MaintenanceInput, Option<real>) -> EngineRun)
    requires SolveJobshop(modelId, variation, data, search, fileExists, te, me).Success?
    ensures var sol := SolveJobshop(modelId, variation, data, search, fileExists, te, me).value.0;
      ValidSolution(sol) &&
      (variation == "tardanza" ==> Verdict(sol) == Pass) &&
      (variation == "mantenimiento" ==>
        (Verdict(sol) == Pass <==> forall k :: 0 <= k < |sol.operations| ==> sol.operations[k].end <= sol.makespan))
  {
    if variation == "tardanza" {
      TardinessOutputPasses(data, search, te);
    } else {
      MaintenanceOutputPassesIff(data, search, me);
    }
  }
}
