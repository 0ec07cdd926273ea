/**
  The exceptions the core raises, one constructor per distinct message.
  The message text is abstracted to the data it names (a key, a shape, an
  offending value).
*/
module Errors {
  import opened PyValues

  datatype Error =
    // ValueError while reading typed fields out of an instance
    | MissingKey(key: string)
    | NotAnInteger(key: string)
    | NotAList(key: string)
    | WrongLength(key: string, size: int)
    | NotIntegers(key: string)
    | WrongShape(key: string, rows: int, cols: int)
    | NotAMatrix(key: string, rows: int, cols: int)
    | CannotConvert(value: Value)        // int() failing inside a flat matrix, not re-worded
    | NotABoolean(value: Value)
    // ValueError while reading an uploaded or stored instance file
    | InvalidJsonFile(detail: string)
    | JsonSyntax(detail: string)
    | StoredJsonNotAnObject
    | InstanceNotFound(id: string)
    // ValueError or RuntimeError while choosing the constraint model
    | UnsupportedModel(modelId: string)
    | UnsupportedVariation(variation: string, modelId: string)
    | ModelFileMissing(path: string)
    // RuntimeError around the engine run
    | NoSolverFound
    | NoFeasibleSolution
    | ResultMissingKey(key: string)
    | ResultNotAnInteger(key: string)
    | ResultNotAMatrix(key: string, rows: int, cols: int)
    // a record built with a field outside its declared constraint
    | FieldConstraint(model: string)
    // ValueError from the configuration and schedule checks
    | NegativeTimeLimit
    | MaxSolutionsBelowOne
    | DuplicateMachineId
    | NegativeTime
    | EndBeforeStart
    | UnknownMachine(machineId: string)
    | DuplicateOperation(jobId: string, opId: string)
    | MakespanBelowMaxEnd
  {
    /** The Python exception class the error is raised as. int() raises
        TypeError on None, a list or a dict and ValueError on a string it
        cannot read; a pydantic ValidationError is a ValueError. */
    function Class(): ExceptionClass {
      if ModelFileMissing? || NoSolverFound? || NoFeasibleSolution? ||
         ResultMissingKey? || ResultNotAnInteger? || ResultNotAMatrix?
      then RuntimeError
      else if CannotConvert? && !value.VStr? then TypeError
      else ValueError
    }
  }

  datatype ExceptionClass = ValueError | RuntimeError | TypeError
}
