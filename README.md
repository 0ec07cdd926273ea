# Job-shop scheduling backend: instance ingestion and schedule checking

This project models the verifiable core of a small job-shop scheduling
backend in Dafny. The backend takes a problem instance: an uploaded JSON or
DZN (MiniZinc data) file, or a stored one. It reads the typed fields that one
of two problem variations needs:

- weighted tardiness (`tardanza`);
- machine maintenance windows (`mantenimiento`).

It hands them to a constraint engine (MiniZinc), turns the engine's start
times into a schedule of machines and operations with a makespan and
statistics, and checks that schedule.

The model covers every step except the search itself:

- **DZN reader** (`Dzn`). Comments are removed, the text is cut into
  statements, and `array2d(...)`, `[...]` and scalar values are recognised.
  Each list token is classified as a bool, an int or raw text. It is written
  as the loops of the source (`ParseDzn`, `SplitArrayValues`) and proved
  against specification functions (`DznData`, `ArrayValues`).
- **Choosing how to read an instance** (`Payload`):
  - an upload is read as strict JSON, as opportunistic JSON or as DZN;
  - a stored instance prefers its `.json` file to its `.dzn` file.
- **Typed field readers** (`Extract`):
  - `_require_int`, `_require_1d_int`, `_require_2d_int`, `_require_2d_bool`
    and `_parse_bool`;
  - the engine-result readers `_require_result_int` and `_require_result_2d`.

  Both matrix forms are covered: a nested list, and a flat row-major list
  reshaped with an index cursor.
- **Result normalisers** (`Normalize`):
  - machines `M1..Mtasks`;
  - operations `J{i}`/`J{i}-{j}` built in nested loops, job-major;
  - the tardiness makespan (the largest end, 0 when there is none);
  - the maintenance statistics loop (`maint_windows`, `maint_time`);
  - the two runners, with the engine as a parameter.
- **The dispatcher** (`Jobshop`): `solve_jobshop` and
  `_select_jobshop_model_path`.
- **The checks** (`Validation`): `validate_search`, and `validate_solution`
  as a scan over the operations. The scan is proved equal to a verdict
  function, and that verdict is proved equivalent to a declarative
  consistency predicate.
- **Normaliser output against the checks** (`Consistency`). Every tardiness
  schedule passes the check. A maintenance schedule passes exactly when no
  operation ends after the engine's `END`.
- **Domain records** (`Models`): datatypes with the pydantic field
  constraints as validity predicates and checked constructors.

Python's loosely typed values are the datatype `PyValues.Value`. Python's
`int()`, `bool()` and indexing are the functions `PyInt`, `Truthy` and
`Index`. Every error the source raises is a constructor of `Errors.Error`.
`Error.Class` gives the Python exception class it is raised as:

- `RuntimeError` for engine and model-file failures;
- `TypeError` when `int()` meets `None`, a list or a dict;
- `ValueError` for everything else, pydantic validation errors included.

Around `solve_jobshop`, the HTTP layer answers a `ValueError` with 400 and
wraps a `RuntimeError` into an `ERROR` envelope (`app/main.py:185-198`).
Anything else reaches the generic handler and becomes a 500
(`app/main.py:50-54`). The class therefore decides the response. The flat branch of
`_require_2d_int` (`app/solver.py:367-373`) calls `int()` outside any
`try`, so a flat list holding a list, a dict or `None` escapes as a
`TypeError`. An example is `{"d": [[1], 2]}` read as one row of two
(`Extract.FlatListCellIsTypeError`, `Extract.Int2dErrorClass`).

Where the design description and the code disagree, the model follows the
code:

- **Tardiness statistics.** The tardiness runner emits only `w`. The
  aggregates `tardanza_total`, `jobs_tardios` and `max_tardanza` are never
  computed: the code says they are omitted at `app/solver.py:186-187`.
- **Maintenance windows.** The maintenance runner never fills
  `maintenanceWindows`; it reports only the two counters.
- **Solve directive.** No directive is substituted into the model text.
- **`maxSolutions`.** It is never passed to the engine.
- **Boolean matrices.** A nested boolean matrix accepts any cells, read by
  truthiness. So nested `"false"` reads as `true`, while flat `"false"` reads
  as `false` (`Extract.BoolFormsDisagreeOnText`).
- **Shape checks.** They are not as strict as described. Negative
  dimensions whose product equals the length of a flat list are accepted
  and read as an empty matrix (`Extract.NegativeDimensionsDropCells`).
  `_require_result_2d` reads only the declared top-left block of the
  engine's value.

## Model

| member | source | states |
|---|---|---|
| PyValues.Truncate | app/solver.py:403 | int() of a float truncates toward zero: the result times the denominator lies between 0 and the numerator, less than one step from it |
| Text.NonBlankStrippedClean | app/solver.py:432 | the comprehension keeps no more pieces than it is given, and each kept piece is non-empty with no whitespace at either end |
| Text.NonBlankStrippedKeepsClean | app/solver.py:432 | a list of non-empty pieces without surrounding whitespace passes the comprehension unchanged |
| Text.NonBlankStrippedSnoc | app/solver.py:432 | the pieces are kept in order: one more piece appends its stripped text, if that is not empty |
| Text.NonBlankStrippedCount | app/solver.py:432 | the comprehension yields exactly one result per piece whose stripped text is not empty |
| Text.StripSlice | app/solver.py:432 | str.strip() gives the part of the text between a blank prefix and a blank suffix |
| Text.Strip | app/solver.py:432 | str.strip(): the result has no whitespace at either end, is empty exactly when the text is blank, and is the text itself when that is already trimmed |
| Text.Split | app/solver.py:432 | str.split(c) gives at least one piece and no piece contains the separator |
| Text.JoinSplit | app/solver.py:432 | joining the pieces of a split with the separator gives back the text |
| Text.SplitJoin | app/solver.py:487 | splitting the join of separator-free pieces gives back the pieces |
| Text.ParseShowInt | app/solver.py:468-470 | int() reads back the decimal text of every integer, negative ones included |
| Dzn.CommentsRemoved | app/solver.py:430 | no `%` survives comment removal |
| Dzn.NoCommentKept | app/solver.py:430 | text without `%` passes comment removal unchanged |
| Dzn.CommentEndsAtNewline | app/solver.py:430 | a comment runs to the end of its line: the comment goes, the newline and what follows stay |
| Dzn.Partition | app/solver.py:437-439 | `split("=", 1)`: no split exactly when the separator is absent, otherwise the text before the first separator and the rest, rejoining to the statement |
| Dzn.SplitArrayValues | app/solver.py:481-498 | the loop yields the classification of each token in order, exactly one value per comma-separated piece that is not blank |
| Dzn.TokensCount | app/solver.py:483-487 | there is one token per comma-separated piece of the collapsed text that is not blank |
| Dzn.TokensClean | app/solver.py:483-487 | there is one token per non-blank piece, and every token is non-empty with no whitespace at either end |
| Dzn.TokensOfJoin | app/solver.py:481-487 | tokens without whitespace or commas, joined by commas, split back into exactly those tokens |
| Dzn.ArrayValuesOfJoin | app/solver.py:481-499 | such a comma-joined list body reads back as its tokens classified one by one |
| Dzn.MatchListAccepts | app/solver.py:453 | `[`, blank, a body not starting with whitespace, `]` and blank is matched, with that body as the group |
| Dzn.MatchListIff | app/solver.py:453 | the list pattern yields a body exactly when the value has that shape around it |
| Dzn.MatchArray2dAccepts | app/solver.py:444 | `array2d` in any letter case, blank, `(`, two non-empty comma-free arguments with their commas, blank, `[`, the payload, `]`, blank, `)` and blank is matched, with the payload as the group |
| Dzn.MatchArray2dIff | app/solver.py:444 | the array2d pattern yields a payload exactly when the value has that shape around it |
| Dzn.ClassifyShowInt | app/solver.py:490-495 | the decimal text of any integer is classified as that integer |
| Dzn.InterpretInt | app/solver.py:460-471 | a right-hand side that is the decimal text of an integer is stored as that integer |
| Dzn.InterpretBool | app/solver.py:465-467 | true and false in any letter case are stored as the matching boolean |
| Dzn.InterpretList | app/solver.py:452-458 | a list literal around comma-joined tokens is stored as the list of their values |
| Dzn.InterpretArray2d | app/solver.py:443-450 | an array2d call around comma-joined tokens is stored as the flat list of their values, whatever its dimensions say |
| Dzn.StatementValue | app/solver.py:443-476 | the branch chain stores the interpretation of the right-hand side, whose cases the lemmas above pin down |
| Dzn.StoreStatement | app/solver.py:437-476 | one loop step leaves the map unchanged without `=`, and otherwise binds the stripped key to the interpreted stripped value |
| Dzn.StoreStep | app/solver.py:435-476 | one more statement updates the map built so far exactly as one loop step does |
| Dzn.ParseDzn | app/solver.py:421-478 | the statement loop builds exactly the map obtained by storing each `key = value` binding in turn |
| Dzn.BoundIffNamed | app/solver.py:435-441 | a key is in the parsed map exactly when some statement with `=` names it |
| Dzn.LastBindingWins | app/solver.py:449-476 | a key repeated in several statements keeps the value of the last one |
| Extract.RequireInt | app/solver.py:332-338 | succeeds exactly when the key is present and int() accepts its value, returning that int; a missing key or a refused value is an error naming the key |
| Extract.IntsOf | app/solver.py:350 | the list converts exactly when every item does, item by item |
| Extract.Require1dInt | app/solver.py:341-352 | succeeds exactly for a list of `size` int()-convertible items; otherwise missing key, not a list, wrong length, or not integers, in that order |
| Extract.BoolWord | app/solver.py:405-409 | a stripped lower-cased text is true exactly in {true, t, 1}, false exactly in {false, f, 0}, and nothing else is accepted |
| Extract.ParseBool | app/solver.py:399-410 | a bool is kept; a number maps to int(x) != 0; text trims and lower-cases to true in {true,t,1} and false in {false,f,0}; everything else is an error carrying the value |
| Extract.ConvertAllSpec | app/solver.py:370-372 | converting a flat list succeeds exactly when every cell converts, and then holds each cell's value at its position |
| Extract.ConvertAllFirstFailure | app/solver.py:370-372 | a failed conversion reports the error of the first failing cell, after which no earlier cell failed |
| Extract.ConvertAllAppend | app/solver.py:370-372 | converting two consecutive parts is converting the first, then the second, with the first failure winning |
| Extract.ChunksCell | app/solver.py:368-373 | in the reshaped matrix, cell (i, j) is flat entry i*cols + j |
| Extract.ReshapedCell | app/solver.py:367-373 | cell (i, j) of a reshaped flat list is entry i*cols + j converted |
| Extract.ReshapeFlat | app/solver.py:367-373 | the idx-cursor loop gives the row-major reshaping of the converted cells, or the first cell's conversion error |
| Extract.IntRows | app/solver.py:362-365 | a nested matrix converts exactly when every row does, row by row |
| Extract.TruthRows | app/solver.py:384-387 | the nested boolean form gives bool(v) of every cell, shape preserved |
| Extract.Require2dInt | app/solver.py:355-374 | the method returns the integer-matrix reading, nested or flat |
| Extract.Require2dBool | app/solver.py:377-396 | the method returns the boolean-matrix reading, nested or flat |
| Extract.FlattenChunks | app/solver.py:366-373 | reshaping the row-major flattening of a matrix gives the matrix back |
| Extract.ReshapedFlatten | app/solver.py:366-373 | a flattened matrix read back through a conversion that undoes the lifting is the original matrix |
| Extract.IntMatrixRoundTrip | app/solver.py:355-374 | an integer matrix stored nested or flat under any key reads back unchanged |
| Extract.BoolNestedRoundTrip | app/solver.py:384-385 | a nested matrix of bools reads back unchanged by truthiness |
| Extract.BoolMatrixRoundTrip | app/solver.py:377-396 | a boolean matrix stored nested or flat reads back unchanged |
| Extract.Int2dShape | app/solver.py:359-373 | an accepted integer matrix has max(rows, 0) rows of cols entries |
| Extract.Int2dNestedCells | app/solver.py:362-363 | each cell read from the nested form is int() of the cell at the same position |
| Extract.Int2dFlatCell | app/solver.py:367-373 | each cell (i, j) read from the flat form is int() of entry i*cols + j |
| Extract.Int2dSucceedsIff | app/solver.py:355-374 | an integer matrix is accepted exactly when nested with the declared shape and convertible cells, or flat with rows*cols entries, all convertible unless rows <= 0 |
| Extract.Bool2dSucceedsIff | app/solver.py:377-396 | a boolean matrix is accepted exactly when nested with the declared shape (any cells), or flat with rows*cols entries that _parse_bool accepts unless rows <= 0 |
| Extract.NegativeDimensionsDropCells | app/solver.py:367-373 | dimensions -1 x -2 against a two-item flat list are accepted and give an empty matrix |
| Extract.BoolFormsDisagreeOnText | app/solver.py:381-395 | the text "false" reads as true in the nested form and as false in the flat form |
| Extract.FlatIntFailure | app/solver.py:367-373 | converting a flat list fails exactly when some cell is unreadable, reporting the first such cell; the failure is a TypeError exactly when that cell is not text, and never a RuntimeError |
| Extract.Int2dErrorClass | app/solver.py:355-374 | a rejected integer matrix is never a RuntimeError, and is a TypeError exactly when the flat branch meets a first unreadable cell that is not text |
| Extract.Bool2dErrorClass | app/solver.py:377-396 | a rejected boolean matrix is always a ValueError |
| Extract.FlatListCellIsTypeError | app/solver.py:367-373 | the flat list [[1], 2] read as one row of two fails on the inner list with a TypeError |
| Extract.RequireResultInt | app/solver.py:307-314 | succeeds exactly when the result has the key and int() accepts it; otherwise a missing-key or not-an-int runtime error |
| Extract.RequireResult2d | app/solver.py:317-326 | succeeds exactly when every int(val[i][j]) of the declared block exists, giving a max(rows,0) x max(cols,0) matrix of those values; otherwise a missing-key or not-a-matrix runtime error |
| Models.ParseProblemType | app/models.py:9 | accepts exactly the two problem-type literals, spelling back to the input |
| Models.ParseSolverName | app/models.py:10 | accepts exactly chuffed, gecode and or-tools |
| Models.ParseSearchHeuristic | app/models.py:11-19 | accepts exactly the seven heuristic literals |
| Models.ParseValueChoice | app/models.py:20-27 | accepts exactly the six value-choice literals |
| Models.NewSolverConfig | app/models.py:7-29 | a config is built exactly when every literal is allowed, timeLimitSec >= 0 and maxSolutions >= 1, and it spells back to its inputs |
| Models.NewOperation | app/models.py:38-45 | an operation is built exactly when start, end and duration are all >= 0, with the given fields |
| Models.NewMaintenanceWindow | app/models.py:48-53 | a window is built exactly when start, end and duration are all >= 0 |
| Models.NewSolution | app/models.py:56-62 | a solution is built exactly when makespan >= 0, with maintenanceWindows absent; with valid operations it is a valid solution |
| Models.ParseStatus | app/models.py:73 | accepts exactly PENDING, RUNNING, COMPLETED and ERROR |
| Models.NewMeta | app/models.py:65-68 | a meta record is built exactly when elapsedMs >= 0, with the given fields |
| Models.NewEnvelope | app/models.py:71-76 | an envelope is built exactly when the status is one of the four literals, spelling back to it, and it is valid when its solution and meta are |
| Validation.ValidateSearch | app/validation.py:8-17 | passes exactly for configs with timeLimitSec >= 0 and maxSolutions >= 1, checking the time limit first |
| Validation.BuiltConfigPassesSearchCheck | app/validation.py:14-17 | every config the record constructor accepts passes validate_search |
| Validation.IdList | app/validation.py:32 | the id list has one entry per machine, in order |
| Validation.ToSetMembers | app/validation.py:36 | set(ids) holds exactly the listed ids |
| Validation.SetSizeIffDistinct | app/validation.py:33-34 | len(set(ids)) <= len(ids), with equality exactly when no id repeats |
| Validation.OpKeys | app/validation.py:51-54 | the seen set holds exactly the (jobId, opId) pairs of the operations scanned |
| Validation.MaxEnd | app/validation.py:41-57 | the running max starts at 0, is at least every end, and is 0 or some operation's end |
| Validation.ScanOperations | app/validation.py:39-57 | the loop reports the first faulty operation's error, and otherwise the running max of the ends |
| Validation.ValidateSolution | app/validation.py:20-59 | validate_solution returns the verdict: duplicate machine id first, then the first operation fault, then makespan below the max end |
| Validation.NoFaultIff | app/validation.py:42-54 | no operation is faulty exactly when all have sound times and known machines and no (jobId, opId) pair repeats |
| Validation.AcceptableSnoc | app/validation.py:42-54 | the operations are acceptable exactly when those before the last are and the last raises nothing given the pairs before it |
| Validation.DuplicateTestIff | app/validation.py:32-34 | the length test on ids fails exactly when two machines share an id |
| Validation.KnownMachineIff | app/validation.py:48-49 | a machine id is known exactly when some machine carries it |
| Validation.VerdictPassIff | app/validation.py:20-59 | a solution passes exactly when machine ids are unique, all times are sound, every machine reference resolves, (jobId, opId) pairs are unique, and makespan >= 0 and >= every end |
| Validation.DuplicateIdReportedFirst | app/validation.py:31-34 | a repeated machine id is reported whatever the operations are |
| Validation.FirstFaultDecides | app/validation.py:42-54 | the first faulty operation decides the error of the whole scan |
| Normalize.SolveTimeout | app/solver.py:294-301 | a timeout is passed exactly when timeLimitSec > 0, and it is that limit |
| Normalize.Machines | app/solver.py:161 | max(tasks, 0) machines, the k-th with id and name M(k+1) |
| Normalize.OpGrid | app/solver.py:164-179 | one operation per (job, task) cell, with ids J{i}, M{j}, J{i}-{j} and end = start + duration |
| Normalize.BuildOperations | app/solver.py:164-179 | the nested loops give all operations job-major, or the record-constraint error of the first one with a negative time |
| Normalize.OperationAt | app/solver.py:164-179 | there are jobs*tasks operations and operation (i, j) sits at i*tasks + j with end = start + duration |
| Normalize.OperationCell | app/solver.py:164-179 | every operation is the one built from some cell (i, j) at position i*tasks + j |
| Normalize.LargestEnd | app/solver.py:181 | the makespan is 0 for no operations, otherwise some operation's end, and no operation ends later |
| Normalize.LargestEndIsMaxEnd | app/solver.py:181 | for non-negative ends the normaliser's makespan equals the checker's running max |
| Normalize.TardinessInputOf | app/solver.py:139-143 | an accepted tardiness instance has d of jobs x tasks and weights and due_dates of length jobs |
| Normalize.ReadTardinessInput | app/solver.py:139-143 | the reads happen in the source's order with the same errors |
| Normalize.RunTardiness | app/solver.py:121-195 | the tardiness runner: instance errors, no solver, no feasible solution and result errors, then the normalised solution with stats {w} |
| Normalize.MaintenanceInputOf | app/solver.py:217-223 | an accepted maintenance instance has PROC_TIME of JOBS x TASKS and the three maintenance matrices of TASKS x MAX_MAINT_WINDOWS |
| Normalize.ReadMaintenanceInput | app/solver.py:217-223 | the reads happen in the source's order with the same errors |
| Normalize.CountRow | app/solver.py:265-269 | the inner loop counts the active windows of one machine and sums max(0, end - start) over them |
| Normalize.CountMaintenance | app/solver.py:261-274 | maint_windows is the number of active windows and maint_time the sum of their lengths max(0, end - start) |
| Normalize.MaintenanceStatsExample | app/solver.py:261-274 | one active window from 10 to 25 and one inactive window give 1 window and 15 time units |
| Normalize.RowWindowCount | app/solver.py:265-267 | a machine contributes as many windows as it has active cells |
| Normalize.WindowCount | app/solver.py:262-269 | maint_windows is the number of true cells of MAINT_ACTIVE, at most TASKS x MAX_MAINT_WINDOWS |
| Normalize.InactiveWindowsIgnored | app/solver.py:266-269 | the start and end of inactive windows never affect the statistics |
| Normalize.RunMaintenance | app/solver.py:198-282 | the maintenance runner: instance errors, engine failures, result errors, then the solution with makespan END and the two counters |
| Consistency.JobIdInjective | app/solver.py:172 | different job numbers give different job ids |
| Consistency.MachineIdInjective | app/solver.py:173 | different machine numbers give different machine ids |
| Consistency.OpIdInjective | app/solver.py:174 | within a job, different task numbers give different operation ids |
| Consistency.MachinesDistinct | app/solver.py:161 | the normalised machines have distinct ids |
| Consistency.OperationSound | app/solver.py:164-179 | every built operation has sound times and runs on one of M1..Mtasks |
| Consistency.OperationKeysDiffer | app/solver.py:170-179 | no two built operations share a (jobId, opId) pair |
| Consistency.OperationsSound | app/solver.py:161-179 | all built operations have sound times, known machines and distinct keys |
| Consistency.TardinessOutputPasses | app/solver.py:161-194 | every tardiness solution is consistent, passes validate_solution and satisfies the record constraints |
| Consistency.BuiltScheduleVerdict | app/solver.py:161-179 | a schedule with the normalised machines and operations passes exactly when its makespan is non-negative and no operation ends after it |
| Consistency.MaintenanceSolutionPassesIff | app/solver.py:242-281 | a maintenance solution built from S and END passes exactly when no operation ends after END |
| Consistency.MaintenanceOutputPassesIff | app/solver.py:239-281 | every maintenance solution passes validate_solution exactly when END is at least every operation's end, and satisfies the record constraints |
| Payload.ParseInstancePayload | app/solver.py:43-74 | the upload reader returns the payload decision: strict JSON, opportunistic JSON object, or DZN data |
| Payload.JsonObjectAlwaysWins | app/solver.py:56-69 | text that decodes to a JSON object yields that object whatever the file name |
| Payload.JsonNameIsStrict | app/solver.py:56-63 | a file named .json in any letter case that is not a JSON object is an invalid-JSON error, never DZN |
| Payload.OtherNamesFallBackToDzn | app/solver.py:65-74 | any other upload that is not a JSON object is read as DZN and never fails |
| Payload.NameCaseIgnored | app/solver.py:52 | lower-casing the file name changes nothing |
| Payload.LoadInstanceById | app/solver.py:77-97 | the stored-instance reader returns the JSON object, the JSON errors, the DZN data or not-found |
| Payload.StoredJsonPreferred | app/solver.py:86-95 | when a JSON file exists it alone decides, and succeeds exactly when it holds an object |
| Payload.NotFoundIffNoFile | app/solver.py:86-97 | an instance is reported missing exactly when neither file exists |
| Jobshop.ModelFile | app/solver.py:107-114 | only tardanza and mantenimiento have model files, JOBSHOP_TARDANZA.MZN and JOBSHOP_MANTENIMIENTO.MZN |
| Jobshop.ModelPath | app/solver.py:103-118 | the model path is found exactly for modelId jobshop, a known variation and an existing file; otherwise unsupported model, unsupported variation or missing file, in that order |
| Jobshop.Solve | app/solver.py:17-40 | solve_jobshop selects the model and runs the runner of the variation |
| Jobshop.ChoiceCheckedFirst | app/solver.py:34 | an unsupported choice fails before the instance is read, whatever the data and engines |
| Jobshop.DispatchByVariation | app/solver.py:36-39 | with a supported choice, the result is exactly the tardiness or the maintenance runner's |
| Jobshop.SolvedScheduleChecks | app/solver.py:17-40 | every solved schedule satisfies the record constraints; a tardiness one always passes validate_solution, a maintenance one exactly when nothing ends after its makespan |

## Left out

- The constraint search, `_build_instance`, `_solve_instance` and `result.status.has_solution()` are not modelled. Each variation's engine is a function parameter from the typed instance and the optional timeout to one of: no solver found, no solution, or a map of result bindings.
- File system access is a parameter:
  - the existence of a model file is a predicate on the path;
  - a stored instance is given as its optional JSON parse and optional DZN text;
  - the instance id is not turned into a path.
- JSON decoding is a function parameter returning a value or a syntax-error message; `json.loads` itself is not modelled.
- `content.decode("utf-8", errors="replace")` is not modelled: uploads are given as decoded text.
- PyValues.PyInt: floats are finite reals, so NaN and infinities are not modelled. `json.loads` accepts `NaN` and `Infinity`, and `int()` raises `ValueError` or `OverflowError` on them; the model has no such float.
- PyValues.PyInt: string `int()` is limited to an optional sign and ASCII decimal digits after stripping. Underscores and non-ASCII digits are not modelled.
- Text.Strip, Text.Lower: whitespace is the ASCII part of `str.isspace`, and lower-casing is ASCII only; Unicode case mapping is not modelled.
- Times, makespan and statistics are integers rather than Python floats, because every value comes from `int()`. Floats appear only as inputs to `int()` and `bool()`, and `timeLimitSec` is a real.
- Error messages are abstracted to error constructors carrying the key, shape or value. Exception classes are reduced to `ValueError`, `TypeError` and `RuntimeError`.
- `maxSolutions` is not passed to the engine (the source leaves it unused), and the unused regular expression `_DZN_STMT_SEP` is dropped.
- The `except` around the nested boolean conversion can never fire: `bool()` does not fail on these values. No error path is modelled for it, and `Extract.Bool2dSucceedsIff` states that nested boolean matrices never fail on their content.
- `app/solver.py:11` imports `HeuristicType` and `SearchConfig` from `app/models.py`, which defines neither, so the module as written fails at import time. Annotations alone would not fail, because of `from __future__ import annotations` at line 1. The model treats the module as loaded, and the runners take the modelled `SolverConfig`.
- The HTTP layer, logging and envelope construction are not part of this model (`app/main.py`). Neither is the call-signature mismatch between `app/main.py` and `solve_jobshop`.
- Tardiness aggregates and maintenance-window lists are not modelled. They are described for the system but absent from the code.
