/** The `__main__` block: read the configuration, then either run the
    staging/transform/export/archive steps or, when the source workbook is
    absent, write the "no data" workbook. Every effect is an operation in a
    trace whose success or failure an oracle supplies; the log is a sequence
    of (level, message) entries. */
module Pipeline {
  import opened Results
  import opened Config
  import opened Interpolation
  import opened Archive
  import opened Spreadsheet

  const SourceSheet := "Base"
  const DestinationTable := "ETL_COBRARMATRICES"
  const ResultView := "vw_ETL_COBRARMATRICES_RESULTADO"
  const ProcedureName := "SPETL_COBRARMATRICES"

  const StartMessage := "Iniciando..."
  const SuccessMessage := "Proceso OK"
  const NoInputMessage := "Sin archivos..."

  /** The one-row frame `{'Resultado': ['Sin matrices...']}`. */
  const NoInputTable := Table(["Resultado"], [["Sin matrices..."]])

  /** The files next to the executable. */
  datatype Paths = Paths(log: string, config: string, result: string)

  /** One effect of the pipeline. */
  datatype Op =
    | ClearTable(statement: string)                                   // clear_table
    | AppendRows(source: string, sheet: string, schema: string, table: string) // write_base_to_database
    | ExecProcedure(statement: string)                                // execute_procedure
    | ExportResult(query: string, dest: string)                       // export_results
    | WriteResult(dest: string, data: Table)                          // excel_writer of the marker frame
    | CreateFolder(path: string)                                      // create_folder
    | CopyFile(src: string, dstDir: string)                           // shutil.copy
    | MoveFile(src: string, dstDir: string)                           // shutil.move
  {
    predicate TouchesDatabase() {
      ClearTable? || AppendRows? || ExecProcedure? || ExportResult?
    }

    predicate TouchesArchive() {
      CreateFolder? || CopyFile? || MoveFile?
    }
  }

  /** Whether an operation returned or raised, and the exception's text. */
  datatype Outcome = Ok | Raised(message: string)

  datatype Level = Info | Error
  datatype LogEntry = LogEntry(level: Level, message: string)

  /** A process run: either the configuration lookup raised outside the
      `try` (no operation, nothing logged), or the `try` block finished. */
  datatype Run = Crashed(error: ConfigError) | Finished(trace: seq<Op>, log: seq<LogEntry>)

  /** The operations attempted and, if one raised, its message. */
  datatype Execution = Execution(trace: seq<Op>, failure: Option<string>)

  /** `DELETE FROM ETL_COBRARMATRICES`: the table name is not qualified by
      the schema, unlike the append target. */
  const ClearStatement := "DELETE FROM " + DestinationTable

  function ProcedureStatement(schema: string): string {
    "EXEC " + schema + "." + ProcedureName
  }

  function ResultQuery(schema: string): string {
    "SELECT * FROM " + schema + "." + ResultView
  }

  /** The operations of the branch where the source workbook exists, in
      source order: four database steps, then three archive steps. The
      append reads the source workbook into the schema-qualified table, the
      export writes the result file, and the archive step copies that file
      and moves the source workbook into the folder it has just made. */
  function ProcessSteps(params: Params, paths: Paths, now: DateTime): (steps: seq<Op>)
    requires ValidDateTime(now)
    ensures |steps| == 7
    ensures forall op :: op in steps[..4] ==> op.TouchesDatabase() && !op.TouchesArchive()
    ensures forall op :: op in steps[4..] ==> op.TouchesArchive() && !op.TouchesDatabase()
    ensures steps[1].AppendRows? && steps[1].source == params.basePath
      && steps[1].schema == params.schema && steps[1].table == DestinationTable
    ensures steps[3].ExportResult? && steps[5].CopyFile? && steps[3].dest == steps[5].src == paths.result
    ensures steps[4].CreateFolder? && steps[5].dstDir == steps[4].path
    ensures steps[6].MoveFile? && steps[6].src == params.basePath && steps[6].dstDir == steps[4].path
  {
    var database := DatabaseSteps(params, paths.result);
    var archive := ArchiveSteps(ArchiveFolder(params.historyPath, now), paths.result, params.basePath);
    var steps := database + archive;
    assert steps[..4] == database && steps[4..] == archive;
    assert steps[1] == database[1] && steps[3] == database[3];
    assert steps[4] == archive[0] && steps[5] == archive[1] && steps[6] == archive[2];
    steps
  }

  /** Clear, append, procedure, export: the steps that talk to the server. */
  function DatabaseSteps(params: Params, result: string): (steps: seq<Op>)
    ensures |steps| == 4
    ensures forall op :: op in steps ==> op.TouchesDatabase() && !op.TouchesArchive()
  {
    [ ClearTable(ClearStatement),
      AppendRows(params.basePath, SourceSheet, params.schema, DestinationTable),
      ExecProcedure(ProcedureStatement(params.schema)),
      ExportResult(ResultQuery(params.schema), result) ]
  }

  /** Make the folder, copy the result file into it, move the source in. */
  function ArchiveSteps(folder: string, result: string, source: string): (steps: seq<Op>)
    ensures |steps| == 3
    ensures forall op :: op in steps ==> op.TouchesArchive() && !op.TouchesDatabase()
  {
    [ CreateFolder(folder), CopyFile(result, folder), MoveFile(source, folder) ]
  }

  /** Runs `steps` in order and stops at the first that raises. */
  function Execute(steps: seq<Op>, oracle: Op -> Outcome): (r: Execution)
    ensures |r.trace| <= |steps| && r.trace == steps[..|r.trace|]
    ensures r.failure.None? <==> forall i :: 0 <= i < |steps| ==> oracle(steps[i]).Ok?
    ensures r.failure.None? ==> r.trace == steps
    ensures r.failure.Some? ==> |r.trace| > 0 && oracle(r.trace[|r.trace| - 1]) == Raised(r.failure.value)
    ensures forall i :: 0 <= i < |r.trace| - 1 ==> oracle(r.trace[i]).Ok?
  {
    if |steps| == 0 then Execution([], None)
    else match oracle(steps[0])
      case Raised(m) => Execution([steps[0]], Some(m))
      case Ok =>
        var rest := Execute(steps[1..], oracle);
        Execution([steps[0]] + rest.trace, rest.failure)
  }

  /** The entry logged when the `try` block ends: `msg` if nothing raised,
      otherwise the exception's text at error level. */
  function Closing(x: Execution, msg: string): seq<LogEntry>
  {
    match x.failure
    case None => [LogEntry(Info, msg)]
    case Some(m) => [LogEntry(Error, m)]
  }

  /** The branch where the source workbook exists: "Iniciando...", then the
      steps, then "Proceso OK" or the error that stopped them. */
  function ProcessRun(steps: seq<Op>, oracle: Op -> Outcome): Run
  {
    var x := Execute(steps, oracle);
    Finished(x.trace, [LogEntry(Info, StartMessage)] + Closing(x, SuccessMessage))
  }

  /** The `try` block, given the parameters read before it. It always
      finishes, attempts between one and seven operations, and logs one or
      two entries; it opens with "Iniciando..." exactly when the source
      workbook exists. */
  function TryBlock(params: Params, paths: Paths, pathExists: string -> bool, oracle: Op -> Outcome, now: DateTime): (r: Run)
    requires ValidDateTime(now)
    ensures r.Finished?
    ensures 1 <= |r.trace| <= 7 && 1 <= |r.log| <= 2
    ensures r.log[0] == LogEntry(Info, StartMessage) <==> pathExists(params.basePath)
  {
    if pathExists(params.basePath) then
      ProcessRun(ProcessSteps(params, paths, now), oracle)
    else
      var x := Execute([WriteResult(paths.result, NoInputTable)], oracle);
      Finished(x.trace, Closing(x, NoInputMessage))
  }

  /** One run of the script. The existence test, the outcome of every
      operation and the clock are inputs. It crashes exactly when a required
      option is missing or its value cannot be interpolated; otherwise it
      attempts at least one operation. */
  function Main(paths: Paths, cfg: ConfigFile, pathExists: string -> bool, oracle: Op -> Outcome, now: DateTime): (r: Run)
    requires ValidDateTime(now)
    ensures r.Crashed? <==> !AllReadable(cfg)
    ensures !AllPresent(cfg) ==> r.Crashed?
    ensures r.Finished? ==> 1 <= |r.trace| <= 7 && 1 <= |r.log| <= 2
  {
    match ConfigureParameters(cfg)
    case Failure(e) => Crashed(e)
    case Success(params) => TryBlock(params, paths, pathExists, oracle, now)
  }

  function ErrorCount(log: seq<LogEntry>): (n: nat)
    ensures n <= |log|
    ensures n == 0 <==> forall i :: 0 <= i < |log| ==> log[i].level == Info
  {
    if |log| == 0 then 0
    else (if log[0].level == Error then 1 else 0) + ErrorCount(log[1..])
  }

  /** Execution stops right after the first raising step: the trace is
      exactly the steps up to and including it. */
  lemma ExecuteStopsAtFirstFailure(steps: seq<Op>, oracle: Op -> Outcome, k: nat)
    requires k < |steps| && oracle(steps[k]).Raised?
    requires forall j :: 0 <= j < k ==> oracle(steps[j]).Ok?
    ensures Execute(steps, oracle).trace == steps[..k + 1]
    ensures Execute(steps, oracle).failure == Some(oracle(steps[k]).message)
  {
  }

  /** A missing section or option, or a value that cannot be
      interpolated, raises before the `try`: nothing is attempted and
      nothing is logged, and the error is that of the first option that
      cannot be read, in reading order. Otherwise the run is the `try`
      block. */
  lemma ConfigErrorCrashes(paths: Paths, cfg: ConfigFile, pathExists: string -> bool, oracle: Op -> Outcome, now: DateTime)
    requires ValidDateTime(now)
    ensures Main(paths, cfg, pathExists, oracle, now).Crashed? <==> !AllReadable(cfg)
    ensures !AllPresent(cfg) ==> Main(paths, cfg, pathExists, oracle, now).Crashed?
    ensures Main(paths, cfg, pathExists, oracle, now).Crashed? ==>
      FirstFailure(cfg, Required) == Some(Main(paths, cfg, pathExists, oracle, now).error)
    ensures AllReadable(cfg) ==>
      Main(paths, cfg, pathExists, oracle, now) == TryBlock(ConfigureParameters(cfg).value, paths, pathExists, oracle, now)
  {
    ConfigErrorIsFirstFailure(cfg);
  }

  /** A password such as `Pa%ss` is rejected by the configuration parser
      before the `try`: the run crashes on it with nothing attempted. */
  lemma BarePercentPasswordCrashes(paths: Paths, cfg: ConfigFile, pathExists: string -> bool, oracle: Op -> Outcome, now: DateTime,
                                   a: string, b: string)
    requires ValidDateTime(now)
    requires Readable(cfg, ("Database", "server")) && Readable(cfg, ("Database", "database"))
    requires Readable(cfg, ("Database", "username")) && Present(cfg, ("Database", "password"))
    requires Options(cfg, "Database")["password"] == a + "%" + b && '%' !in a
    requires |b| == 0 || (b[0] != '%' && b[0] != '(')
    ensures Main(paths, cfg, pathExists, oracle, now) == Crashed(BadValue("Database", "password", BadSyntax))
  {
    BarePercentPasswordRejected(cfg, a, b);
  }

  /** Without a source workbook the only operation is writing the one-row
      marker to the result path; no database, folder or file move happens,
      and the log holds only "Sin archivos..." or the write's error. */
  lemma NoInputBranch(params: Params, paths: Paths, pathExists: string -> bool, oracle: Op -> Outcome, now: DateTime)
    requires ValidDateTime(now)
    requires !pathExists(params.basePath)
    ensures var run := TryBlock(params, paths, pathExists, oracle, now);
      var w := oracle(WriteResult(paths.result, NoInputTable));
      && run.trace == [WriteResult(paths.result, NoInputTable)]
      && (forall op :: op in run.trace ==> !op.TouchesDatabase() && !op.TouchesArchive())
      && run.log == if w.Ok? then [LogEntry(Info, NoInputMessage)] else [LogEntry(Error, w.message)]
  {
  }

  /** Whatever the steps, the first that raises ends the processing branch
      with its error as the only error entry. */
  lemma ProcessRunAborts(steps: seq<Op>, oracle: Op -> Outcome, k: nat)
    requires k < |steps| && oracle(steps[k]).Raised?
    requires forall j :: 0 <= j < k ==> oracle(steps[j]).Ok?
    ensures var run := ProcessRun(steps, oracle);
      && run.trace == steps[..k + 1]
      && run.log == [LogEntry(Info, StartMessage), LogEntry(Error, oracle(steps[k]).message)]
      && ErrorCount(run.log) == 1
  {
  }

  /** With a source workbook the operations are attempted in exactly this
      order and "Iniciando..." is logged before the first of them. The
      archive step copies the result and moves the source workbook. */
  lemma InputBranchOrder(params: Params, paths: Paths, pathExists: string -> bool, oracle: Op -> Outcome, now: DateTime)
    requires ValidDateTime(now)
    requires pathExists(params.basePath)
    ensures var run := TryBlock(params, paths, pathExists, oracle, now);
      var folder := ArchiveFolder(params.historyPath, now);
      && |run.log| == 2 && run.log[0] == LogEntry(Info, StartMessage)
      && 1 <= |run.trace| <= 7
      && run.trace == [ ClearTable(ClearStatement),
                        AppendRows(params.basePath, SourceSheet, params.schema, DestinationTable),
                        ExecProcedure(ProcedureStatement(params.schema)),
                        ExportResult(ResultQuery(params.schema), paths.result),
                        CreateFolder(folder),
                        CopyFile(paths.result, folder),
                        MoveFile(params.basePath, folder) ][..|run.trace|]
  {
    var folder := ArchiveFolder(params.historyPath, now);
    var steps := ProcessSteps(params, paths, now);
    assert steps == [ ClearTable(ClearStatement),
                      AppendRows(params.basePath, SourceSheet, params.schema, DestinationTable),
                      ExecProcedure(ProcedureStatement(params.schema)),
                      ExportResult(ResultQuery(params.schema), paths.result),
                      CreateFolder(folder),
                      CopyFile(paths.result, folder),
                      MoveFile(params.basePath, folder) ];
  }

  /** The clear deletes from the bare table name: its statement holds no
      `.`, so it never names the schema-qualified table the append step of
      the same run writes to. */
  lemma ClearTargetUnqualified(params: Params, paths: Paths, now: DateTime)
    requires ValidDateTime(now)
    ensures '.' !in ClearStatement
    ensures var steps := ProcessSteps(params, paths, now);
      && steps[0] == ClearTable(ClearStatement)
      && steps[1].AppendRows? && steps[1].schema == params.schema && steps[1].table == DestinationTable
  {
  }

  /** The first step that raises aborts every later one and leaves exactly
      one error entry, after "Iniciando...". */
  lemma FirstFailureAborts(params: Params, paths: Paths, pathExists: string -> bool, oracle: Op -> Outcome, now: DateTime, k: nat)
    requires ValidDateTime(now)
    requires pathExists(params.basePath)
    requires k < 7
    requires oracle(ProcessSteps(params, paths, now)[k]).Raised?
    requires forall j :: 0 <= j < k ==> oracle(ProcessSteps(params, paths, now)[j]).Ok?
    ensures var steps := ProcessSteps(params, paths, now);
      var run := TryBlock(params, paths, pathExists, oracle, now);
      && run.trace == steps[..k + 1]
      && run.log == [LogEntry(Info, StartMessage), LogEntry(Error, oracle(steps[k]).message)]
      && ErrorCount(run.log) == 1
  {
    ProcessRunAborts(ProcessSteps(params, paths, now), oracle, k);
  }

  /** The closing entry is an error exactly when a step raised, and is the
      given message otherwise. */
  lemma ClosingEntry(x: Execution, msg: string)
    ensures ErrorCount(Closing(x, msg)) == if x.failure.Some? then 1 else 0
    ensures LogEntry(Info, msg) in Closing(x, msg) <==> x.failure.None?
  {
  }

  /** "Proceso OK" is logged exactly when the source workbook exists and
      every step returned. */
  lemma SuccessLoggedIffAllStepsOk(params: Params, paths: Paths, pathExists: string -> bool, oracle: Op -> Outcome, now: DateTime)
    requires ValidDateTime(now)
    ensures var steps := ProcessSteps(params, paths, now);
      LogEntry(Info, SuccessMessage) in TryBlock(params, paths, pathExists, oracle, now).log
      <==> pathExists(params.basePath) && forall i :: 0 <= i < |steps| ==> oracle(steps[i]).Ok?
  {
    if pathExists(params.basePath) {
      var x := Execute(ProcessSteps(params, paths, now), oracle);
      ClosingEntry(x, SuccessMessage);
    } else {
      var x := Execute([WriteResult(paths.result, NoInputTable)], oracle);
      assert |NoInputMessage| != |SuccessMessage|;
      assert Closing(x, NoInputMessage)[0] != LogEntry(Info, SuccessMessage);
    }
  }

  /** A run logs at most one error entry, and one exactly when some
      attempted operation raised. */
  lemma OneErrorIffSomeStepRaised(params: Params, paths: Paths, pathExists: string -> bool, oracle: Op -> Outcome, now: DateTime)
    requires ValidDateTime(now)
    ensures var run := TryBlock(params, paths, pathExists, oracle, now);
      && ErrorCount(run.log) <= 1
      && (ErrorCount(run.log) == 1 <==> exists i :: 0 <= i < |run.trace| && oracle(run.trace[i]).Raised?)
  {
  }
}
