# Cobrar_matrices ETL, modelled in Dafny

`CobrarMatrices.py` loads the "Base" sheet of a workbook into the staging table
`ETL_COBRARMATRICES`, runs the stored procedure `SPETL_COBRARMATRICES`, exports
the view `vw_ETL_COBRARMATRICES_RESULTADO` to `Resultado.xlsx` and archives the
source workbook and the result in a folder named by the current minute. When the
source workbook is absent it writes a one-row "Sin matrices..." workbook instead.

This project models the parts of that script that are logic rather than library
calls:

- `results.dfy` (`Results`): `Option` and a failure-compatible `Result`.
- `utf8.dfy` (`Utf8`): the UTF-8 encoding `quote_plus` applies to a `str`
  before escaping it, and a strict decoder that inverts it.
- `url_quote.dfy` (`UrlQuote`): `quote_plus` with its defaults. The unreserved
  characters of section 2.3 of RFC 3986 (`A-Z a-z 0-9 _ . - ~`) pass through. A
  space becomes `+`, as in the application/x-www-form-urlencoded serializer of
  the WHATWG URL Standard (section 5). Every other byte becomes `%XX` with
  upper-case hex, as in section 2.1 of RFC 3986. `UnquotePlus`, a strict
  decoder, inverts it.
- `interpolation.dfy` (`Interpolation`): the `BasicInterpolation` that a
  default `configparser.ConfigParser` applies to every value it returns. `%%`
  stands for `%`. `%(name)s` stands for the (interpolated) value of option
  `name` of the same section, nested at most ten deep. Any other `%` is a
  syntax error.
- `config.dfy` (`Config`): `configure_parameters`. A parsed INI file goes in,
  its DEFAULT section included. Either the parameters come out, or the error of
  the first option that cannot be read does. That error is the `KeyError` of an
  absent section or option, or the interpolation error of its value. The
  connection string has its exact layout, and the password can be read back out
  of it.
- `archive.dfy` (`Archive`): `create_folder`. The name is
  `strftime('%y%m%d.%H%M')` of a timestamp passed in as a parameter, and it is
  joined under the history path.
- `spreadsheet.dfy` (`Spreadsheet`): `excel_writer` as the sequence of
  workbook calls it makes.
- `pipeline.dfy` (`Pipeline`): the `__main__` block as a state machine. Every
  effect (clear, append, procedure, export, marker write, folder, copy, move) is
  an operation. An oracle says whether each one returned or raised. A run yields
  the trace of attempted operations and the log as (level, message) entries.
  Alternatively the run crashes when the configuration lookup raises: that lookup
  sits before the `try`.

Inputs stand in for the environment. These are the file-existence test
(`pathExists`), the outcome of every operation (`oracle`), the clock (`now`),
the parsed configuration (`cfg`) and the paths next to the executable (`paths`).

Three behaviours of the code shape the model:

- `configure_parameters` runs before the `try`. A missing section or option
  raises an uncaught `KeyError`, and a value such as `Pa%ss` raises an uncaught
  `InterpolationSyntaxError`; either way nothing is logged. Every failure inside the
  `try` is logged instead.
- The clear deletes from the bare table name `ETL_COBRARMATRICES`. The append
  writes to `<schema>.ETL_COBRARMATRICES`. Both targets are kept as written.
- `move_files` copies `paths["result"]` from the module-level `paths` rather than
  from its parameter. In the one call that exists, both are the same value. The
  model copies the result file and moves the source workbook, which is what the
  call site does.

## Model

| member | source | states |
|---|---|---|
| `Utf8.DecodeEncode` | CobrarMatrices.py:39 | decoding the UTF-8 bytes of any string gives that string back |
| `Utf8.EncodeInjective` | CobrarMatrices.py:39 | two passwords have the same UTF-8 bytes exactly when they are equal |
| `UrlQuote.QuoteByte` | CobrarMatrices.py:39 | a byte becomes `+` exactly when it is a space; an unreserved byte stays itself; every other byte becomes `%` followed by two upper-case hex digits whose value is the byte |
| `UrlQuote.QuoteFromBytes` | CobrarMatrices.py:39 | every output character is unreserved, `%` or `+`, and the output is one to three characters per byte |
| `UrlQuote.QuotePlus` | CobrarMatrices.py:39 | the encoded password uses only letters, digits and `_ . - ~ % +`, and never holds `@ : / ? &` |
| `UrlQuote.UnquoteQuote` | CobrarMatrices.py:39 | percent-decoding the escaped form of any byte string gives back those bytes |
| `UrlQuote.QuotePlusRoundTrip` | CobrarMatrices.py:39 | percent-decoding and then UTF-8-decoding the encoded password gives back the original password |
| `UrlQuote.QuotePlusUnreservedIdentity` | CobrarMatrices.py:39 | a password made only of unreserved characters is left unchanged |
| `Config.Get` | CobrarMatrices.py:35-44 | `config[section][key]` fails naming the section when it is neither a section nor DEFAULT, and naming the key when neither the section nor DEFAULT has it; otherwise a value without `%` comes back verbatim, and a failure of interpolation names the section and key of a value that holds a `%` |
| `Interpolation.Interpolate` | CobrarMatrices.py:35-44 | a value without `%` comes back unchanged; past the nesting limit of ten, interpolation fails with the depth error |
| `Interpolation.InterpolateEscape` | CobrarMatrices.py:35-44 | a value written with every `%` doubled reads back as the text before doubling, whatever the other options are |
| `Interpolation.BarePercentFails` | CobrarMatrices.py:35-44 | a `%` followed by neither `%` nor `(`, or ending the value, is a syntax error whatever follows it |
| `Interpolation.ReferenceExpands` | CobrarMatrices.py:35-44 | `%(Name)s` followed by plain text becomes the plain value of option `name` (lower-cased) followed by that text, and fails naming `name` when there is no such option |
| `Interpolation.SelfReferenceTooDeep` | CobrarMatrices.py:35-44 | an option whose value is `%(itself)s` fails with the depth error at any depth: the limit is what ends a reference cycle |
| `Config.Options` | CobrarMatrices.py:35-44 | `config[section]` sees its own options and DEFAULT's, its own winning |
| `Config.ConnectionString` | CobrarMatrices.py:45 | the URL is `mssql+pyodbc://`, the username and `:`; then the escaped password, which holds no `@`, and `@`; then exactly `server/database?driver=driver&TrustServerCertificate=yes` |
| `Config.ConfigureParameters` | CobrarMatrices.py:31-46 | it succeeds exactly when all eight options can be read (which needs them all present); the result then holds the connection string built from the Database values as read, the schema, the history path and the base path |
| `Config.ConfigErrorIsFirstFailure` | CobrarMatrices.py:35-44 | the lookup fails exactly when some required option cannot be read, and its error is that of the first such option in reading order |
| `Config.PlainConfigurationVerbatim` | CobrarMatrices.py:31-46 | when no required value holds `%`, the parameters are built from the values exactly as written |
| `Config.BarePercentPasswordRejected` | CobrarMatrices.py:38 | a password stored as `Pa%ss` (a `%` followed by neither `%` nor `(`) stops the lookup with a syntax error on the password, though every option is present |
| `Config.EscapedPasswordReadsBack` | CobrarMatrices.py:38 | a password stored with its `%` doubled reads back as the password |
| `Config.MissingFileFailsOnDatabase` | CobrarMatrices.py:32-35 | a configuration file that cannot be read behaves as an empty one, so the first lookup fails on the missing Database section |
| `Config.PasswordRecoverable` | CobrarMatrices.py:39-45 | when the username has no `:`, the text between the first `:` and the next `@` of the connection string is the encoded password, and it percent-decodes and UTF-8-decodes to the original |
| `Config.ReservedPasswordNeverVerbatim` | CobrarMatrices.py:39-45 | when the username has no `:`, a password holding `@ : / ? &` never appears verbatim in the connection string's password field |
| `Config.ColonInUsernameMisreadsPassword` | CobrarMatrices.py:45 | the username is not escaped, so with a `:` in it the password field read back holds the rest of the username and differs from the encoded password |
| `Archive.TwoDigits` | CobrarMatrices.py:50 | a field below 100 becomes two decimal digits whose value is the field |
| `Archive.FolderName` | CobrarMatrices.py:50 | the folder name has 11 characters with `.` at index 6 and digits everywhere else |
| `Archive.ParseFolderNameRoundTrip` | CobrarMatrices.py:50 | reading the name back gives year mod 100, month, day, hour and minute |
| `Archive.FolderNameCollision` | CobrarMatrices.py:50-52 | two runs get the same folder exactly when they fall in the same minute, with the same two-digit year |
| `Archive.Join` | CobrarMatrices.py:51 | the joined path ends with the name; when the directory is not empty, it starts with the directory and the name follows a separator, which is added only when the directory does not already end with one (so the length is that of the directory plus the name, plus one when a separator was added) |
| `Archive.ArchiveFolder` | CobrarMatrices.py:49-53 | the folder's last path component is the timestamp name, and it sits directly under the history path; a separator is inserted only when the history path does not already end with one |
| `Spreadsheet.ExcelWriter` | CobrarMatrices.py:78-88 | the frame is written to sheet "Base"; then, for each column `i` in order, a styled header at `(0, i)` and a width of 40 for column `i`; nothing is written for any column index ≥ n |
| `Pipeline.Main` | CobrarMatrices.py:96-117 | a run crashes exactly when a required option cannot be read, in particular whenever one is missing; otherwise it attempts between one and seven operations and logs one or two entries |
| `Pipeline.TryBlock` | CobrarMatrices.py:101-117 | the `try` block always finishes, attempts between one and seven operations and logs one or two entries; its first entry is "Iniciando..." exactly when the source workbook exists |
| `Pipeline.ProcessSteps` | CobrarMatrices.py:104-110 | seven steps: four database steps, then three archive steps; the append reads the source workbook into `(schema, ETL_COBRARMATRICES)`; the file copied to the archive is the result file the export wrote; the copy and the source move both go into the folder the create step made |
| `Pipeline.Execute` | CobrarMatrices.py:101-117 | the trace is a prefix of the steps; every step before the last one attempted returned; it fails exactly when some step raises, and then the last step attempted raised that failure's message |
| `Pipeline.ExecuteStopsAtFirstFailure` | CobrarMatrices.py:101-117 | when step `k` is the first to raise, the trace is exactly steps `0..k` and the failure is step `k`'s message |
| `Pipeline.ConfigErrorCrashes` | CobrarMatrices.py:96-101 | an option that is missing or cannot be interpolated gives an uncaught failure with no operation and no log entry, naming the first option that cannot be read; otherwise the run is the `try` block |
| `Pipeline.BarePercentPasswordCrashes` | CobrarMatrices.py:96-101 | a password stored as `Pa%ss` crashes the run before the `try`, with the syntax error on the password and nothing attempted |
| `Pipeline.NoInputBranch` | CobrarMatrices.py:112-115 | without the source workbook, the only operation is writing `{Resultado: "Sin matrices..."}` to the result path; there is no database or archive operation; the log is "Sin archivos..." or the write's error |
| `Pipeline.InputBranchOrder` | CobrarMatrices.py:102-110 | with the source workbook, "Iniciando..." is logged first; the trace is a non-empty prefix of clear, append, procedure, export, create folder, copy result, move source |
| `Pipeline.ClearTargetUnqualified` | CobrarMatrices.py:64-75 | the clear statement holds no `.`, so it deletes from the bare `ETL_COBRARMATRICES`; in the same run the first step is that clear and the second appends to `(schema, ETL_COBRARMATRICES)`, so the clear never names the schema-qualified table the append writes to |
| `Pipeline.FirstFailureAborts` | CobrarMatrices.py:101-117 | when step `k` is the first to raise, no later step is attempted; the log is "Iniciando..." and then that step's error, which is the only error entry |
| `Pipeline.SuccessLoggedIffAllStepsOk` | CobrarMatrices.py:101-117 | "Proceso OK" is logged exactly when the source exists and every step returned |
| `Pipeline.OneErrorIffSomeStepRaised` | CobrarMatrices.py:101-117 | a run logs at most one error entry, and one exactly when an attempted operation raised |

## Left out

- `find_local_paths` and `configure_logging` are environment plumbing. The three
  paths are an input. The log's timestamp and format prefix are not modelled.
- ConfigParser's file parsing is left out. The configuration comes in already
  parsed, with option names already lower-cased. A parse error in the file is
  not modelled.
- `Interpolation.Lower`: reference names in `%(name)s` are lower-cased for ASCII
  letters only. Python's `str.lower` also maps other letters, which is not
  modelled.
- `Interpolation.Interpolate`: the text of the exception messages is not
  modelled, only which of the three errors it is.
- pandas `read_excel`, `to_excel` and `read_sql`, and the `strings_to_numbers`
  option, are library behaviour. A frame is column names plus rows of cell
  texts, passed through unchanged.
- SQLAlchemy engines, connections, commits and the stored procedure are
  database I/O. Each database step is one operation, and the oracle gives its
  outcome.
- `export_results` is a query followed by `excel_writer`. It is one `ExportResult`
  operation, so a failure in either part aborts the same way.
- `os.mkdir`, `shutil.copy`, `shutil.move` and `os.path.exists` are I/O. They
  appear only as trace entries, and existence is an input.
- `datetime.now` is nondeterministic. The timestamp is a parameter.
- Cell colours and fonts are not modelled. `WriteHeader` stands for the styled
  header write.
- `Archive.Join` follows `posixpath.join`. Windows `ntpath` handling of drives
  and back-slashes is not modelled.
- `UrlQuote.UnquotePlus` is a strict decoder used only to state the round trip.
  Python's `unquote_plus` is lenient with malformed escapes, which is not
  modelled.
- The oracle is a function of the operation, and each operation occurs at most
  once in a run.
- `Pipeline.ConfigErrorCrashes`: the traceback that an uncaught exception prints is not modelled. The model records only which error it was.
