# API endpoint validator, modelled in Dafny

`main.py` scans a code base for Flask-style route declarations
(`@app.route('/users')`), loads an OpenAPI/Swagger schema from a YAML or
JSON file, and reports every discovered route that the schema's `paths`
mapping does not document, or documents without any HTTP method. This
project models the class `APIEndpointValidator` and the logic behind it:

- `Document` (`document.dfy`): the parser results the model covers
  (null, booleans, numbers, strings, lists, mappings with string keys) and
  the Python operations the validator applies to it: truthiness, `in`,
  subscripting and `.keys()`. Each one raises (`TypeError`, `KeyError`,
  `AttributeError`) exactly where Python raises, so a schema of an
  unexpected shape produces the exception rather than being excluded by a
  precondition.
- `SchemaLoader` (`schema_loader.dfy`): the choice of parser by file
  name suffix (`.yaml`/`.yml`, `.json`, anything else is an error).
- `Routes` (`routes.dfy`): the pattern `@app\.route\(['"](.*?)['"]` as
  `re.findall` applies it, written as a left-to-right scanner
  (`ScanFrom`), together with a declarative statement of what findall
  returns (`FindAll`: the leftmost match, then the same again after it).
  The scanner is proved to meet that statement, and the statement is
  proved to have exactly one answer. The group is lazy, `.` does not match
  a newline, and the two quotes may differ.
- `Discovery` (`discovery.dfy`): the records `find_endpoints` collects,
  as functions over a directory walk given as data (one entry per
  directory that `os.walk` visits, each with its files' names and
  contents).
- `Validation` (`validation.dfy`): `validate_endpoints` as a function: the
  two short-circuits, then the loop over the records, with the exception
  of the first record that raises, or the list of error messages.
- `Validator` (`validator.dfy`): the class itself, with `endpoints` and
  `schema` as mutable fields and its methods as imperative Dafny. The
  loops of `find_endpoints` and `validate_endpoints` are `while` loops,
  proved against the functions above.

An empty `paths` mapping does not give "No paths defined in schema"; that
message comes only when the `paths` key is missing (main.py:89-91). Each
record is reported as not found instead
(`Validation.EmptyPathsReportsEveryRecord`).

## Model

| member | source | states |
|---|---|---|
| Document.Contains | main.py:89 | `in` on a mapping tests its keys, on a list its elements, on a string its substrings; it raises exactly when the container is null, a boolean or a number |
| Document.Subscript | main.py:94 | subscripting by a string succeeds exactly on a mapping holding that key, and yields that key's value |
| Document.Keys | main.py:100 | `.keys()` succeeds exactly on a mapping and yields its key set; on anything else it raises |
| SchemaLoader.FormatOf | main.py:39-44 | `.yaml` or `.yml` picks YAML, `.json` picks JSON, and any other name is the unsupported-format error, each as an if-and-only-if |
| SchemaLoader.SuffixesExclusive | main.py:39-41 | no file name ends both in `.json` and in `.yaml`/`.yml`, so the order of the two tests does not matter |
| Routes.CloseFromCloses | main.py:71 | the lazy group closes at the first quote after the opening quote; if a newline or the end of the text comes first, it does not close at all |
| Routes.MatchAtMatches | main.py:71 | the pattern tried at one position finds a match there whenever there is one, and what it finds is a match |
| Routes.ScanFromMatches | main.py:71 | every match the scan takes is a match of the pattern; the matches come in text order and do not overlap |
| Routes.ScanFromIsFindAll | main.py:71 | the scan takes exactly the leftmost non-overlapping matches, resuming after each closing quote, as findall does |
| Routes.FindAllUnique | main.py:71 | any two lists of matches that both meet the findall description are equal |
| Routes.FindRoutesCaptures | main.py:71 | there is one route per match, each route is the text between that match's quotes, and no route contains a newline or a quote |
| Routes.ScanFromAfterPrefix | main.py:71 | a scan that starts where a prefix ends finds the tail's own matches, shifted by the prefix length |
| Routes.LiteralRoute | main.py:71 | a decorator, a quote, a route free of quotes and newlines, and a quote yield exactly that route, followed by the routes of the rest |
| Routes.LinesScanSeparately | main.py:71 | no match spans a newline: the routes of two lines joined by a newline are the routes of the first line followed by those of the second |
| Routes.MixedQuotesExample | main.py:71 | a route opened by `'` and closed by `"` is still captured |
| Routes.UsageExampleRoutes | main.py:157 | the example app with `/users` and `/items/{item_id}` on two lines yields both routes, in order |
| Discovery.CollectAppend | main.py:64-72 | extending one list over the concatenation of two sequences gives the two results one after the other |
| Discovery.CollectProvenance | main.py:64-72 | every collected record comes from some element of the input |
| Discovery.DirEndpointsAppend | main.py:65-72 | the records of a directory's files, split in two, are the records of each part in order |
| Discovery.WalkEndpointsAppend | main.py:64-72 | the records of a walk, split in two, are the records of each part in order |
| Discovery.NonPythonFileAddsNothing | main.py:66 | a file whose name does not end in `.py` contributes no records, wherever it sits in the directory |
| Discovery.DirEndpointsProvenance | main.py:65-72 | every record of a directory names a `.py` file of that directory joined to its root, and carries a route found in that file's text |
| Discovery.WalkEndpointsProvenance | main.py:64-72 | every record of a walk comes from a `.py` file of one of the walked directories, and carries a route found in that file's text |
| Validation.Pass | main.py:93-104 | the loop succeeds exactly when no record's check raises, and it returns at most one error per record |
| Validation.PassStep | main.py:93-102 | one more record: an earlier exception wins, then this record's exception, else this record's error (if any) is appended |
| Validation.FirstExceptionWins | main.py:93-102 | when the loop raises, it raises the exception of a record before which every record was checked without raising |
| Validation.RaisesAt | main.py:93-102 | a record that raises after every earlier record passed makes the whole loop raise that exception |
| Validation.FailureSticks | main.py:93-104 | once the loop has raised, the records after that point change nothing |
| Validation.ErrorsInRecordOrder | main.py:93-102 | each error is the message of one record; those records come in increasing order, one per error; every record that yields a message is among them |
| Validation.PassAppend | main.py:93-104 | the loop over two lists joined is the loop over each list, with the first exception winning, otherwise the two error lists joined |
| Validation.DuplicateRecordsDuplicateErrors | main.py:77-104 | listing every record twice lists every error twice, because nothing is deduplicated |
| Validation.NotLoadedShortCircuit | main.py:84-86 | a falsy schema gives only "Schema not loaded.", whatever the records |
| Validation.NoPathsShortCircuit | main.py:88-91 | a truthy schema without "paths" gives only "No paths defined in schema", and the records are never looked at |
| Validation.MappingWithoutPaths | main.py:89-91 | a non-empty mapping without a "paths" key gives only "No paths defined in schema" |
| Validation.RecordVerdict | main.py:94-102 | a route missing from the paths is reported as not found; a present route with a mapping entry is reported as lacking methods exactly when none of its keys is an HTTP method; a non-mapping entry raises |
| Validation.MessagesDistinct | main.py:95-102 | the not-found message and the no-methods message never coincide |
| Validation.AllNotFound | main.py:93-95 | with an empty paths mapping, the loop yields one not-found message per record, in record order |
| Validation.EmptyPathsReportsEveryRecord | main.py:89-95 | a schema whose paths mapping exists and is empty reports every record as not found, in record order |
| Validation.NoErrorsIffEveryRecordPasses | main.py:93-104 | a loop that does not raise returns no errors exactly when every record's check gives no error |
| Validation.WellShapedValidation | main.py:77-104 | against a schema of the documented shape nothing raises, and the error list is empty exactly when every route is a schema path with an HTTP method |
| Validation.ScalarPathsRaise | main.py:94 | when "paths" holds null, a boolean or a number, the first record raises `TypeError`; with no records the result is an empty list |
| Validation.ListOrStringPathsRecord | main.py:94-100 | when "paths" is a list or a string, a route it does not hold is reported as not found, and one it holds raises `TypeError` at the subscript |
| Validator.APIEndpointValidator.constructor | main.py:20-31 | a new validator keeps both paths, has no records and has no schema (None) |
| Validator.APIEndpointValidator.LoadSchema | main.py:33-44 | the file name selects the parser and the parsed document becomes the schema; an unsupported name gives the error and leaves the schema unchanged; the records never change |
| Validator.APIEndpointValidator.FindEndpoints | main.py:58-72 | the records become the old records followed by every route of every `.py` file in walk order, and the schema is unchanged |
| Validator.APIEndpointValidator.CollectFile | main.py:66-72 | one file's records are appended to the records, and nothing else changes |
| Validator.APIEndpointValidator.ValidateEndpoints | main.py:77-104 | the result is `validate_endpoints` applied to the current schema and records |
| Validator.APIEndpointValidator.CheckEndpoint | main.py:94-102 | one record's outcome is the not-found error, the no-methods error, no error, or the exception its lookups raise |

## Left out

- Reading files: `open`/`read` in `find_endpoints` and `load_schema`, their `FileNotFoundError` and decoding errors, and the newline translation of text mode. The model takes each file's text as already read.
- `os.walk` itself: the walk is a parameter (directories in the order visited, with their files), so its ordering and its silent skipping of unreadable directories are not modelled. `os.path.join` is modelled for POSIX paths only.
- YAML and JSON parsing: `LoadSchema` takes the two parsers as a function parameter. Parse errors (`yaml.YAMLError`, `json.JSONDecodeError`) and the schema left behind by a failed parse are not modelled.
- Validator.APIEndpointValidator.LoadSchema: returns the unsupported-format error instead of raising `ValueError`, and it does not model the re-raise after logging.
- Document: exceptions carry only their kind, not their message text. Mapping keys are strings only (YAML allows other key types). Numbers are reals, so NaN and infinities are not modelled. The other types `yaml.safe_load` can return are not modelled: dates and timestamps, `bytes` (`!!binary`), sets (`!!set`) and lists of tuples (`!!pairs`, `!!omap`). Some of them act differently under `in`; for example, a string key `in` a `bytes` value raises `TypeError`.
- Logging (`logging.error`, `warning`, `debug`), `setup_argparse`, `main` and `sys.exit`: these are output and process control and do not affect the error list.
- The unused `urlparse` import.
