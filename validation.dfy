/**
 * What `validate_endpoints` computes, as functions over the schema
 * document and the endpoint records, with the properties it promises.
 */
module Validation {
  import opened Wrappers
  import opened Document
  import opened Discovery
  import opened Text

  /** The method names that count as HTTP methods; the match is case-sensitive. */
  const HttpMethods: set<string> := {"get", "post", "put", "delete", "patch", "options", "head"}

  const SchemaNotLoaded: string := "Schema not loaded."
  const NoPathsDefined: string := "No paths defined in schema"

  /** The error for a record whose route is not a key of the schema's paths. */
  function NotFoundMessage(e: Endpoint): string {
    "Endpoint '" + e.path + "' (defined in " + e.filePath + ") not found in schema."
  }

  /** The error for a schema path that names no HTTP method. */
  function NoMethodsMessage(path: string): string {
    "Endpoint '" + path + "' in schema does not define valid HTTP methods."
  }

  /** `any(method in [...] for method in methods)` */
  predicate DefinesHttpMethod(methods: set<string>) {
    exists m :: m in methods && m in HttpMethods
  }

  function AsSeq(o: Option<string>): seq<string> {
    match o
    case None => []
    case Some(m) => [m]
  }

  /** One record's outcome: no error, one error message, or the exception Python raises. */
  type Verdict = Result<Option<string>, PyError>

  /**
   * The loop body for one record: look the route up among the schema's
   * paths, then look for an HTTP method among the keys of its entry.
   */
  function CheckRecord(schema: Value, e: Endpoint): Verdict {
    var paths :- Subscript(schema, "paths");
    var found :- Contains(paths, e.path);
    if !found then Success(Some(NotFoundMessage(e)))
    else
      var entry :- Subscript(paths, e.path);
      var methods :- Keys(entry);
      Success(if DefinesHttpMethod(methods) then None else Some(NoMethodsMessage(e.path)))
  }

  /**
   * A loop over the records that runs `check` on each, in order. It
   * raises the exception of the first record whose check raises;
   * otherwise it returns each record's error, if it has one, in record
   * order.
   */
  function Pass(check: Endpoint -> Verdict, records: seq<Endpoint>): (r: Result<seq<string>, PyError>)
    ensures r.Success? <==> forall i :: 0 <= i < |records| ==> check(records[i]).Success?
    ensures r.Success? ==> |r.value| <= |records|
    decreases |records|
  {
    if |records| == 0 then Success([])
    else
      var n := |records| - 1;
      var init := records[..n];
      assert forall i :: 0 <= i < n ==> init[i] == records[i];
      var prior := Pass(check, init);
      if prior.Failure? then Failure(prior.error)
      else if check(records[n]).Failure? then Failure(check(records[n]).error)
      else Success(prior.value + AsSeq(check(records[n]).value))
  }

  /** The per-record check of `validate_endpoints` against one schema. */
  function RecordCheck(schema: Value): Endpoint -> Verdict {
    e => CheckRecord(schema, e)
  }

  /** The loop of `validate_endpoints` over the records. */
  function MainPass(schema: Value, records: seq<Endpoint>): Result<seq<string>, PyError> {
    Pass(RecordCheck(schema), records)
  }

  /** Checking one more record: the earlier exception wins, then this record's, else its error is appended. */
  lemma PassStep(check: Endpoint -> Verdict, records: seq<Endpoint>, i: nat)
    requires i < |records|
    ensures Pass(check, records[..i + 1])
            == match Pass(check, records[..i])
               case Failure(err) => Failure(err)
               case Success(errors) =>
                 match check(records[i])
                 case Failure(err) => Failure(err)
                 case Success(verdict) => Success(errors + AsSeq(verdict))
  {
    assert records[..i + 1][..i] == records[..i];
  }

  /**
   * When the pass raises, it raises what the first raising record
   * raises, and every record before that one was checked without raising.
   */
  lemma {:induction false} FirstExceptionWins(check: Endpoint -> Verdict, records: seq<Endpoint>)
    requires Pass(check, records).Failure?
    ensures exists i :: 0 <= i < |records| && check(records[i]) == Failure(Pass(check, records).error)
              && forall j :: 0 <= j < i ==> check(records[j]).Success?
    decreases |records|
  {
    var n := |records| - 1;
    var init := records[..n];
    assert forall i :: 0 <= i < n ==> init[i] == records[i];
    if Pass(check, init).Failure? {
      FirstExceptionWins(check, init);
      var i :| 0 <= i < n && check(init[i]) == Failure(Pass(check, init).error)
               && forall j :: 0 <= j < i ==> check(init[j]).Success?;
      assert check(records[i]) == Failure(Pass(check, records).error);
    } else {
      assert check(records[n]) == Failure(Pass(check, records).error);
    }
  }

  /** A record that raises after every earlier one passed makes the whole pass raise that exception. */
  lemma RaisesAt(check: Endpoint -> Verdict, records: seq<Endpoint>, i: nat)
    requires i < |records| && Pass(check, records[..i]).Success?
    requires check(records[i]).Failure?
    ensures Pass(check, records) == Failure(check(records[i]).error)
  {
    PassStep(check, records, i);
    FailureSticks(check, records, i + 1);
  }

  /** Once the pass has raised, the records after that point change nothing. */
  lemma {:induction false} FailureSticks(check: Endpoint -> Verdict, records: seq<Endpoint>, j: nat)
    requires j <= |records| && Pass(check, records[..j]).Failure?
    ensures Pass(check, records) == Pass(check, records[..j])
    decreases |records| - j
  {
    if j < |records| {
      PassStep(check, records, j);
      FailureSticks(check, records, j + 1);
    } else {
      assert records[..j] == records;
    }
  }

  /** `validate_endpoints`: the two short-circuits, then the pass over the records. */
  function Validate(schema: Value, records: seq<Endpoint>): Result<seq<string>, PyError> {
    if !Truthy(schema) then Success([SchemaNotLoaded])
    else
      var hasPaths :- Contains(schema, "paths");
      if !hasPaths then Success([NoPathsDefined])
      else MainPass(schema, records)
  }

  /** Running two passes one after the other: the first exception wins, else the errors are joined. */
  function Then(first: Result<seq<string>, PyError>, second: Result<seq<string>, PyError>): Result<seq<string>, PyError> {
    match first
    case Failure(e) => Failure(e)
    case Success(x) =>
      match second
      case Failure(e) => Failure(e)
      case Success(y) => Success(x + y)
  }

  /** The indices of the records whose check yields an error message, in increasing order. */
  function ErrorOrigins(check: Endpoint -> Verdict, records: seq<Endpoint>): seq<nat>
    decreases |records|
  {
    if |records| == 0 then []
    else
      var n := |records| - 1;
      var v := check(records[n]);
      ErrorOrigins(check, records[..n]) + (if v.Success? && v.value.Some? then [n] else [])
  }

  /**
   * Which record each error came from: error k is the message of record
   * ErrorOrigins[k]; those records come in increasing order, one per
   * error, and every record that yields a message is among them.
   */
  lemma {:induction false} ErrorsInRecordOrder(check: Endpoint -> Verdict, records: seq<Endpoint>)
    requires Pass(check, records).Success?
    ensures var errors, origins := Pass(check, records).value, ErrorOrigins(check, records);
      && |origins| == |errors|
      && (forall k :: 0 <= k < |origins| ==>
            origins[k] < |records| && check(records[origins[k]]) == Success(Some(errors[k])))
      && (forall k, l :: 0 <= k < l < |origins| ==> origins[k] < origins[l])
      && (forall i :: 0 <= i < |records| && check(records[i]).value.Some? ==> i in origins)
    decreases |records|
  {
    if |records| != 0 {
      var n := |records| - 1;
      var init := records[..n];
      assert forall i :: 0 <= i < n ==> init[i] == records[i];
      assert Pass(check, init).Success?;
      ErrorsInRecordOrder(check, init);
      var errors, origins := Pass(check, records).value, ErrorOrigins(check, records);
      var prior, earlier := Pass(check, init).value, ErrorOrigins(check, init);
      var v := check(records[n]).value;
      assert errors == prior + AsSeq(v);
      assert origins == earlier + (if v.Some? then [n] else []);
      forall k | 0 <= k < |origins|
        ensures origins[k] < |records| && check(records[origins[k]]) == Success(Some(errors[k]))
      {
        if k < |earlier| {
          assert origins[k] == earlier[k] && errors[k] == prior[k];
        }
      }
      forall k, l | 0 <= k < l < |origins|
        ensures origins[k] < origins[l]
      {
        if l < |earlier| {
          assert origins[k] == earlier[k] && origins[l] == earlier[l];
        } else {
          assert origins[k] == earlier[k] && origins[l] == n;
        }
      }
      forall i | 0 <= i < |records| && check(records[i]).value.Some?
        ensures i in origins
      {
        if i < n {
          assert init[i] == records[i];
          assert i in earlier;
        } else {
          assert origins == earlier + [n];
        }
      }
    }
  }

  /** The pass over a concatenation is the pass over each part, run one after the other. */
  lemma {:induction false} PassAppend(check: Endpoint -> Verdict, a: seq<Endpoint>, b: seq<Endpoint>)
    ensures Pass(check, a + b) == Then(Pass(check, a), Pass(check, b))
    decreases |b|
  {
    if |b| == 0 {
      assert a + b == a;
      if Pass(check, a).Success? {
        assert Pass(check, a).value + [] == Pass(check, a).value;
      }
    } else {
      var b' := b[..|b| - 1];
      assert (a + b)[..|a + b| - 1] == a + b';
      assert (a + b)[|a + b| - 1] == b[|b| - 1];
      PassAppend(check, a, b');
      var ra, rb' := Pass(check, a), Pass(check, b');
      if ra.Success? && rb'.Success? && check(b[|b| - 1]).Success? {
        var v := AsSeq(check(b[|b| - 1]).value);
        assert ra.value + rb'.value + v == ra.value + (rb'.value + v);
      }
    }
  }

  /** With no short-circuit, listing every record twice lists every error twice: there is no deduplication. */
  lemma DuplicateRecordsDuplicateErrors(schema: Value, records: seq<Endpoint>)
    requires Truthy(schema) && Contains(schema, "paths") == Success(true)
    requires Validate(schema, records).Success?
    ensures Validate(schema, records + records)
            == Success(Validate(schema, records).value + Validate(schema, records).value)
  {
    PassAppend(RecordCheck(schema), records, records);
  }

  /** A falsy schema (None, an empty mapping, ...) gives only "Schema not loaded.", whatever the records. */
  lemma NotLoadedShortCircuit(schema: Value, records: seq<Endpoint>)
    requires !Truthy(schema)
    ensures Validate(schema, records) == Success([SchemaNotLoaded])
  {
  }

  /**
   * A truthy schema without "paths" gives only the no-paths error; the
   * records are not examined, so it is the same for every record list.
   */
  lemma NoPathsShortCircuit(schema: Value, records: seq<Endpoint>, others: seq<Endpoint>)
    requires Truthy(schema) && Contains(schema, "paths") == Success(false)
    ensures Validate(schema, records) == Success([NoPathsDefined])
    ensures Validate(schema, records) == Validate(schema, others)
  {
  }

  /** A mapping schema without a "paths" key is the common case of the short-circuit above. */
  lemma MappingWithoutPaths(fields: map<string, Value>, records: seq<Endpoint>)
    requires fields != map[] && "paths" !in fields
    ensures Validate(Map(fields), records) == Success([NoPathsDefined])
  {
  }

  /** The paths mapping of a schema of the documented shape. */
  function PathsOf(schema: Value): map<string, Value>
    requires schema.Map? && "paths" in schema.fields && schema.fields["paths"].Map?
  {
    schema.fields["paths"].fields
  }

  /**
   * One record against a mapping of paths: a missing route gives the
   * not-found error; a present route whose entry is a mapping gives the
   * no-methods error exactly when none of its keys is an HTTP method; a
   * present route whose entry is not a mapping raises (it has no `keys`).
   */
  lemma RecordVerdict(schema: Value, e: Endpoint)
    requires schema.Map? && "paths" in schema.fields && schema.fields["paths"].Map?
    ensures e.path !in PathsOf(schema) ==> CheckRecord(schema, e) == Success(Some(NotFoundMessage(e)))
    ensures e.path in PathsOf(schema) && PathsOf(schema)[e.path].Map? ==>
              (CheckRecord(schema, e) == Success(Some(NoMethodsMessage(e.path)))
               <==> forall m :: m in PathsOf(schema)[e.path].fields ==> m !in HttpMethods)
    ensures e.path in PathsOf(schema) && PathsOf(schema)[e.path].Map? ==>
              (CheckRecord(schema, e) == Success(None)
               <==> exists m :: m in PathsOf(schema)[e.path].fields && m in HttpMethods)
    ensures e.path in PathsOf(schema) && !PathsOf(schema)[e.path].Map? ==>
              CheckRecord(schema, e) == Failure(AttributeError)
  {
  }

  /**
   * The two messages never coincide, so an error says which check it
   * came from: the not-found text ends "schema.", the other "methods.".
   */
  lemma MessagesDistinct(e: Endpoint, path: string)
    ensures NotFoundMessage(e) != NoMethodsMessage(path)
  {
    var a := NotFoundMessage(e);
    var b := NoMethodsMessage(path);
    var aHead := "Endpoint '" + e.path + "' (defined in " + e.filePath;
    var bHead := "Endpoint '" + path;
    assert a == aHead + ") not found in schema.";
    assert b == bHead + "' in schema does not define valid HTTP methods.";
    assert a[|a| - 2] == 'a';
    assert b[|b| - 2] == 's';
  }

  /** A schema whose paths mapping exists and is empty reports every record as not found, in order. */
  lemma EmptyPathsReportsEveryRecord(schema: Value, records: seq<Endpoint>)
    requires schema.Map? && "paths" in schema.fields && schema.fields["paths"] == Map(map[])
    ensures Validate(schema, records).Success?
    ensures |Validate(schema, records).value| == |records|
    ensures forall k :: 0 <= k < |records| ==> Validate(schema, records).value[k] == NotFoundMessage(records[k])
  {
    AllNotFound(schema, records);
  }

  lemma {:induction false} AllNotFound(schema: Value, records: seq<Endpoint>)
    requires schema.Map? && "paths" in schema.fields && schema.fields["paths"] == Map(map[])
    ensures MainPass(schema, records).Success?
    ensures |MainPass(schema, records).value| == |records|
    ensures forall k :: 0 <= k < |records| ==> MainPass(schema, records).value[k] == NotFoundMessage(records[k])
    decreases |records|
  {
    if records != [] {
      var n := |records| - 1;
      var init := records[..n];
      AllNotFound(schema, init);
      assert CheckRecord(schema, records[n]) == Success(Some(NotFoundMessage(records[n])));
      assert MainPass(schema, records) == Success(MainPass(schema, init).value + [NotFoundMessage(records[n])]);
    }
  }

  /** The pass returns no error exactly when no record yields one. */
  lemma {:induction false} NoErrorsIffEveryRecordPasses(check: Endpoint -> Verdict, records: seq<Endpoint>)
    requires Pass(check, records).Success?
    ensures Pass(check, records).value == []
            <==> forall i :: 0 <= i < |records| ==> check(records[i]) == Success(None)
    decreases |records|
  {
    if |records| != 0 {
      var n := |records| - 1;
      var init := records[..n];
      assert forall i :: 0 <= i < n ==> init[i] == records[i];
      NoErrorsIffEveryRecordPasses(check, init);
      var v := check(records[n]).value;
      assert Pass(check, records).value == Pass(check, init).value + AsSeq(v);
    }
  }

  /** The documented schema shape: a mapping whose "paths" maps each route to a mapping of methods. */
  predicate WellShaped(schema: Value) {
    && schema.Map?
    && "paths" in schema.fields
    && schema.fields["paths"].Map?
    && forall p :: p in schema.fields["paths"].fields ==> schema.fields["paths"].fields[p].Map?
  }

  /** The record's route is a schema path that names at least one HTTP method. */
  predicate Documented(schema: Value, e: Endpoint)
    requires WellShaped(schema)
  {
    e.path in PathsOf(schema) && DefinesHttpMethod(PathsOf(schema)[e.path].fields.Keys)
  }

  /**
   * Against a schema of the documented shape nothing raises, and the
   * error list is empty exactly when every record is documented.
   */
  lemma WellShapedValidation(schema: Value, records: seq<Endpoint>)
    requires WellShaped(schema)
    ensures Validate(schema, records).Success?
    ensures Validate(schema, records).value == [] <==> forall i :: 0 <= i < |records| ==> Documented(schema, records[i])
  {
    assert Truthy(schema);
    assert MainPass(schema, records).Success?;
    NoErrorsIffEveryRecordPasses(RecordCheck(schema), records);
    forall i | 0 <= i < |records|
      ensures Documented(schema, records[i]) <==> CheckRecord(schema, records[i]) == Success(None)
    {
      RecordVerdict(schema, records[i]);
    }
  }

  /**
   * When "paths" holds a list or a string, `in` tests an element or a
   * substring: a route it does not hold is reported as not found, and one
   * it does hold raises a TypeError, since neither can be indexed by a string.
   */
  lemma ListOrStringPathsRecord(schema: Value, e: Endpoint)
    requires schema.Map? && "paths" in schema.fields
    requires schema.fields["paths"].Seq? || schema.fields["paths"].Str?
    ensures var paths := schema.fields["paths"];
            var held := if paths.Seq? then Str(e.path) in paths.items else IsSubstring(e.path, paths.s);
            CheckRecord(schema, e) == if held then Failure(TypeError) else Success(Some(NotFoundMessage(e)))
  {
  }

  /** When "paths" holds a scalar, the first record examined raises a TypeError; with no records nothing does. */
  lemma ScalarPathsRaise(schema: Value, records: seq<Endpoint>)
    requires schema.Map? && "paths" in schema.fields
    requires schema.fields["paths"].Null? || schema.fields["paths"].Bool? || schema.fields["paths"].Num?
    ensures Validate(schema, records) == if records == [] then Success([]) else Failure(TypeError)
  {
    if records != [] {
      assert CheckRecord(schema, records[0]).Failure?;
      FirstExceptionWins(RecordCheck(schema), records);
      assert forall i :: 0 <= i < |records| ==> CheckRecord(schema, records[i]) == Failure(TypeError);
    }
  }
}
