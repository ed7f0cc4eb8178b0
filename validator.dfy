/**
 * The validator object: the schema it has loaded and the endpoint
 * records it has collected, updated in place by its methods.
 */
module Validator {
  import opened Wrappers
  import opened Text
  import opened Document
  import Routes
  import opened Discovery
  import opened SchemaLoader
  import opened Validation

  class APIEndpointValidator {
    const codePath: string
    const schemaPath: string
    var endpoints: seq<Endpoint>
    var schema: Value

    /** A fresh validator has no records and no schema (None). */
    constructor (codePath: string, schemaPath: string)
      ensures this.codePath == codePath && this.schemaPath == schemaPath
      ensures endpoints == [] && schema == Null
    {
      this.codePath := codePath;
      this.schemaPath := schemaPath;
      endpoints := [];
      schema := Null;
    }

    /**
     * `load_schema`, given the parsers as `parse`: the file name picks
     * the format and the parsed document becomes the schema; any other
     * file name is the unsupported-format error and the schema is kept.
     */
    method LoadSchema(parse: Format -> Value) returns (err: Option<string>)
      modifies this
      ensures err.None? <==> FormatOf(schemaPath).Success?
      ensures err.Some? ==> err.value == UnsupportedFormat && schema == old(schema)
      ensures err.None? ==> schema == parse(FormatOf(schemaPath).value)
      ensures endpoints == old(endpoints)
    {
      if EndsWith(schemaPath, ".yaml") || EndsWith(schemaPath, ".yml") {
        schema := parse(Yaml);
      } else if EndsWith(schemaPath, ".json") {
        schema := parse(Json);
      } else {
        return Some(UnsupportedFormat);
      }
      return None;
    }

    /**
     * `find_endpoints` over a walk given as data: every route captured in
     * every `.py` file is appended, tagged with the file's path, in walk
     * order; nothing already collected is dropped or reordered.
     */
    method FindEndpoints(walk: seq<WalkEntry>)
      modifies this
      ensures endpoints == old(endpoints) + WalkEndpoints(walk)
      ensures schema == old(schema)
    {
      var d := 0;
      while d < |walk|
        invariant 0 <= d <= |walk|
        invariant endpoints == old(endpoints) + WalkEndpoints(walk[..d])
        invariant schema == old(schema)
      {
        var entry := walk[d];
        var f := 0;
        while f < |entry.files|
          invariant 0 <= f <= |entry.files|
          invariant endpoints == old(endpoints) + WalkEndpoints(walk[..d]) + DirEndpoints(entry.root, entry.files[..f])
          invariant schema == old(schema)
        {
          DirEndpointsStep(old(endpoints) + WalkEndpoints(walk[..d]), entry.root, entry.files, f);
          CollectFile(entry.root, entry.files[f]);
          f := f + 1;
        }
        assert entry.files[..f] == entry.files;
        WalkEndpointsStep(old(endpoints), walk, d);
        d := d + 1;
      }
      assert walk[..d] == walk;
    }

    /**
     * The body of the inner loop of `find_endpoints`: a file whose name
     * ends `.py` has its captured routes appended, each tagged with the
     * file's joined path; any other file is skipped.
     */
    method CollectFile(root: string, file: SourceFile)
      modifies this
      ensures endpoints == old(endpoints) + FileEndpoints(root, file)
      ensures schema == old(schema)
    {
      if EndsWith(file.name, ".py") {
        var filePath := Join(root, file.name);
        var matches := Routes.FindRoutes(file.content);
        endpoints := endpoints + Tag(filePath, matches);
      } else {
        assert endpoints + [] == endpoints;
      }
    }

    /**
     * `validate_endpoints`: returns (or raises) what Validate gives for
     * the current schema and records. It changes no field, so calling it
     * twice gives equal results.
     */
    method ValidateEndpoints() returns (r: Result<seq<string>, PyError>)
      ensures r == Validate(schema, endpoints)
    {
      if !Truthy(schema) {
        return Success([SchemaNotLoaded]);
      }
      var errors: seq<string> := [];
      var hasPaths :- Contains(schema, "paths");
      if !hasPaths {
        return Success([NoPathsDefined]);
      }
      var i := 0;
      while i < |endpoints|
        invariant 0 <= i <= |endpoints|
        invariant MainPass(schema, endpoints[..i]) == Success(errors)
      {
        var verdict := CheckEndpoint(endpoints[i]);
        if verdict.Failure? {
          RaisesAt(RecordCheck(schema), endpoints, i);
          return Failure(verdict.error);
        }
        PassStep(RecordCheck(schema), endpoints, i);
        errors := errors + AsSeq(verdict.value);
        i := i + 1;
      }
      assert endpoints[..i] == endpoints;
      return Success(errors);
    }

    /**
     * The body of the loop of `validate_endpoints` for one record: look
     * the route up in the schema's paths, then look for an HTTP method
     * among the keys of its entry. Each lookup raises as Python would.
     */
    method CheckEndpoint(e: Endpoint) returns (r: Result<Option<string>, PyError>)
      ensures r == CheckRecord(schema, e)
    {
      var paths :- Subscript(schema, "paths");
      var found :- Contains(paths, e.path);
      if !found {
        return Success(Some(NotFoundMessage(e)));
      }
      var entry :- Subscript(paths, e.path);
      var methods :- Keys(entry);
      if !DefinesHttpMethod(methods) {
        return Success(Some(NoMethodsMessage(e.path)));
      }
      return Success(None);
    }
  }
}
