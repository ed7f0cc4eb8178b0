/** How `load_schema` picks a parser from the schema file's name. */
module SchemaLoader {
  import opened Wrappers
  import opened Text

  datatype Format = Yaml | Json

  /** The message of the ValueError raised for any other file name. */
  const UnsupportedFormat: string := "Unsupported schema file format. Only YAML and JSON are supported."

  /**
   * The suffix dispatch: `.yaml` or `.yml` selects YAML, `.json` selects
   * JSON, anything else is the unsupported-format error.
   */
  function FormatOf(path: string): (r: Result<Format, string>)
    ensures r == Success(Yaml) <==> EndsWith(path, ".yaml") || EndsWith(path, ".yml")
    ensures r == Success(Json) <==> EndsWith(path, ".json")
    ensures r == Failure(UnsupportedFormat) <==>
              !EndsWith(path, ".yaml") && !EndsWith(path, ".yml") && !EndsWith(path, ".json")
    ensures r.Failure? ==> r.error == UnsupportedFormat
  {
    SuffixesExclusive(path);
    if EndsWith(path, ".yaml") || EndsWith(path, ".yml") then Success(Yaml)
    else if EndsWith(path, ".json") then Success(Json)
    else Failure(UnsupportedFormat)
  }

  /**
   * No file name ends both in a YAML suffix and in `.json`, so the order
   * in which `load_schema` tests the suffixes does not matter.
   */
  lemma SuffixesExclusive(path: string)
    ensures !(EndsWith(path, ".json") && (EndsWith(path, ".yaml") || EndsWith(path, ".yml")))
  {
    LastCharOfSuffix(path, ".json");
    LastCharOfSuffix(path, ".yaml");
    LastCharOfSuffix(path, ".yml");
  }

  /** A string that ends with a suffix ends with the suffix's last character. */
  lemma LastCharOfSuffix(path: string, suffix: string)
    requires suffix != []
    ensures EndsWith(path, suffix) ==> path != [] && path[|path| - 1] == suffix[|suffix| - 1]
  {
    if EndsWith(path, suffix) {
      assert path[|path| - 1] == path[|path| - |suffix|..][|suffix| - 1];
    }
  }
}
