/** Compiler options read from the nearest `tsconfig.json`
    (src/getNearestTsConfigCompilerOptions.ts). Finding and parsing the file
    belong to the `tsconfig` package; here their outcome is an input. */
module NearestTsConfig {
  import opened Results
  import opened Strings
  import opened Types
  import GetCompileOptions

  /** The JSON values a `compilerOptions` property can hold. */
  datatype JsonValue = Undefined | Null | Bool(b: bool) | Number(n: int) | Str(s: string) | Composite

  /** JavaScript truthiness (numbers are integers here, so NaN does not arise). */
  predicate Truthy(v: JsonValue)
  {
    match v
    case Undefined => false
    case Null => false
    case Bool(b) => b
    case Number(n) => n != 0
    case Str(s) => s != ""
    case Composite => true
  }

  /** The three properties of `compilerOptions` that are read. */
  datatype RawOptions = RawOptions(strict: JsonValue, moduleValue: JsonValue, moduleResolution: JsonValue)

  /** What `find` and `load` of the `tsconfig` package return: the path
      found, and the parsed `compilerOptions` object, absent when the file
      has no such property. */
  datatype FoundTsConfig = FoundTsConfig(path: string, compilerOptions: Option<RawOptions>)

  /** `ILoadConfigResult` */
  datatype LoadConfigResult = LoadConfigResult(compilerOptions: CompileOptions, tsConfigPath: Option<string>)

  /** The `TypeError`s the source can raise while reading the options. */
  datatype TypeError =
    | NoCompilerOptions      // reading a property of `undefined`
    | NotAString(value: JsonValue)  // `toLowerCase` of a value that is not a string

  /** `DefaultCompileOptions` */
  const DefaultCompileOptions: CompileOptions := CompileOptions(Some(false), "CommonJS")

  /** `(options.module || options.moduleResolution || '').toLowerCase()` */
  function ModuleOption(o: RawOptions): Result<string, TypeError>
  {
    var chosen := if Truthy(o.moduleValue) then o.moduleValue
                  else if Truthy(o.moduleResolution) then o.moduleResolution
                  else Str("");
    match chosen
    case Str(s) => Ok(ToLower(s))
    case _ => Err(NotAString(chosen))
  }

  /** `getNearestTsConfigCompilerOptions`, given the result of the search. */
  function GetNearestTsConfigCompilerOptions(found: Option<FoundTsConfig>): (r: Result<LoadConfigResult, TypeError>)
    ensures found.None? ==> r == Ok(LoadConfigResult(DefaultCompileOptions, None))
    ensures r.Ok? && found.Some? && found.value.path != "" ==> r.value.tsConfigPath == Some(found.value.path)
    ensures r.Ok? ==> r.value.compilerOptions.moduleSystem in {"NodeNext", "CommonJS"}
    ensures r.Ok? ==> r.value.compilerOptions.strict.Some?
    ensures found.Some? && found.value.compilerOptions.None? && found.value.path != "" ==> r == Err(NoCompilerOptions)
  {
    if found.None? || found.value.path == "" then
      Ok(LoadConfigResult(DefaultCompileOptions, None))
    else if found.value.compilerOptions.None? then
      Err(NoCompilerOptions)
    else
      var options := found.value.compilerOptions.value;
      match ModuleOption(options)
      case Err(e) => Err(e)
      case Ok(m) =>
        Ok(LoadConfigResult(
          CompileOptions(
            Some(options.strict == Bool(true)),
            if m == "nodenext" || m == "node16" then "NodeNext" else "CommonJS"),
          Some(found.value.path)))
  }

  /** No tsconfig found: the default options and no path. */
  lemma NoTsConfigGivesDefaults()
    ensures GetNearestTsConfigCompilerOptions(None) == Ok(LoadConfigResult(CompileOptions(Some(false), "CommonJS"), None))
    ensures GetNearestTsConfigCompilerOptions(Some(FoundTsConfig("", None))) == GetNearestTsConfigCompilerOptions(None)
  {
  }

  /** `strict` is on exactly when the tsconfig's `strict` is the boolean `true`. */
  lemma StrictOnlyWhenTrue(path: string, o: RawOptions)
    requires path != "" && ModuleOption(o).Ok?
    ensures var r := GetNearestTsConfigCompilerOptions(Some(FoundTsConfig(path, Some(o))));
      r.Ok? && (r.value.compilerOptions.strict == Some(true) <==> o.strict == Bool(true))
  {
  }

  /** The module system is NodeNext exactly when the first truthy one of
      `module` and `moduleResolution`, lowercased, is "nodenext" or "node16". */
  lemma NodeNextExactly(path: string, o: RawOptions, m: string)
    requires path != ""
    requires ModuleOption(o) == Ok(m)
    ensures var r := GetNearestTsConfigCompilerOptions(Some(FoundTsConfig(path, Some(o))));
      r.Ok? && (r.value.compilerOptions.moduleSystem == "NodeNext" <==> m == "nodenext" || m == "node16")
  {
  }

  /** A non-empty `module` string decides alone: `moduleResolution` is not read. */
  lemma ModuleBeforeResolution(s: string, strict: JsonValue, a: JsonValue, b: JsonValue)
    requires s != ""
    ensures ModuleOption(RawOptions(strict, Str(s), a)) == ModuleOption(RawOptions(strict, Str(s), b)) == Ok(ToLower(s))
  {
  }

  /** Letter case does not matter: every spelling of "NodeNext" or "Node16" selects NodeNext. */
  lemma AnyCaseOfNodeNext(path: string, s: string, strict: JsonValue, resolution: JsonValue)
    requires path != ""
    requires ToLower(s) == "nodenext" || ToLower(s) == "node16"
    ensures var r := GetNearestTsConfigCompilerOptions(Some(FoundTsConfig(path, Some(RawOptions(strict, Str(s), resolution)))));
      r.Ok? && r.value.compilerOptions.moduleSystem == "NodeNext"
  {
    assert s != "";
  }

  /** The options found here, passed to `getTsCompileOptions`, compile to
      the NodeNext module kind exactly when the tsconfig asks for it, and to
      CommonJS otherwise. */
  lemma ModuleKindFromTsConfig(outDir: Paths.Path, path: string, o: RawOptions, m: string)
    requires path != "" && ModuleOption(o) == Ok(m)
    ensures var r := GetNearestTsConfigCompilerOptions(Some(FoundTsConfig(path, Some(o))));
      r.Ok? &&
      var kind := GetCompileOptions.GetTsCompileOptions(outDir, r.value.compilerOptions).moduleKind;
      (kind == GetCompileOptions.NodeNext <==> m == "nodenext" || m == "node16") &&
      (kind != GetCompileOptions.NodeNext ==> kind == GetCompileOptions.CommonJS)
  {
  }
}
