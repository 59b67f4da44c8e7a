/** The TypeScript compiler options the cache compiles with
    (src/getCompileOptions.ts). */
module GetCompileOptions {
  import Results
  import opened Paths
  import opened Constants
  import opened Types

  /** TypeScript's `ModuleKind` enumeration (members of TypeScript 5.4 to 5.7). */
  datatype ModuleKind =
    None | CommonJS | AMD | UMD | System | ES2015 | ES2020 | ES2022 | ESNext | Node16 | NodeNext | Preserve

  /** The numeric value of each member. */
  function Value(k: ModuleKind): nat
  {
    match k
    case None => 0
    case CommonJS => 1
    case AMD => 2
    case UMD => 3
    case System => 4
    case ES2015 => 5
    case ES2020 => 6
    case ES2022 => 7
    case ESNext => 99
    case Node16 => 100
    case NodeNext => 199
    case Preserve => 200
  }

  /** The name of each member. */
  function Name(k: ModuleKind): string
  {
    match k
    case None => "None"
    case CommonJS => "CommonJS"
    case AMD => "AMD"
    case UMD => "UMD"
    case System => "System"
    case ES2015 => "ES2015"
    case ES2020 => "ES2020"
    case ES2022 => "ES2022"
    case ESNext => "ESNext"
    case Node16 => "Node16"
    case NodeNext => "NodeNext"
    case Preserve => "Preserve"
  }

  /** `ModuleKind[name]`: the member with that name, if there is one. */
  function KindNamed(name: string): (r: Results.Option<ModuleKind>)
    ensures r.Some? ==> Name(r.value) == name
  {
    if name == "None" then Results.Some(None)
    else if name == "CommonJS" then Results.Some(CommonJS)
    else if name == "AMD" then Results.Some(AMD)
    else if name == "UMD" then Results.Some(UMD)
    else if name == "System" then Results.Some(System)
    else if name == "ES2015" then Results.Some(ES2015)
    else if name == "ES2020" then Results.Some(ES2020)
    else if name == "ES2022" then Results.Some(ES2022)
    else if name == "ESNext" then Results.Some(ESNext)
    else if name == "Node16" then Results.Some(Node16)
    else if name == "NodeNext" then Results.Some(NodeNext)
    else if name == "Preserve" then Results.Some(Preserve)
    else Results.None
  }

  /** `ModuleKind[name] || ModuleKind.CommonJS`: a missing member and the
      member whose value is 0 are both falsy. */
  function ModuleFor(name: string): ModuleKind
  {
    var k := KindNamed(name);
    if k.Some? && Value(k.value) != 0 then k.value else CommonJS
  }

  /** The subset of TypeScript's `CompilerOptions` that the cache sets. */
  datatype TsCompilerOptions = TsCompilerOptions(
    outDir: Path,
    rootDir: Path,
    moduleKind: ModuleKind,
    allowJs: bool,
    skipLibCheck: bool,
    strict: Results.Option<bool>,
    noImplicitAny: Results.Option<bool>,
    noEmitOnError: bool)

  /** `getTsCompileOptions` */
  function GetTsCompileOptions(outDir: Path, options: CompileOptions): (r: TsCompilerOptions)
    ensures r.outDir == outDir && r.rootDir == FsRoot
    ensures options.moduleSystem == "NodeNext" ==> r.moduleKind == NodeNext
    ensures options.moduleSystem == "CommonJS" ==> r.moduleKind == CommonJS
    ensures KindNamed(options.moduleSystem).None? ==> r.moduleKind == CommonJS
    ensures r.moduleKind != None
    ensures r.strict == options.strict && r.noImplicitAny == options.strict
    ensures r.allowJs && r.skipLibCheck && r.noEmitOnError
  {
    TsCompilerOptions(
      outDir := outDir,
      rootDir := FsRoot,
      moduleKind := ModuleFor(options.moduleSystem),
      allowJs := true,
      skipLibCheck := true,
      strict := options.strict,
      noImplicitAny := options.strict,
      noEmitOnError := true)
  }

  /** Every member other than `None` is selected by its own name, so the
      name lookup inverts `Name` there. */
  lemma ModuleForName(k: ModuleKind)
    requires k != None
    ensures ModuleFor(Name(k)) == k
  {
  }
}
