/**
 The import tracer: resolver inference with its per-directory memo, the forward trace, and the
 reverse trace. The file system is a snapshot; parsing and module resolution are parameters.
 */
module Tracer {
  import opened Wrappers
  import opened ImportGraph
  import opened DepthBound
  import opened ImportFinder

  // ---------- The outside world ----------

  /** The resolver options that inference and creation touch. */
  datatype Resolver = Resolver(tsconfig: Option<Path>, typescriptAliases: bool, modules: seq<Path>)

  datatype Parsed =
    | Panicked(message: string)
    | Program(modules: seq<RequestedModule>, statements: seq<Statement>, ast: Option<string>)

  datatype Resolution =
    | Resolved(path: Path)
    | NotAPath(reason: string)
    | Builtin
    | Unresolved(reason: string)

  datatype World = World(
    entries: set<Path>,
    files: map<Path, string>,
    parse: (Path, string) -> Parsed,
    resolve: (Resolver, Path, string) -> Resolution,
    withoutExtension: string -> string)

  datatype TraceError =
    | ParseError(file: Path, message: string)
    | FileNotFound(file: Path)
    | PathError(reason: string)
    | RootFile(file: Path)
    | ResolveError(specifier: string, file: Path, span: Span, text: string, reason: string)
    | GlobError(reason: string)

  datatype SeenFile = SeenFile(ast: Option<string>)

  datatype TraceResult = TraceResult(files: map<Path, SeenFile>, errors: seq<TraceError>)

  datatype Config = Config(base: Resolver, importType: ImportTraceType, includeAst: bool)

  function Parent(file: Path): Path
    requires file != []
  {
    file[..|file| - 1]
  }

  /** What follows the last dot of a file name, unless the name has no dot or starts with its only one. */
  function Extension(name: string): Option<string> {
    ExtensionFrom(name, |name|)
  }

  function ExtensionFrom(name: string, end: nat): Option<string>
    requires end <= |name|
  {
    if end <= 1 then None
    else if name[end - 1] == '.' then Some(name[end..])
    else ExtensionFrom(name, end - 1)
  }

  predicate IsAsset(file: Path) {
    file != [] && Extension(file[|file| - 1]) in {Some("css"), Some("json")}
  }

  lemma {:induction false} ExtensionFollowsStem(name: string, end: nat) returns (stem: string)
    requires end <= |name| && ExtensionFrom(name, end).Some?
    ensures stem != "" && name == stem + "." + ExtensionFrom(name, end).value
  {
    if name[end - 1] == '.' {
      stem := name[..end - 1];
    } else {
      stem := ExtensionFollowsStem(name, end - 1);
    }
  }

  lemma {:induction false} LastDotIsFound(stem: string, extension: string, end: nat)
    requires stem != "" && '.' !in extension && |stem| + 1 <= end <= |stem| + 1 + |extension|
    ensures ExtensionFrom(stem + "." + extension, end) == Some(extension)
  {
    var name := stem + "." + extension;
    if end > |stem| + 1 {
      assert name[end - 1] == extension[end - 1 - (|stem| + 1)];
      LastDotIsFound(stem, extension, end - 1);
    }
  }

  /** Assets are the files called `x.css` or `x.json`, with a non-empty `x`. */
  lemma AssetsAreStyleSheetsAndJson(file: Path)
    ensures IsAsset(file) <==>
              && file != []
              && exists stem :: stem != "" && (file[|file| - 1] == stem + ".css" || file[|file| - 1] == stem + ".json")
  {
    if file != [] {
      var name := file[|file| - 1];
      if IsAsset(file) {
        var stem := ExtensionFollowsStem(name, |name|);
        assert name == stem + ".css" || name == stem + ".json";
      }
      forall stem, extension | stem != "" && extension in {"css", "json"} && name == stem + "." + extension
        ensures IsAsset(file)
      {
        LastDotIsFound(stem, extension, |name|);
      }
      assert forall stem: string :: stem + "." + "css" == stem + ".css" && stem + "." + "json" == stem + ".json";
    }
  }

  // ---------- Resolver inference ----------

  /** The nearest of `dir` and its ancestors that holds an entry called `name`. */
  function FindUpwards(entries: set<Path>, dir: Path, name: string): Option<Path> {
    if dir + [name] in entries then Some(dir)
    else if dir == [] then None
    else FindUpwards(entries, Parent(dir), name)
  }

  function ApplyTsconfig(r: Resolver, tsconfig: Path): Resolver {
    r.(tsconfig := Some(tsconfig), typescriptAliases := true)
  }

  function CreateResolver(tsconfig: Option<Path>): Resolver {
    var r := Resolver(None, false, []);
    if tsconfig.Some? then ApplyTsconfig(r, tsconfig.value) else r
  }

  /** The walk over the ancestors of a file starts at its directory. */
  function InferResolver(w: World, file: Path, base: Resolver): Option<Resolver> {
    if file == [] then None else InferFrom(w, Parent(file), base)
  }

  function InferFrom(w: World, dir: Path, base: Resolver): Option<Resolver> {
    var tsconfigDir := FindUpwards(w.entries, dir, "tsconfig.json");
    var modulesDir := FindUpwards(w.entries, dir, "node_modules");
    if tsconfigDir.Some? || modulesDir.Some? then
      var r := if tsconfigDir.Some? then ApplyTsconfig(base, tsconfigDir.value + ["tsconfig.json"]) else base;
      Some(if modulesDir.Some? then r.(modules := r.modules + [modulesDir.value + ["node_modules"]]) else r)
    else None
  }

  /** `dir` is the closest ancestor of `file` that holds `name`. */
  ghost predicate IsNearest(entries: set<Path>, file: Path, name: string, dir: Path) {
    && dir < file && dir + [name] in entries
    && forall k :: |dir| < k < |file| ==> file[..k] + [name] !in entries
  }

  ghost predicate IsClosest(entries: set<Path>, file: Path, name: string, dir: Option<Path>) {
    match dir
    case Some(d) => IsNearest(entries, file, name, d)
    case None => forall k :: 0 <= k < |file| ==> file[..k] + [name] !in entries
  }

  lemma {:induction false} FindUpwardsIsClosest(entries: set<Path>, file: Path, k: nat, name: string)
    requires k < |file|
    requires forall j :: k < j < |file| ==> file[..j] + [name] !in entries
    ensures IsClosest(entries, file, name, FindUpwards(entries, file[..k], name))
  {
    if file[..k] + [name] !in entries && k > 0 {
      assert Parent(file[..k]) == file[..k - 1];
      FindUpwardsIsClosest(entries, file, k - 1, name);
    }
  }

  lemma ClosestIsUnique(entries: set<Path>, file: Path, name: string, d: Option<Path>, e: Option<Path>)
    requires IsClosest(entries, file, name, d) && IsClosest(entries, file, name, e)
    ensures d == e
  {
    assert d.Some? ==> file[..|d.value|] == d.value;
    assert e.Some? ==> file[..|e.value|] == e.value;
  }

  /** Inference uses the closest `tsconfig.json` and, independently, the closest `node_modules`. */
  lemma InferenceIsNearest(w: World, file: Path, base: Resolver, ts: Option<Path>, nm: Option<Path>)
    requires IsClosest(w.entries, file, "tsconfig.json", ts) && IsClosest(w.entries, file, "node_modules", nm)
    ensures InferResolver(w, file, base).None? <==> ts.None? && nm.None?
    ensures Effective(w, file, base) == Resolver(
              if ts.Some? then Some(ts.value + ["tsconfig.json"]) else base.tsconfig,
              ts.Some? || base.typescriptAliases,
              if nm.Some? then base.modules + [nm.value + ["node_modules"]] else base.modules)
  {
    if file != [] {
      FindUpwardsIsClosest(w.entries, file, |file| - 1, "tsconfig.json");
      FindUpwardsIsClosest(w.entries, file, |file| - 1, "node_modules");
      ClosestIsUnique(w.entries, file, "tsconfig.json", ts, FindUpwards(w.entries, Parent(file), "tsconfig.json"));
      ClosestIsUnique(w.entries, file, "node_modules", nm, FindUpwards(w.entries, Parent(file), "node_modules"));
    }
  }

  function Effective(w: World, file: Path, base: Resolver): Resolver {
    match InferResolver(w, file, base)
    case Some(r) => r
    case None => base
  }

  /** In a trace, a file is resolved with the closest `tsconfig.json`, or else the one the trace was given, and
      with the closest `node_modules` alone; the extension aliases come with a tsconfig. */
  lemma TraceResolverIsNearest(
    w: World, file: Path, given: Option<Path>, ts: Option<Path>, nm: Option<Path>)
    requires IsClosest(w.entries, file, "tsconfig.json", ts) && IsClosest(w.entries, file, "node_modules", nm)
    ensures var r := Effective(w, file, CreateResolver(given));
            && r.tsconfig == (if ts.Some? then Some(ts.value + ["tsconfig.json"]) else given)
            && r.typescriptAliases == (ts.Some? || given.Some?)
            && r.modules == (if nm.Some? then [nm.value + ["node_modules"]] else [])
  {
    InferenceIsNearest(w, file, CreateResolver(given), ts, nm);
  }

  /** One inferred resolver per source directory, kept for the duration of a trace. */
  class ResolverInferenceCache {
    var resolvers: map<Path, Option<Resolver>>

    constructor ()
      ensures resolvers == map[]
    {
      resolvers := map[];
    }

    /** Each entry is what inference gives from that directory. */
    ghost predicate Agrees(w: World, base: Resolver)
      reads this
    {
      forall dir :: dir in resolvers ==> resolvers[dir] == InferFrom(w, dir, base)
    }

    /** So an entry is what direct inference gives for every file of its directory. */
    lemma AgreesWithDirectInference(w: World, base: Resolver, file: Path)
      requires Agrees(w, base) && file != [] && Parent(file) in resolvers
      ensures resolvers[Parent(file)] == InferResolver(w, file, base)
    {
    }

    method Infer(w: World, file: Path, base: Resolver) returns (r: Option<Resolver>)
      requires Agrees(w, base)
      modifies this
      ensures Agrees(w, base)
      ensures r == InferResolver(w, file, base)
      ensures resolvers == if file == [] || Parent(file) in old(resolvers) then old(resolvers)
                           else old(resolvers)[Parent(file) := r]
    {
      if file == [] {
        return None;
      }
      var dir := Parent(file);
      if dir !in resolvers {
        resolvers := resolvers[dir := InferResolver(w, file, base)];
      }
      r := resolvers[dir];
    }
  }

  // ---------- The imports of one file ----------

  datatype Outcome = Follow(path: Path) | Ignore | Fail(error: TraceError)

  function Retry(w: World, r: Resolver, dir: Path, specifier: string): Option<Path> {
    match w.resolve(r, dir, specifier)
    case Resolved(path) => Some(path)
    case _ => None
  }

  predicate IsRelative(specifier: string) {
    specifier != [] && specifier[0] == '.'
  }

  function ResolveImport(w: World, r: Resolver, file: Path, text: string, imp: ImportResult): Outcome {
    if file == [] then Fail(RootFile(file))
    else
      var dir := Parent(file);
      match w.resolve(r, dir, imp.specifier)
      case Resolved(path) => Follow(path)
      case NotAPath(reason) => Fail(PathError(reason))
      case Builtin => Ignore
      case Unresolved(reason) =>
        var typed := if IsRelative(imp.specifier) then None else Retry(w, r, dir, "@types/" + imp.specifier);
        var bare := Retry(w, r, dir, w.withoutExtension(imp.specifier));
        if typed.Some? then Follow(typed.value)
        else if bare.Some? then Follow(bare.value)
        else Fail(ResolveError(imp.specifier, file, imp.span, text, reason))
  }

  function Outcomes(w: World, r: Resolver, file: Path, text: string, imports: seq<ImportResult>): seq<Outcome> {
    seq(|imports|, i requires 0 <= i < |imports| => ResolveImport(w, r, file, text, imports[i]))
  }

  function Followed(os: seq<Outcome>): seq<Path> {
    if os == [] then []
    else Followed(os[..|os| - 1]) + if os[|os| - 1].Follow? then [os[|os| - 1].path] else []
  }

  function Failures(os: seq<Outcome>): seq<TraceError> {
    if os == [] then []
    else Failures(os[..|os| - 1]) + if os[|os| - 1].Fail? then [os[|os| - 1].error] else []
  }

  datatype Scan = Scan(found: Option<(seq<Path>, SeenFile)>, errors: seq<TraceError>)

  /** Reads, parses and resolves the imports of `file` with the given resolver. */
  function ScanWith(w: World, cfg: Config, r: Resolver, file: Path): Scan {
    if file !in w.files then Scan(None, [FileNotFound(file)])
    else
      match w.parse(file, w.files[file])
      case Panicked(message) => Scan(None, [ParseError(file, message)])
      case Program(modules, statements, ast) =>
        var os := Outcomes(w, r, file, w.files[file], Found(modules, statements, cfg.importType));
        Scan(Some((Followed(os), SeenFile(if cfg.includeAst then ast else None))), Failures(os))
  }

  /** The scan of a file as a trace does it, with the resolver inferred for the file. */
  function ScanFile(w: World, cfg: Config, file: Path): Scan {
    ScanWith(w, cfg, Effective(w, file, cfg.base), file)
  }

  /** Scans one file, appending its problems to `errors`. */
  method GetImportsFromFile(w: World, cfg: Config, resolver: Resolver, file: Path, errors: seq<TraceError>)
    returns (found: Option<(seq<Path>, SeenFile)>, errors': seq<TraceError>)
    ensures found == ScanWith(w, cfg, resolver, file).found
    ensures errors' == errors + ScanWith(w, cfg, resolver, file).errors
  {
    hide Found;
    errors' := errors;
    if file !in w.files {
      return None, errors' + [FileNotFound(file)];
    }
    var text := w.files[file];
    var parsed := w.parse(file, text);
    if parsed.Panicked? {
      return None, errors' + [ParseError(file, parsed.message)];
    }
    var imports := FindImports(parsed.modules, parsed.statements, cfg.importType);
    ghost var os := Outcomes(w, resolver, file, text, imports);
    var files: seq<Path> := [];
    for i := 0 to |imports|
      invariant files == Followed(os[..i]) && errors' == errors + Failures(os[..i])
    {
      assert os[..i + 1][..i] == os[..i];
      var specifier := imports[i].specifier;
      if file == [] {
        errors' := errors' + [RootFile(file)];
        continue;
      }
      var dir := Parent(file);
      match w.resolve(resolver, dir, specifier) {
        case Resolved(path) => files := files + [path];
        case NotAPath(reason) => errors' := errors' + [PathError(reason)];
        case Builtin =>
        case Unresolved(reason) =>
          if !IsRelative(specifier) {
            var typed := Retry(w, resolver, dir, "@types/" + specifier);
            if typed.Some? {
              files := files + [typed.value];
              continue;
            }
          }
          var bare := Retry(w, resolver, dir, w.withoutExtension(specifier));
          if bare.Some? {
            files := files + [bare.value];
            continue;
          }
          errors' := errors' + [ResolveError(specifier, file, imports[i].span, text, reason)];
      }
    }
    assert os[..|imports|] == os;
    found := Some((files, SeenFile(if cfg.includeAst then parsed.ast else None)));
  }

  // ---------- What becomes of an import ----------

  /** The resolver's answer for a name, asked from the directory of `file`. */
  function Answer(w: World, r: Resolver, file: Path, name: string): Resolution
    requires file != []
  {
    w.resolve(r, file[..|file| - 1], name)
  }

  /** The answers by which `imp` leads from `file` to `path`. A name that is not resolved is tried again as a
      package of type declarations, unless it begins with a dot, and only then without its extension. */
  ghost predicate LeadsToFile(w: World, r: Resolver, file: Path, imp: ImportResult, path: Path) {
    var name := imp.specifier;
    && file != []
    && (|| Answer(w, r, file, name) == Resolved(path)
        || (&& Answer(w, r, file, name).Unresolved?
            && !("." <= name) && Answer(w, r, file, "@types/" + name) == Resolved(path))
        || (&& Answer(w, r, file, name).Unresolved?
            && ("." <= name || !Answer(w, r, file, "@types/" + name).Resolved?)
            && Answer(w, r, file, w.withoutExtension(name)) == Resolved(path)))
  }

  /** The answers by which `imp` is reported as problem `e`. */
  ghost predicate IsReported(w: World, r: Resolver, file: Path, text: string, imp: ImportResult, e: TraceError) {
    if file == [] then e == RootFile(file)
    else
      match Answer(w, r, file, imp.specifier)
      case NotAPath(reason) => e == PathError(reason)
      case Unresolved(reason) =>
        && e == ResolveError(imp.specifier, file, imp.span, text, reason)
        && forall path :: !LeadsToFile(w, r, file, imp, path)
      case _ => false
  }

  lemma OutcomeMeans(w: World, r: Resolver, file: Path, text: string, imp: ImportResult)
    ensures forall path :: ResolveImport(w, r, file, text, imp) == Follow(path) <==> LeadsToFile(w, r, file, imp, path)
    ensures forall e :: ResolveImport(w, r, file, text, imp) == Fail(e) <==> IsReported(w, r, file, text, imp, e)
    ensures ResolveImport(w, r, file, text, imp) == Ignore <==>
              file != [] && Answer(w, r, file, imp.specifier) == Builtin
  {
    if file != [] {
      var typed := Answer(w, r, file, "@types/" + imp.specifier);
      var bare := Answer(w, r, file, w.withoutExtension(imp.specifier));
      assert Parent(file) == file[..|file| - 1];
      assert IsRelative(imp.specifier) <==> "." <= imp.specifier;
      if Answer(w, r, file, imp.specifier).Unresolved? {
        if typed.Resolved? && !("." <= imp.specifier) {
          assert LeadsToFile(w, r, file, imp, typed.path);
        } else if bare.Resolved? {
          assert LeadsToFile(w, r, file, imp, bare.path);
        }
      }
    }
  }

  /** A scan follows exactly the files that its imports lead to. */
  lemma ScanFollowsExactly(w: World, cfg: Config, r: Resolver, file: Path, path: Path)
    requires file in w.files && w.parse(file, w.files[file]).Program?
    ensures var p := w.parse(file, w.files[file]);
            && ScanWith(w, cfg, r, file).found.Some?
            && (path in ScanWith(w, cfg, r, file).found.value.0 <==>
                  exists imp :: imp in Found(p.modules, p.statements, cfg.importType)
                    && LeadsToFile(w, r, file, imp, path))
  {
    hide LeadsToFile, ResolveImport, Found;
    var p := w.parse(file, w.files[file]);
    var imports := Found(p.modules, p.statements, cfg.importType);
    var os := Outcomes(w, r, file, w.files[file], imports);
    FollowedHas(os, path);
    forall i | 0 <= i < |imports|
      ensures os[i] == Follow(path) <==> LeadsToFile(w, r, file, imports[i], path)
    {
      OutcomeMeans(w, r, file, w.files[file], imports[i]);
    }
    if imp :| imp in imports && LeadsToFile(w, r, file, imp, path) {
      var i :| 0 <= i < |imports| && imports[i] == imp;
      assert os[i] == Follow(path);
    }
  }

  /** A scan reports exactly the problems of its imports, or that the file cannot be read or parsed. */
  lemma ScanReportsExactly(w: World, cfg: Config, r: Resolver, file: Path, e: TraceError)
    ensures e in ScanWith(w, cfg, r, file).errors <==>
              if file !in w.files then e == FileNotFound(file)
              else
                match w.parse(file, w.files[file])
                case Panicked(message) => e == ParseError(file, message)
                case Program(modules, statements, _) =>
                  exists imp :: imp in Found(modules, statements, cfg.importType)
                    && IsReported(w, r, file, w.files[file], imp, e)
  {
    hide LeadsToFile, IsReported, ResolveImport, Found;
    if file in w.files && w.parse(file, w.files[file]).Program? {
      var p := w.parse(file, w.files[file]);
      var imports := Found(p.modules, p.statements, cfg.importType);
      var os := Outcomes(w, r, file, w.files[file], imports);
      ImportsAreAccountedFor(os);
      forall i | 0 <= i < |imports|
        ensures os[i] == Fail(e) <==> IsReported(w, r, file, w.files[file], imports[i], e)
      {
        OutcomeMeans(w, r, file, w.files[file], imports[i]);
      }
      if imp :| imp in imports && IsReported(w, r, file, w.files[file], imp, e) {
        var i :| 0 <= i < |imports| && imports[i] == imp;
        assert os[i] == Fail(e);
      }
    }
  }

  /** Imports are handled one by one and in order: the results of a list are those of its parts. */
  lemma {:induction false} ImportsAreHandledInOrder(
    w: World, r: Resolver, file: Path, text: string, a: seq<ImportResult>, b: seq<ImportResult>)
    ensures Followed(Outcomes(w, r, file, text, a + b))
         == Followed(Outcomes(w, r, file, text, a)) + Followed(Outcomes(w, r, file, text, b))
    ensures Failures(Outcomes(w, r, file, text, a + b))
         == Failures(Outcomes(w, r, file, text, a)) + Failures(Outcomes(w, r, file, text, b))
    decreases |b|
  {
    hide ResolveImport;
    if b == [] {
      assert a + b == a;
    } else {
      var n := |b| - 1;
      ImportsAreHandledInOrder(w, r, file, text, a, b[..n]);
      var whole, part := Outcomes(w, r, file, text, a + b), Outcomes(w, r, file, text, b);
      assert whole[..|whole| - 1] == Outcomes(w, r, file, text, a + b[..n]);
      assert part[..n] == Outcomes(w, r, file, text, b[..n]) && whole[|whole| - 1] == part[n];
      var first, front := Outcomes(w, r, file, text, a), part[..n];
      AppendAssociates(Followed(first), Followed(front), if part[n].Follow? then [part[n].path] else []);
      AppendAssociates(Failures(first), Failures(front), if part[n].Fail? then [part[n].error] else []);
    }
  }

  /** A single import is followed to at most one file or reported as at most one problem; a builtin is neither. */
  lemma OneImportMeans(w: World, r: Resolver, file: Path, text: string, imp: ImportResult)
    ensures forall path ::
              Followed(Outcomes(w, r, file, text, [imp])) == [path] <==> LeadsToFile(w, r, file, imp, path)
    ensures forall e ::
              Failures(Outcomes(w, r, file, text, [imp])) == [e] <==> IsReported(w, r, file, text, imp, e)
    ensures Followed(Outcomes(w, r, file, text, [imp])) != [] ==> Failures(Outcomes(w, r, file, text, [imp])) == []
    ensures Followed(Outcomes(w, r, file, text, [imp])) == [] && Failures(Outcomes(w, r, file, text, [imp])) == [] <==>
              file != [] && Answer(w, r, file, imp.specifier) == Builtin
  {
    hide LeadsToFile, IsReported, ResolveImport;
    OutcomeMeans(w, r, file, text, imp);
    var os := Outcomes(w, r, file, text, [imp]);
    assert os == [ResolveImport(w, r, file, text, imp)] && os[..0] == [];
    assert Followed(os) == if os[0].Follow? then [os[0].path] else [];
    assert Failures(os) == if os[0].Fail? then [os[0].error] else [];
  }

  /** Packages of type declarations matter only for imports that do not begin with a dot. */
  lemma RelativeImportsIgnoreTypePackages(w: World, v: World, cfg: Config, r: Resolver, file: Path)
    requires v == w.(resolve := v.resolve) && file in w.files && w.parse(file, w.files[file]).Program?
    requires var p := w.parse(file, w.files[file]);
             forall imp :: imp in Found(p.modules, p.statements, cfg.importType) ==>
               "." <= imp.specifier && !("@types/" <= w.withoutExtension(imp.specifier))
    requires forall dir, name :: "@types/" <= name || v.resolve(r, dir, name) == w.resolve(r, dir, name)
    ensures ScanWith(v, cfg, r, file) == ScanWith(w, cfg, r, file)
  {
    hide Found;
    var p, text := w.parse(file, w.files[file]), w.files[file];
    var imports := Found(p.modules, p.statements, cfg.importType);
    forall i | 0 <= i < |imports|
      ensures Outcomes(v, r, file, text, imports)[i] == Outcomes(w, r, file, text, imports)[i]
    {
      assert imports[i] in imports;
      assert imports[i].specifier[0] == '.';
    }
    assert Outcomes(v, r, file, text, imports) == Outcomes(w, r, file, text, imports);
  }

  // ---------- The graph a trace walks ----------

  /** Style sheets, JSON, and files that cannot be read or parsed import nothing. */
  function Edges(w: World, cfg: Config, file: Path): seq<Path> {
    if IsAsset(file) then []
    else
      match ScanFile(w, cfg, file).found
      case Some(found) => found.0
      case None => []
  }

  function GraphOf(w: World, cfg: Config): Graph {
    map file | file in w.files :: Edges(w, cfg, file)
  }

  lemma GraphHasEdges(w: World, cfg: Config, file: Path)
    ensures Imports(GraphOf(w, cfg), file) == Edges(w, cfg, file)
  {
  }

  function EntryOf(w: World, cfg: Config, file: Path): SeenFile {
    if IsAsset(file) then SeenFile(None)
    else
      match ScanFile(w, cfg, file).found
      case Some(found) => found.1
      case None => SeenFile(None)
  }

  function ErrorsOf(w: World, cfg: Config, file: Path): seq<TraceError> {
    if IsAsset(file) then [] else ScanFile(w, cfg, file).errors
  }

  /** The entry of a traced file has its syntax tree if it was asked for and the file can be read and parsed. Only
      such files, and no assets, have imports; assets are not even read. */
  lemma TracedFileMeans(w: World, cfg: Config, file: Path)
    ensures forall ast :: EntryOf(w, cfg, file) == SeenFile(Some(ast)) <==>
              && cfg.includeAst && !IsAsset(file) && file in w.files
              && w.parse(file, w.files[file]).Program? && w.parse(file, w.files[file]).ast == Some(ast)
    ensures IsAsset(file) ==> Edges(w, cfg, file) == [] && ErrorsOf(w, cfg, file) == []
    ensures !IsAsset(file) && file !in w.files ==>
              Edges(w, cfg, file) == [] && ErrorsOf(w, cfg, file) == [FileNotFound(file)]
    ensures !IsAsset(file) && file in w.files && w.parse(file, w.files[file]).Panicked? ==>
              && Edges(w, cfg, file) == []
              && ErrorsOf(w, cfg, file) == [ParseError(file, w.parse(file, w.files[file]).message)]
    ensures !IsAsset(file) && file in w.files && w.parse(file, w.files[file]).Program? ==>
              var s := ScanWith(w, cfg, Effective(w, file, cfg.base), file);
              s.found.Some? && Edges(w, cfg, file) == s.found.value.0 && ErrorsOf(w, cfg, file) == s.errors
  {
    hide Effective, Found, Outcomes, IsAsset;
  }

  /** The errors of tracing each file once, in visiting order. */
  function ErrorsAlong(w: World, cfg: Config, order: seq<Path>): seq<TraceError> {
    if order == [] then []
    else ErrorsAlong(w, cfg, order[..|order| - 1]) + ErrorsOf(w, cfg, order[|order| - 1])
  }

  function EntriesOf(w: World, cfg: Config, order: seq<Path>): map<Path, SeenFile> {
    map file | file in order :: EntryOf(w, cfg, file)
  }

  lemma NothingVisited(w: World, cfg: Config, earlier: seq<TraceError>)
    ensures EntriesOf(w, cfg, []) == map[] && earlier + ErrorsAlong(w, cfg, []) == earlier
  {
  }

  lemma VisitAppends(w: World, cfg: Config, earlier: seq<TraceError>, order: seq<Path>, file: Path)
    ensures EntriesOf(w, cfg, order + [file]) == EntriesOf(w, cfg, order)[file := EntryOf(w, cfg, file)]
    ensures earlier + ErrorsAlong(w, cfg, order + [file])
         == (earlier + ErrorsAlong(w, cfg, order)) + ErrorsOf(w, cfg, file)
  {
    var longer := order + [file];
    assert longer[..|longer| - 1] == order;
  }

  // ---------- The tracer ----------

  class Tracer {
    var files: seq<Queued>
    var errors: seq<TraceError>
    var importType: ImportTraceType
    var includeAst: bool
    const tsconfig: Option<Path>

    constructor (roots: seq<Path>, tsconfig: Option<Path>)
      ensures files == Enqueue(roots, 0) && errors == []
      ensures importType == All && includeAst && this.tsconfig == tsconfig
    {
      files := Enqueue(roots, 0);
      errors := [];
      importType := All;
      includeAst := true;
      this.tsconfig := tsconfig;
    }

    function Configuration(): Config
      reads this`importType, this`includeAst
    {
      Config(CreateResolver(tsconfig), importType, includeAst)
    }

    /** Visits one popped file, unless it was visited before. `order` lists the files visited so far,
        and `earlier` holds the errors from before the trace. */
    method TraceFile(w: World, resolver: Resolver, file: Path, depth: nat, seen: map<Path, SeenFile>,
                     cache: ResolverInferenceCache, ghost cfg: Config, ghost g: Graph, ghost order: seq<Path>,
                     ghost earlier: seq<TraceError>)
      returns (seen': map<Path, SeenFile>)
      requires g == GraphOf(w, cfg)
      requires cfg == Configuration() && resolver == cfg.base && cache.Agrees(w, resolver)
      requires seen == EntriesOf(w, cfg, order) && errors == earlier + ErrorsAlong(w, cfg, order)
      modifies this`files, this`errors, cache
      ensures cache.Agrees(w, resolver)
      ensures file in order ==> seen' == seen && files == old(files) && errors == old(errors)
      ensures file !in order ==> files == old(files) + Enqueue(Imports(g, file), depth + 1)
      ensures file !in order ==> seen' == EntriesOf(w, cfg, order + [file])
      ensures file !in order ==> errors == earlier + ErrorsAlong(w, cfg, order + [file])
    {
      hide ScanWith, InferFrom;
      seen' := seen;
      if file in seen {
        return;
      }
      var inferred := cache.Infer(w, file, resolver);
      var fileResolver := if inferred.Some? then inferred.value else resolver;
      var entry, imported: seq<Path> := SeenFile(None), [];
      if !IsAsset(file) {
        var found;
        found, errors := GetImportsFromFile(w, Configuration(), fileResolver, file, errors);
        if found.Some? {
          imported, entry := found.value.0, found.value.1;
        }
      }
      assert imported == Edges(w, cfg, file) && entry == EntryOf(w, cfg, file);
      seen' := seen[file := entry];
      files := files + Enqueue(imported, depth + 1);
      GraphHasEdges(w, cfg, file);
      VisitAppends(w, cfg, earlier, order, file);
    }

    /** Runs the worklist to its end. Every visited file is reported with its syntax tree, and every
        problem of a visited file once, whether resolvers come from the memo or from direct inference. */
    method Trace(w: World, maxDepth: Option<nat>) returns (result: TraceResult)
      modifies this
      ensures var cfg := old(Configuration());
              var order := Work(GraphOf(w, cfg), old(files), [], maxDepth);
              && result.files == EntriesOf(w, cfg, order)
              && result.errors == old(errors) + ErrorsAlong(w, cfg, order)
    {
      hide GraphOf, EntriesOf, ErrorsAlong, InferFrom, Work;
      var seen: map<Path, SeenFile> := map[];
      var resolver := CreateResolver(tsconfig);
      var cache := new ResolverInferenceCache();
      ghost var cfg, order: seq<Path> := Configuration(), [];
      ghost var g := GraphOf(w, cfg);
      ghost var whole := Work(g, files, [], maxDepth);
      NothingVisited(w, cfg, errors);
      while files != []
        invariant cfg == old(Configuration()) == Configuration() && fresh(cache) && cache.Agrees(w, resolver)
        invariant Work(g, files, order, maxDepth) == whole
        invariant seen == EntriesOf(w, cfg, order)
        invariant errors == old(errors) + ErrorsAlong(w, cfg, order)
        decreases g.Keys - Elements(order), |files|
      {
        var top := files[|files| - 1];
        assert files == files[..|files| - 1] + [top];
        files := files[..|files| - 1];
        ghost var rest := files;
        if maxDepth.Some? && top.depth > maxDepth.value {
          WorkSkips(g, rest, top, order, maxDepth);
          continue;
        }
        seen := TraceFile(w, resolver, top.file, top.depth, seen, cache, cfg, g, order, old(errors));
        if top.file in order {
          WorkSkips(g, rest, top, order, maxDepth);
        } else {
          WorkVisits(g, rest, top, order, maxDepth);
          order := order + [top.file];
        }
      }
      WorkIsDone(g, order, maxDepth);
      result := TraceResult(seen, errors);
    }

    /** Which globbed files import one of the queued sources directly. The tasks finish in any order. */
    method ReverseTrace(w: World, globbed: Result<seq<Path>, TraceError>) returns (result: TraceResult)
      ensures globbed.Err? ==> result == TraceResult(map[], [globbed.error])
      ensures globbed.Ok? ==> result.files == Usages(w, Configuration(), globbed.value, files)
      ensures globbed.Ok? ==> multiset(result.errors) == AllErrors(w, Configuration(), globbed.value)
    {
      hide ScanWith, AllErrors, Usages, Effective, ImportsSource;
      if globbed.Err? {
        return TraceResult(map[], [globbed.error]);
      }
      var walked := globbed.value;
      var pending := SpawnTasks(w, walked);
      var usages: map<Path, SeenFile>, errs: seq<TraceError> := map[], [];
      ghost var cfg, done: seq<Path> := Configuration(), [];
      assert FilesOf(pending) == walked;
      NothingFinished(w, cfg, files);
      while pending != []
        invariant usages == Usages(w, cfg, done, files)
        invariant forall t :: t in pending ==> t.1 == Effective(w, t.0, cfg.base)
        invariant forall file :: file in walked <==> file in done || file in FilesOf(pending)
        invariant multiset(errs) + AllErrors(w, cfg, FilesOf(pending)) == AllErrors(w, cfg, walked)
        decreases |pending|
      {
        var i :| 0 <= i < |pending|;
        var task := pending[i];
        ghost var before := pending;
        pending := pending[..i] + pending[i + 1..];
        var hit, taskErrors := RunTask(w, task);
        errs := errs + taskErrors;
        if hit.Some? {
          usages := usages[task.0 := hit.value];
        }
        UsagesGrow(w, cfg, done, files, task.0);
        TaskLeaves(w, cfg, before, i);
        done := done + [task.0];
      }
      assert FilesOf(pending) == [];
      UsagesIgnoreOrder(w, cfg, done, walked, files);
      result := TraceResult(usages, errs);
    }

    /** One task per file, with the resolver of its directory. */
    method SpawnTasks(w: World, walked: seq<Path>) returns (tasks: seq<(Path, Resolver)>)
      ensures |tasks| == |walked|
      ensures forall i :: 0 <= i < |walked| ==> tasks[i] == (walked[i], Effective(w, walked[i], Configuration().base))
    {
      var resolver := CreateResolver(tsconfig);
      var cache := new ResolverInferenceCache();
      tasks := [];
      for i := 0 to |walked|
        invariant fresh(cache) && cache.Agrees(w, resolver) && |tasks| == i
        invariant forall j :: 0 <= j < i ==> tasks[j] == (walked[j], Effective(w, walked[j], resolver))
      {
        var inferred := cache.Infer(w, walked[i], resolver);
        tasks := tasks + [(walked[i], if inferred.Some? then inferred.value else resolver)];
      }
    }

    method RunTask(w: World, task: (Path, Resolver)) returns (hit: Option<SeenFile>, errs: seq<TraceError>)
      requires task.1 == Effective(w, task.0, Configuration().base)
      ensures hit == if ImportsSource(w, Configuration(), task.0, files)
                     then Some(ScanFile(w, Configuration(), task.0).found.value.1) else None
      ensures errs == ScanFile(w, Configuration(), task.0).errors
    {
      var found;
      found, errs := GetImportsFromFile(w, Configuration(), task.1, task.0, []);
      hit := None;
      if found.Some? {
        var any := AnySource(found.value.0);
        if any {
          hit := Some(found.value.1);
        }
      }
    }

    method AnySource(imported: seq<Path>) returns (hit: bool)
      ensures hit <==> exists q :: q in files && q.file in imported
    {
      for i := 0 to |imported|
        invariant forall q :: q in files ==> q.file !in imported[..i]
      {
        if exists q :: q in files && q.file == imported[i] {
          return true;
        }
      }
      return false;
    }
  }

  /** `file` can be read and parsed, and one of its direct imports is a source. */
  predicate ImportsSource(w: World, cfg: Config, file: Path, sources: seq<Queued>) {
    && ScanFile(w, cfg, file).found.Some?
    && exists q :: q in sources && q.file in ScanFile(w, cfg, file).found.value.0
  }

  /** The files of `walked` that import a source directly, with their syntax trees. */
  function Usages(w: World, cfg: Config, walked: seq<Path>, sources: seq<Queued>): map<Path, SeenFile> {
    map file | file in walked && ImportsSource(w, cfg, file, sources) :: ScanFile(w, cfg, file).found.value.1
  }

  function FilesOf(tasks: seq<(Path, Resolver)>): seq<Path> {
    seq(|tasks|, i requires 0 <= i < |tasks| => tasks[i].0)
  }

  /** The problems of scanning every file of `walked` once, in any order. */
  function AllErrors(w: World, cfg: Config, walked: seq<Path>): multiset<TraceError> {
    if walked == [] then multiset{}
    else multiset(ScanFile(w, cfg, walked[0]).errors) + AllErrors(w, cfg, walked[1..])
  }

  lemma {:induction false} ErrorsLeave(w: World, cfg: Config, walked: seq<Path>, i: nat)
    requires i < |walked|
    ensures AllErrors(w, cfg, walked)
         == multiset(ScanFile(w, cfg, walked[i]).errors) + AllErrors(w, cfg, walked[..i] + walked[i + 1..])
  {
    hide ScanWith;
    var others := walked[..i] + walked[i + 1..];
    if i == 0 {
      assert others == walked[1..];
    } else {
      ErrorsLeave(w, cfg, walked[1..], i - 1);
      assert others[1..] == walked[1..][..i - 1] + walked[1..][i..];
    }
  }

  /** Taking one task out removes its file, once, and its errors. */
  lemma TaskLeaves(w: World, cfg: Config, tasks: seq<(Path, Resolver)>, i: nat)
    requires i < |tasks|
    ensures var others := tasks[..i] + tasks[i + 1..];
            && AllErrors(w, cfg, FilesOf(tasks))
               == multiset(ScanFile(w, cfg, tasks[i].0).errors) + AllErrors(w, cfg, FilesOf(others))
            && forall file :: file in FilesOf(tasks) <==> file == tasks[i].0 || file in FilesOf(others)
  {
    hide ScanWith;
    var files, others := FilesOf(tasks), FilesOf(tasks[..i] + tasks[i + 1..]);
    ErrorsLeave(w, cfg, files, i);
    assert others == files[..i] + files[i + 1..];
    assert files == files[..i] + [files[i]] + files[i + 1..];
  }

  lemma NothingFinished(w: World, cfg: Config, sources: seq<Queued>)
    ensures Usages(w, cfg, [], sources) == map[] && AllErrors(w, cfg, []) == multiset{}
  {
  }

  lemma UsagesIgnoreOrder(w: World, cfg: Config, a: seq<Path>, b: seq<Path>, sources: seq<Queued>)
    requires forall file :: file in b <==> file in a
    ensures Usages(w, cfg, a, sources) == Usages(w, cfg, b, sources)
  {
  }

  lemma UsagesGrow(w: World, cfg: Config, walked: seq<Path>, sources: seq<Queued>, file: Path)
    ensures Usages(w, cfg, walked + [file], sources) ==
            if ImportsSource(w, cfg, file, sources)
            then Usages(w, cfg, walked, sources)[file := ScanFile(w, cfg, file).found.value.1]
            else Usages(w, cfg, walked, sources)
  {
  }

  // ---------- Main results ----------

  /** The files of an unbounded result are those that an import path from a root reaches, whatever the order
      of roots and imports; each has its own entry, and its problems are reported once. */
  lemma UnboundedResultIsReachability(w: World, cfg: Config, roots: seq<Path>, file: Path)
    ensures var order := Trace(GraphOf(w, cfg), roots, None);
            && (file in EntriesOf(w, cfg, order) <==> Reachable(GraphOf(w, cfg), roots, file))
            && Distinct(order)
  {
    UnboundedTraceIsReachability(GraphOf(w, cfg), roots, file);
    TraceVisitsOnce(GraphOf(w, cfg), roots, None);
  }

  function Ignored(os: seq<Outcome>): nat {
    if os == [] then 0 else Ignored(os[..|os| - 1]) + if os[|os| - 1].Ignore? then 1 else 0
  }

  /** Every import is followed, reported as a problem, or a builtin; none is lost or counted twice. */
  lemma {:induction false} ImportsAreAccountedFor(os: seq<Outcome>)
    ensures |Followed(os)| + |Failures(os)| + Ignored(os) == |os|
    ensures forall e :: e in Failures(os) <==> Fail(e) in os
  {
    if os != [] {
      ImportsAreAccountedFor(os[..|os| - 1]);
      assert os == os[..|os| - 1] + [os[|os| - 1]];
    }
  }

  lemma {:induction false} FollowedHas(os: seq<Outcome>, path: Path)
    ensures path in Followed(os) <==> Follow(path) in os
  {
    if os != [] {
      FollowedHas(os[..|os| - 1], path);
      assert os == os[..|os| - 1] + [os[|os| - 1]];
    }
  }

  lemma AllEdgesContain(w: World, cfg: Config, file: Path, e: Path)
    requires e in Edges(w, cfg, file)
    ensures e in Edges(w, cfg.(importType := All), file)
  {
    var all := cfg.(importType := All);
    var text := w.files[file];
    var p := w.parse(file, text);
    var r := Effective(w, file, cfg.base);
    var some, every := Found(p.modules, p.statements, cfg.importType), Found(p.modules, p.statements, All);
    FollowedHas(Outcomes(w, r, file, text, some), e);
    FollowedHas(Outcomes(w, r, file, text, every), e);
    var i :| 0 <= i < |some| && Outcomes(w, r, file, text, some)[i] == Follow(e);
    AllFindsMost(p.modules, p.statements, cfg.importType, some[i]);
    var j :| 0 <= j < |every| && every[j] == some[i];
    assert Outcomes(w, r, file, text, every)[j] == Follow(e);
  }

  /** Tracing only types, or only values, never reports a file that tracing all imports does not. */
  lemma NarrowTraceReportsLess(w: World, cfg: Config, roots: seq<Path>, file: Path)
    requires file in Trace(GraphOf(w, cfg), roots, None)
    ensures file in Trace(GraphOf(w, cfg.(importType := All)), roots, None)
  {
    forall f, e | e in Imports(GraphOf(w, cfg), f)
      ensures e in Imports(GraphOf(w, cfg.(importType := All)), f)
    {
      AllEdgesContain(w, cfg, f, e);
    }
    TraceIsMonotone(GraphOf(w, cfg), GraphOf(w, cfg.(importType := All)), roots, roots, file);
  }

  /** For a source file, being found by the reverse trace of another file is having it in the depth-one trace. */
  lemma ReverseTraceIsDepthOneTrace(w: World, cfg: Config, file: Path, target: Path)
    requires !IsAsset(file) && target != file
    ensures ImportsSource(w, cfg, file, [Queued(target, 0)])
       <==> target in Trace(GraphOf(w, cfg), [file], Some(1))
  {
    GraphHasEdges(w, cfg, file);
    DepthOneTrace(GraphOf(w, cfg), file, target);
    assert Queued(target, 0) in [Queued(target, 0)];
  }

  lemma DepthOneTrace(g: Graph, file: Path, target: Path)
    requires target != file
    ensures target in Trace(g, [file], Some(1)) <==> target in Imports(g, file)
  {
    if target in Imports(g, file) {
      ImportsOfOnlyRootAreReported(g, [file], 1, target);
    }
    TraceStaysInBall(g, [file], Some(1));
    if target in Trace(g, [file], Some(1)) {
      var chain :| ChainTo(g, [file], chain, target) && !Beyond(|chain| - 1, Some(1));
      assert Linked(g, chain, 1);
    }
  }
}
