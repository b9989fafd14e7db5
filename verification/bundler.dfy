/** One bundle request from start to finish: the entrypoint is resolved and
    read, the engine builds it with the bundler's hooks and `define` map, and
    the engine's files are renamed into the memory store with the metafile
    split off and normalised. The engine, the resolver, the reader and
    `JSON.parse` are parameters. */
module Bundler {
  import opened Results
  import opened Resolution
  import opened Errors
  import opened Normalizer
  import JsValues
  import Defines
  import JsonText

  /** A request: one entrypoint path in the memory store and the optional
      environment variables. */
  datatype Request = Request(entrypoint: string, env: Option<map<string, string>>)

  /** What the bundler reads from its surroundings: the process working
      directory, the memory store's root URI and its path-to-URI mapping. */
  datatype Host = Host(cwd: string, memoryRoot: string, uriForPath: string -> Uri)

  const MetafileName := "meta.json"

  /** The entrypoint as the engine's stdin: its contents, and its href as
      both the source file name and the directory imports resolve from. */
  datatype Stdin = Stdin(contents: string, sourcefile: string, resolveDir: string)

  /** The options of the build that vary with the request; the fixed ones
      (bundling, ESM output, minification, external source maps, code
      splitting, no writing to disk) are implicit. */
  datatype BuildOptions = BuildOptions(define: map<string, string>, metafile: string,
                                       outdir: string, stdin: Stdin)

  /** The hooks the engine calls, as functions of the hook arguments. */
  type ResolveHook = (string, string) -> Result<ResolveOutcome, BundleError>
  type LoadHook = string -> Result<LoadOutcome, BundleError>

  /** What a successful build hands back: its warnings and its files. */
  datatype EngineOutput = EngineOutput(warnings: seq<string>, files: seq<EngineFile>)

  /** The engine: a successful output, or the message of its failure. */
  type Engine = (BuildOptions, ResolveHook, LoadHook) -> Result<EngineOutput, string>

  /** The bundle returned to the caller. */
  datatype Bundle = Bundle(warnings: seq<string>, outputFiles: seq<OutputFile>, meta: Option<JsValues.Value>)

  /** The build options: one `define` entry per environment variable,
      holding the JSON text of its value, the metafile name, the working
      directory as the output directory, and the entrypoint as stdin. */
  function OptionsFor(req: Request, host: Host, entry: Entrypoint): (r: BuildOptions)
    ensures |r.define| == (if req.env.Some? then |req.env.value| else 0)
    ensures req.env.Some? ==> forall n :: n in req.env.value ==>
              && Defines.EnvPrefix + n in r.define
              && r.define[Defines.EnvPrefix + n] == JsonText.Quote(req.env.value[n])
              && JsonText.Unquote(r.define[Defines.EnvPrefix + n]) == Some(req.env.value[n])
    ensures r.metafile == MetafileName && r.outdir == host.cwd
    ensures r.stdin.contents == entry.content
    ensures r.stdin.sourcefile == entry.href && r.stdin.resolveDir == entry.href
  {
    Defines.DefineCount(req.env);
    BuildOptions(Defines.Define(req.env), MetafileName, host.cwd,
                 Stdin(entry.content, entry.href, entry.href))
  }

  function ResolveHookFor(entryHref: string, resolve: Resolver): ResolveHook {
    (path: string, importer: string) => OnResolve(path, importer, entryHref, resolve)
  }

  function LoadHookFor(read: Reader): LoadHook {
    (path: string) => OnLoad(path, read)
  }

  function ContextFor(host: Host, entry: Entrypoint): Context {
    Context(host.cwd, entry.href, host.memoryRoot, host.uriForPath(MetafileName).href)
  }

  /** The outcome of a request. An entrypoint failure is reported before
      the engine runs; an engine failure is reported as such; otherwise the
      bundle carries the engine's warnings and every file but the metafile,
      and it fails only when a metafile cannot be normalised. */
  function Build(req: Request, host: Host, resolve: Resolver, read: Reader,
                 engine: Engine, parse: Parser): (r: Result<Bundle, BundleError>)
    ensures var e := ResolveEntrypoint(req.entrypoint, host.uriForPath, resolve, read);
            e.Err? ==> r == Err(e.error)
    ensures var e := ResolveEntrypoint(req.entrypoint, host.uriForPath, resolve, read);
            e.Ok? ==>
              var b := engine(OptionsFor(req, host, e.value), ResolveHookFor(e.value.href, resolve),
                              LoadHookFor(read));
              && (b.Err? ==> r == Err(EngineFailure(b.error)))
              && (b.Ok? ==>
                    var ctx := ContextFor(host, e.value);
                    var files := b.value.files;
                    && (r.Ok? <==> forall i :: 0 <= i < |files| ==> !MetaFails(ctx, parse, files[i]))
                    && (r.Err? ==> r.error == MetafileUnparsable || r.error == MetafileMalformed)
                    && (r.Ok? ==> && r.value.warnings == b.value.warnings
                                  && r.value.outputFiles == Kept(ctx.metaHref, Renamed(ctx, files))
                                  && (r.value.meta.None? <==>
                                        forall i :: 0 <= i < |files| ==> !IsMetaFile(ctx, files[i]))))
  {
    var entry :- ResolveEntrypoint(req.entrypoint, host.uriForPath, resolve, read);
    var opts := OptionsFor(req, host, entry);
    match engine(opts, ResolveHookFor(entry.href, resolve), LoadHookFor(read))
    case Err(m) => Err(EngineFailure(m))
    case Ok(out) =>
      var ctx := ContextFor(host, entry);
      NormalizeOutcome(ctx, parse, out.files);
      match Visit(ctx.metaHref, ReadMeta(ctx, parse), Renamed(ctx, out.files))
      case Err(err) => Err(err)
      case Ok(n) => Ok(Bundle(out.warnings, n.outputFiles, n.meta))
  }

  /** A request whose entrypoint fails never reaches the engine: its
      outcome is the same whatever engine and parser are used. */
  lemma EntrypointFailureSkipsEngine(req: Request, host: Host, resolve: Resolver, read: Reader,
                                     engine1: Engine, engine2: Engine, parse1: Parser, parse2: Parser)
    requires ResolveEntrypoint(req.entrypoint, host.uriForPath, resolve, read).Err?
    ensures Build(req, host, resolve, read, engine1, parse1)
            == Build(req, host, resolve, read, engine2, parse2)
  {
  }

  /** A bundle's `meta`, when present, is the normalisation of the last file
      the engine emitted at the metafile's URI. */
  lemma BundleMetaFromLastMetafile(req: Request, host: Host, resolve: Resolver, read: Reader,
                                   engine: Engine, parse: Parser)
      returns (entry: Entrypoint, out: EngineOutput, i: nat)
    requires Build(req, host, resolve, read, engine, parse).Ok?
    requires Build(req, host, resolve, read, engine, parse).value.meta.Some?
    ensures ResolveEntrypoint(req.entrypoint, host.uriForPath, resolve, read) == Ok(entry)
    ensures engine(OptionsFor(req, host, entry), ResolveHookFor(entry.href, resolve), LoadHookFor(read)) == Ok(out)
    ensures i < |out.files| && IsMetaFile(ContextFor(host, entry), out.files[i])
    ensures NormalizeMetaText(ContextFor(host, entry), parse, out.files[i].text)
            == Ok(Build(req, host, resolve, read, engine, parse).value.meta.value)
    ensures forall j :: i < j < |out.files| ==> !IsMetaFile(ContextFor(host, entry), out.files[j])
  {
    entry := ResolveEntrypoint(req.entrypoint, host.uriForPath, resolve, read).value;
    out := engine(OptionsFor(req, host, entry), ResolveHookFor(entry.href, resolve), LoadHookFor(read)).value;
    i := MetaFromLastMetafile(ContextFor(host, entry), parse, out.files);
  }

  /** The engine sees the request: the `define` map is built from the
      request's environment, the stdin is the entrypoint as read, and the
      hooks resolve from the entrypoint when the importer is `<stdin>`. */
  lemma EngineSeesRequest(req: Request, host: Host, entry: Entrypoint, resolve: Resolver,
                          read: Reader, path: string)
    ensures |OptionsFor(req, host, entry).define| == (if req.env.Some? then |req.env.value| else 0)
    ensures OptionsFor(req, host, entry).stdin.sourcefile == entry.href
    ensures ResolveHookFor(entry.href, resolve)(path, StdinImporter)
            == OnResolve(path, entry.href, entry.href, resolve)
    ensures LoadHookFor(read)(path).Ok? <==> read(Uri(path)).Ok?
  {
    if req.env.Some? {
      Defines.DefineSize(req.env.value);
    }
    StdinImporterIsEntrypoint(path, entry.href, resolve);
  }
}
