/** The decisions the bundler makes around module resolution: the entrypoint
    check before the build and the `onResolve` and `onLoad` hooks it hands to
    the engine. The resolver itself (extension probing, package manifests,
    the memory and CDN strategies) is a parameter. */
module Resolution {
  import opened Results
  import opened Strings
  import opened Errors

  /** A URI, by its string form: `toString` reads `href`, and `Uri.parse`
      of a string is the URI with that string form. */
  datatype Uri = Uri(href: string)

  /** What the resolver is asked to resolve: a URI for the entrypoint, a
      specifier as written in an import statement otherwise. */
  datatype Specifier = Location(uri: Uri) | Path(path: string)

  /** `found` false: no candidate; `found` with no `uri`: a candidate that a
      "browser" field override excludes. */
  datatype ResolveResult = ResolveResult(found: bool, uri: Option<Uri>)

  /** The resolver, given a specifier and the URI of the importing module. */
  type Resolver = (Specifier, Option<Uri>) -> ResolveResult

  /** `readFileContent`, with the content as text, or the message of the
      error it rejects with. */
  type Reader = Uri -> Result<string, string>

  /** The entrypoint as handed to the engine through its stdin option. */
  datatype Entrypoint = Entrypoint(href: string, content: string)

  /** What `onResolve` returns to the engine. */
  datatype ResolveOutcome = External | Resolved(namespace: string, path: string)

  /** What `onLoad` returns to the engine. */
  datatype LoadOutcome = Loaded(contents: string, loader: string)

  const Namespace := "velcro"
  const StdinImporter := "<stdin>"
  const DataPrefix := "data:"

  /** Resolves the entrypoint path through its memory URI and reads it. Not
      found is checked before exclusion, and only a present URI is read. */
  function ResolveEntrypoint(entrypoint: string, uriForPath: string -> Uri,
                             resolve: Resolver, read: Reader): (r: Result<Entrypoint, BundleError>)
    ensures var rr := resolve(Location(uriForPath(entrypoint)), None);
            && (!rr.found ==> r == Err(EntrypointNotFound(entrypoint)))
            && (rr.found && rr.uri.None? ==> r == Err(EntrypointExcluded(entrypoint)))
            && ((rr.found && rr.uri.Some? && read(rr.uri.value).Err?)
                ==> r == Err(ReadFailed(rr.uri.value.href, read(rr.uri.value).error)))
            && (r.Ok? <==> rr.found && rr.uri.Some? && read(rr.uri.value).Ok?)
            && (r.Ok? ==> r.value.href == rr.uri.value.href
                          && Ok(r.value.content) == read(rr.uri.value))
  {
    var rr := resolve(Location(uriForPath(entrypoint)), None);
    if !rr.found then Err(EntrypointNotFound(entrypoint))
    else if rr.uri.None? then Err(EntrypointExcluded(entrypoint))
    else match read(rr.uri.value)
      case Err(detail) => Err(ReadFailed(rr.uri.value.href, detail))
      case Ok(content) => Ok(Entrypoint(rr.uri.value.href, content))
  }

  /** When the entrypoint is not found, neither the URI the resolver reports
      nor the reader affects the outcome. */
  lemma NotFoundIgnoresUriAndReader(entrypoint: string, uriForPath: string -> Uri,
                                    resolve1: Resolver, resolve2: Resolver,
                                    read1: Reader, read2: Reader)
    requires !resolve1(Location(uriForPath(entrypoint)), None).found
    requires !resolve2(Location(uriForPath(entrypoint)), None).found
    ensures ResolveEntrypoint(entrypoint, uriForPath, resolve1, read1)
            == ResolveEntrypoint(entrypoint, uriForPath, resolve2, read2)
            == Err(EntrypointNotFound(entrypoint))
  {
  }

  /** The importer the resolver sees: the synthetic `<stdin>` importer of the
      entrypoint's own imports stands for the entrypoint's URI. */
  function EffectiveImporter(importer: string, entryHref: string): (r: string)
    ensures importer != StdinImporter ==> r == importer
    ensures importer == StdinImporter ==> r == entryHref
  {
    if importer == StdinImporter then entryHref else importer
  }

  /** The `onResolve` hook. */
  function OnResolve(path: string, importer: string, entryHref: string,
                     resolve: Resolver): (r: Result<ResolveOutcome, BundleError>)
    ensures StartsWith(path, DataPrefix) ==> r == Ok(External)
    ensures !StartsWith(path, DataPrefix) ==>
              var imp := EffectiveImporter(importer, entryHref);
              var rr := resolve(Path(path), Some(Uri(imp)));
              && (r.Ok? <==> rr.found && rr.uri.Some?)
              && (r.Ok? ==> r.value == Resolved(Namespace, rr.uri.value.href))
              && (r.Err? ==> r.error == Unresolvable(path, imp))
  {
    if StartsWith(path, DataPrefix) then Ok(External)
    else
      var imp := EffectiveImporter(importer, entryHref);
      var rr := resolve(Path(path), Some(Uri(imp)));
      if !rr.found || rr.uri.None? then Err(Unresolvable(path, imp))
      else Ok(Resolved(Namespace, rr.uri.value.href))
  }

  /** A `data:` specifier is external whatever the resolver would say. */
  lemma DataUrlBypassesResolver(path: string, importer: string, entryHref: string,
                                resolve1: Resolver, resolve2: Resolver)
    requires StartsWith(path, DataPrefix)
    ensures OnResolve(path, importer, entryHref, resolve1)
            == OnResolve(path, importer, entryHref, resolve2) == Ok(External)
  {
  }

  /** Resolving from `<stdin>` is resolving from the entrypoint's URI. */
  lemma StdinImporterIsEntrypoint(path: string, entryHref: string, resolve: Resolver)
    ensures OnResolve(path, StdinImporter, entryHref, resolve)
            == OnResolve(path, entryHref, entryHref, resolve)
  {
  }

  /** A failed resolution names the specifier and the importer it was
      resolved from. */
  lemma UnresolvableMessage(path: string, importer: string, entryHref: string, resolve: Resolver)
    requires OnResolve(path, importer, entryHref, resolve).Err?
    ensures Message(OnResolve(path, importer, entryHref, resolve).error)
            == "Unable to resolve " + path + " from " + EffectiveImporter(importer, entryHref)
  {
  }

  /** The `onLoad` hook for modules in the bundler's namespace. */
  function OnLoad(path: string, read: Reader): (r: Result<LoadOutcome, BundleError>)
    ensures r.Ok? <==> read(Uri(path)).Ok?
    ensures r.Ok? ==> Ok(r.value.contents) == read(Uri(path)) && r.value.loader == "default"
    ensures r.Err? ==> r.error == ReadFailed(path, read(Uri(path)).error)
  {
    match read(Uri(path))
    case Err(detail) => Err(ReadFailed(path, detail))
    case Ok(c) => Ok(Loaded(c, "default"))
  }
}
