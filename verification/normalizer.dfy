/** The output normaliser: the engine writes its files under the process
    working directory, naming the entrypoint's outputs after `stdin`; the
    bundler renames them into the memory store's URI space, splits the
    metafile off and normalises it. */
module Normalizer {
  import opened Results
  import opened Strings
  import opened JsValues
  import opened Errors
  import Metafile

  /** What the rewriting needs to know about one request: the working
      directory (the engine's output directory), the entrypoint's href, the
      memory store's root URI and the URI of `meta.json` in the store. */
  datatype Context = Context(cwd: string, entryHref: string, memoryRoot: string, metaHref: string)

  /** The entrypoint's href without its extension. */
  function Stem(ctx: Context): string {
    StripExtension(ctx.entryHref)
  }

  /** The memory root with a trailing slash. */
  function Root(ctx: Context): string {
    EnsureTrailingSlash(ctx.memoryRoot)
  }

  /** Where the engine writes the outputs of its stdin entry. */
  function StdinPath(ctx: Context): string {
    ctx.cwd + "/stdin"
  }

  /** The engine's output directory with its separator. */
  function OutDir(ctx: Context): string {
    ctx.cwd + "/"
  }

  // ---------------------------------------------------------------------
  // Output paths

  /** The two chained first-occurrence replaces of the source: the first
      `<cwd>/stdin` becomes the stem, then the first `<cwd>/` of the result
      becomes the memory root. */
  function NormalizePathAsWritten(ctx: Context, p: string): (r: string)
    ensures !Contains(p, OutDir(ctx)) ==> r == p
    ensures !Contains(p, StdinPath(ctx)) ==>
              forall i: nat :: FirstOccurrence(p, OutDir(ctx), i) ==>
                r == p[..i] + Root(ctx) + p[i + |OutDir(ctx)|..]
  {
    StdinPathHasOutDir(ctx, p);
    ReplaceFirst(ReplaceFirst(p, StdinPath(ctx), Stem(ctx)), OutDir(ctx), Root(ctx))
  }

  /** A path that contains `<cwd>/stdin` contains `<cwd>/`. */
  lemma StdinPathHasOutDir(ctx: Context, p: string)
    ensures Contains(p, StdinPath(ctx)) ==> Contains(p, OutDir(ctx))
  {
    if Contains(p, StdinPath(ctx)) {
      var i: nat :| i <= |p| && OccursAt(p, StdinPath(ctx), i);
      assert p[i..i + |OutDir(ctx)|] == p[i..i + |StdinPath(ctx)|][..|OutDir(ctx)|];
      assert OccursAt(p, OutDir(ctx), i);
    }
  }

  /** As written, an entrypoint output `<cwd>/stdin<x>` becomes the stem
      followed by `x`, and then has the first `<cwd>/` in that replaced. */
  lemma AsWrittenOnEntryOutput(ctx: Context, x: string)
    ensures NormalizePathAsWritten(ctx, StdinPath(ctx) + x)
            == ReplaceFirst(Stem(ctx) + x, OutDir(ctx), Root(ctx))
  {
    var p := StdinPath(ctx) + x;
    LeadingVersusFirst(p, StdinPath(ctx), Stem(ctx));
    assert p[|StdinPath(ctx)|..] == x;
  }

  /** As written, any other output `<cwd>/<rest>` becomes the memory root
      followed by `rest`, provided `<cwd>/stdin` occurs nowhere in it. */
  lemma AsWrittenOnOtherOutput(ctx: Context, rest: string)
    requires !Contains(OutDir(ctx) + rest, StdinPath(ctx))
    ensures NormalizePathAsWritten(ctx, OutDir(ctx) + rest) == Root(ctx) + rest
  {
    var p := OutDir(ctx) + rest;
    LeadingVersusFirst(p, OutDir(ctx), Root(ctx));
    assert p[|OutDir(ctx)|..] == rest;
  }

  /** As written, when the stem followed by the suffix contains `<cwd>/`
      after a prefix `a` that cannot start it, that occurrence is replaced by
      the memory root. */
  lemma AsWrittenRewritesInsertedStem(ctx: Context, x: string, a: string, c: string)
    requires Stem(ctx) + x == a + OutDir(ctx) + c
    requires forall j :: 0 <= j < |a| ==> a[j] != OutDir(ctx)[0]
    ensures NormalizePathAsWritten(ctx, StdinPath(ctx) + x) == a + Root(ctx) + c
  {
    AsWrittenOnEntryOutput(ctx, x);
    IndexOfAfter(a, OutDir(ctx), c);
    ReplaceFirstBetween(a, OutDir(ctx), c, Root(ctx));
  }

  /** The string facts the two examples below rest on. */
  lemma ExampleLiterals()
    ensures "memory:/app/index" + ".js" == "memory:/app/index.js"
    ensures "memory:/app/index" + ".js" == "memory:" + ("/app" + "/") + "index.js"
    ensures "/app" + "/stdin" + ".js" == "/app/stdin.js"
    ensures "memory:" + "memory:/" + "index.js" == "memory:memory:/index.js"
    ensures forall j :: 0 <= j < |"memory:"| ==> "memory:"[j] != '/'
    ensures ("/app" + "/")[0] == '/'
    ensures "memory:/index" + ".js" == "memory:/index.js"
    ensures ("/app" + "/") + "index.js" == "/app/index.js"
    ensures ("/app" + "/" + "index.js")[5] == 'i' && ("/app" + "/stdin")[5] == 's'
    ensures "memory:/" + "index.js" == "memory:/index.js"
    ensures EndsWith("memory:/", "/")
  {
  }

  /** The chained replace rewrites inside the stem it has just inserted: with
      the working directory `/app` and the entrypoint `memory:/app/index.js`,
      the entry output `/app/stdin.js` comes out as `memory:memory:/index.js`
      instead of `memory:/app/index.js`. */
  lemma AsWrittenRewritesStem(ctx: Context)
    requires ctx == Context("/app", "memory:/app/index.js", "memory:/", "memory:/meta.json")
    ensures NormalizePathAsWritten(ctx, "/app/stdin.js") == "memory:memory:/index.js"
    ensures NormalizePath(ctx, "/app/stdin.js") == "memory:/app/index.js"
  {
    ExampleLiterals();
    StripExtensionOf("memory:/app/index", ".js");
    assert Stem(ctx) == "memory:/app/index";
    assert Root(ctx) == "memory:/";
    AsWrittenRewritesInsertedStem(ctx, ".js", "memory:", "index.js");
    EntryOutputPaths(ctx, ".js", ".js");
  }

  /** The path rewriting as evidently intended, anchored at the start: an
      entrypoint output keeps its suffix after the stem, any other output
      keeps its path below the output directory after the memory root. */
  function NormalizePath(ctx: Context, p: string): (r: string)
    ensures StartsWith(p, StdinPath(ctx)) ==> r == Stem(ctx) + p[|StdinPath(ctx)|..]
    ensures (!StartsWith(p, StdinPath(ctx)) && StartsWith(p, OutDir(ctx)))
            ==> r == Root(ctx) + p[|OutDir(ctx)|..]
    ensures !StartsWith(p, OutDir(ctx)) ==> r == p
  {
    if StartsWith(p, StdinPath(ctx)) then ReplaceLeading(p, StdinPath(ctx), Stem(ctx))
    else
      assert StartsWith(p, StdinPath(ctx)[..|OutDir(ctx)|]) ==> StartsWith(p, OutDir(ctx));
      ReplaceLeading(p, OutDir(ctx), Root(ctx))
  }

  /** Entrypoint outputs map to the stem followed by their suffix, so two
      distinct entrypoint outputs never share a normalised path. */
  lemma EntryOutputPaths(ctx: Context, x: string, y: string)
    ensures NormalizePath(ctx, StdinPath(ctx) + x) == Stem(ctx) + x
    ensures x != y ==> NormalizePath(ctx, StdinPath(ctx) + x) != NormalizePath(ctx, StdinPath(ctx) + y)
  {
    assert (StdinPath(ctx) + x)[|StdinPath(ctx)|..] == x;
    assert (StdinPath(ctx) + y)[|StdinPath(ctx)|..] == y;
    assert StartsWith(StdinPath(ctx) + x, StdinPath(ctx));
    assert StartsWith(StdinPath(ctx) + y, StdinPath(ctx));
    if Stem(ctx) + x == Stem(ctx) + y {
      assert (Stem(ctx) + x)[|Stem(ctx)|..] == x;
      assert (Stem(ctx) + y)[|Stem(ctx)|..] == y;
    }
  }

  /** The renaming does not keep other outputs apart from the entrypoint's:
      with the entrypoint `memory:/index.js`, an engine file `/app/index.js`
      and the stdin output `/app/stdin.js` get the same path. */
  lemma OtherOutputMayCollide(ctx: Context)
    requires ctx == Context("/app", "memory:/index.js", "memory:/", "memory:/meta.json")
    ensures NormalizePath(ctx, "/app/index.js") == NormalizePath(ctx, "/app/stdin.js") == "memory:/index.js"
  {
    ExampleLiterals();
    StripExtensionOf("memory:/index", ".js");
    assert Stem(ctx) == "memory:/index";
    assert Root(ctx) == "memory:/";
    EntryOutputPaths(ctx, ".js", ".js");
    var other := OutDir(ctx) + "index.js";
    assert !StartsWith(other, StdinPath(ctx)) by {
      assert other[5] != StdinPath(ctx)[5];
    }
    assert StartsWith(other, OutDir(ctx)) && other[|OutDir(ctx)|..] == "index.js";
  }

  /** Where the stem and suffix do not contain `<cwd>/`, the intended
      rewriting agrees with the source on entrypoint outputs. */
  lemma AgreesOnEntryOutput(ctx: Context, x: string)
    requires !Contains(Stem(ctx) + x, OutDir(ctx))
    ensures NormalizePath(ctx, StdinPath(ctx) + x) == NormalizePathAsWritten(ctx, StdinPath(ctx) + x)
  {
    EntryOutputPaths(ctx, x, x);
    AsWrittenOnEntryOutput(ctx, x);
  }

  /** Where `<cwd>/stdin` does not occur, the intended rewriting agrees with
      the source on every other output. */
  lemma AgreesOnOtherOutput(ctx: Context, rest: string)
    requires !Contains(OutDir(ctx) + rest, StdinPath(ctx))
    ensures NormalizePath(ctx, OutDir(ctx) + rest) == NormalizePathAsWritten(ctx, OutDir(ctx) + rest)
  {
    var p := OutDir(ctx) + rest;
    AsWrittenOnOtherOutput(ctx, rest);
    assert p[|OutDir(ctx)|..] == rest;
    assert StartsWith(p, OutDir(ctx));
  }

  // ---------------------------------------------------------------------
  // Output files and the metafile

  /** A file the engine emitted, with its absolute path. */
  datatype EngineFile = EngineFile(path: string, text: string)

  /** A file of the bundle, with its path in the memory store's URI space. */
  datatype OutputFile = OutputFile(path: string, content: string)

  /** The output files and the normalised metafile (`None`: `undefined`). */
  datatype Normalized = Normalized(outputFiles: seq<OutputFile>, meta: Option<Value>)

  /** `JSON.parse`, `None` when it throws. */
  type Parser = string -> Option<Value>

  /** `f` is the metafile: its normalised path is the URI of `meta.json`. */
  predicate IsMetaFile(ctx: Context, f: EngineFile) {
    NormalizePath(ctx, f.path) == ctx.metaHref
  }

  /** An engine file under its normalised path, its text unchanged. */
  function OutputOf(ctx: Context, f: EngineFile): OutputFile {
    OutputFile(NormalizePath(ctx, f.path), f.text)
  }

  /** Every engine file renamed, in engine order. */
  function Renamed(ctx: Context, files: seq<EngineFile>): (r: seq<OutputFile>)
    ensures |r| == |files|
    ensures forall i :: 0 <= i < |files| ==> r[i] == OutputOf(ctx, files[i])
  {
    seq(|files|, i requires 0 <= i < |files| => OutputOf(ctx, files[i]))
  }

  /** Parsing and normalising the text of the metafile. */
  function NormalizeMetaText(ctx: Context, parse: Parser, text: string): (r: Result<Value, BundleError>)
    ensures parse(text).None? ==> r == Err(MetafileUnparsable)
    ensures r.Err? ==> r.error == MetafileUnparsable || r.error == MetafileMalformed
  {
    match parse(text)
    case None => Err(MetafileUnparsable)
    case Some(meta) =>
      match Metafile.NormalizeMeta(Stem(ctx), meta)
      case None => Err(MetafileMalformed)
      case Some(m) => Ok(m)
  }

  /** The metafile text normalises exactly when it parses to a metafile
      whose normalisation does not throw. */
  lemma NormalizeMetaTextOk(ctx: Context, parse: Parser, text: string)
    ensures NormalizeMetaText(ctx, parse, text).Ok?
            <==> parse(text).Some? && Metafile.WellFormedMeta(parse(text).value)
    ensures NormalizeMetaText(ctx, parse, text).Ok? ==>
              Metafile.NormalizeMeta(Stem(ctx), parse(text).value) == Some(NormalizeMetaText(ctx, parse, text).value)
  {
  }

  /** `f` is the metafile and its text cannot be normalised. */
  predicate MetaFails(ctx: Context, parse: Parser, f: EngineFile) {
    IsMetaFile(ctx, f) && NormalizeMetaText(ctx, parse, f.text).Err?
  }

  // ---------------------------------------------------------------------
  // The loop over the renamed files

  /** The metafile step of the loop, from the text to the normalised
      metafile. */
  type MetaReader = string -> Result<Value, BundleError>

  function ReadMeta(ctx: Context, parse: Parser): MetaReader {
    (text: string) => NormalizeMetaText(ctx, parse, text)
  }

  /** The renamed files other than the one at `metaHref`, in order. */
  function Kept(metaHref: string, fs: seq<OutputFile>): (r: seq<OutputFile>)
    ensures |r| <= |fs|
    ensures forall o :: o in r ==> o in fs && o.path != metaHref
    ensures forall i :: 0 <= i < |fs| && fs[i].path != metaHref ==> fs[i] in r
    ensures (forall i :: 0 <= i < |fs| ==> fs[i].path != metaHref) ==> r == fs
    decreases |fs|
  {
    if |fs| == 0 then []
    else
      var init := fs[..|fs| - 1];
      var last := fs[|fs| - 1];
      assert fs == init + [last];
      Kept(metaHref, init) + (if last.path == metaHref then [] else [last])
  }

  /** Filtering distributes over concatenation: the kept files of `a + b`
      are those of `a` followed by those of `b`, so the order of the build's
      outputs and any repeated file are preserved. */
  lemma {:induction false} KeptAppend(metaHref: string, a: seq<OutputFile>, b: seq<OutputFile>)
    ensures Kept(metaHref, a + b) == Kept(metaHref, a) + Kept(metaHref, b)
    decreases |b|
  {
    if |b| == 0 {
      assert a + b == a;
    } else {
      var init, last := b[..|b| - 1], b[|b| - 1];
      assert b == init + [last];
      assert a + b == (a + init) + [last];
      KeptSnoc(metaHref, a + init, last);
      KeptSnoc(metaHref, init, last);
      KeptAppend(metaHref, a, init);
      Assoc(Kept(metaHref, a), Kept(metaHref, init), if last.path == metaHref then [] else [last]);
    }
  }

  /** One file appended at the end is kept after the others exactly when
      it is not at `metaHref`. */
  lemma KeptSnoc(metaHref: string, s: seq<OutputFile>, f: OutputFile)
    ensures Kept(metaHref, s + [f]) == Kept(metaHref, s) + (if f.path == metaHref then [] else [f])
  {
    var t := s + [f];
    assert t[..|t| - 1] == s && t[|t| - 1] == f;
  }

  /** A single file is dropped exactly when it is at `metaHref`. */
  lemma KeptSingle(metaHref: string, f: OutputFile)
    ensures Kept(metaHref, [f]) == if f.path == metaHref then [] else [f]
  {
    assert [f][..0] == [];
  }

  /** The file at index `i` is at `metaHref` and cannot be read. */
  predicate BadMetaAt(metaHref: string, read: MetaReader, fs: seq<OutputFile>, i: int)
    requires 0 <= i < |fs|
  {
    fs[i].path == metaHref && read(fs[i].content).Err?
  }

  /** The outcome of the loop after it has visited `fs`: the files kept so
      far and the last metafile, or the error of the first metafile that
      could not be read. */
  function Visit(metaHref: string, read: MetaReader, fs: seq<OutputFile>): (r: Result<Normalized, BundleError>)
    ensures r.Ok? ==> |r.value.outputFiles| <= |fs|
    ensures r.Ok? ==> forall o :: o in r.value.outputFiles ==> o in fs && o.path != metaHref
    ensures r.Ok? && r.value.meta.Some? ==>
              exists i :: 0 <= i < |fs| && fs[i].path == metaHref && read(fs[i].content) == Ok(r.value.meta.value)
    decreases |fs|
  {
    if |fs| == 0 then Ok(Normalized([], None))
    else
      var prev :- Visit(metaHref, read, fs[..|fs| - 1]);
      var f := fs[|fs| - 1];
      if f.path == metaHref then
        var m :- read(f.content);
        Ok(Normalized(prev.outputFiles, Some(m)))
      else Ok(Normalized(prev.outputFiles + [f], prev.meta))
  }

  /** The loop fails exactly when some metafile cannot be read, and then
      with the error of the first such metafile. */
  lemma {:induction false} VisitFails(metaHref: string, read: MetaReader, fs: seq<OutputFile>)
    ensures Visit(metaHref, read, fs).Err? <==> exists i :: 0 <= i < |fs| && BadMetaAt(metaHref, read, fs, i)
    ensures Visit(metaHref, read, fs).Err? ==>
              exists i :: && 0 <= i < |fs| && BadMetaAt(metaHref, read, fs, i)
                          && Visit(metaHref, read, fs).error == read(fs[i].content).error
                          && forall j :: 0 <= j < i ==> !BadMetaAt(metaHref, read, fs, j)
    decreases |fs|
  {
    if |fs| > 0 {
      var n := |fs| - 1;
      var init := fs[..n];
      VisitFails(metaHref, read, init);
      assert forall j :: 0 <= j < n ==> BadMetaAt(metaHref, read, init, j) == BadMetaAt(metaHref, read, fs, j);
      if Visit(metaHref, read, init).Ok? {
        assert forall j :: 0 <= j < n ==> !BadMetaAt(metaHref, read, fs, j);
        if Visit(metaHref, read, fs).Err? {
          assert BadMetaAt(metaHref, read, fs, n);
        }
      }
    }
  }

  /** A successful loop keeps every file but the metafile, in order. */
  lemma {:induction false} VisitKeeps(metaHref: string, read: MetaReader, fs: seq<OutputFile>)
    requires Visit(metaHref, read, fs).Ok?
    ensures Visit(metaHref, read, fs).value.outputFiles == Kept(metaHref, fs)
    decreases |fs|
  {
    if |fs| > 0 {
      VisitKeeps(metaHref, read, fs[..|fs| - 1]);
    }
  }

  /** After a successful loop `meta` is absent exactly when no file is the
      metafile. */
  lemma {:induction false} VisitMetaAbsent(metaHref: string, read: MetaReader, fs: seq<OutputFile>)
    requires Visit(metaHref, read, fs).Ok?
    ensures Visit(metaHref, read, fs).value.meta.None? <==> forall i :: 0 <= i < |fs| ==> fs[i].path != metaHref
    decreases |fs|
  {
    if |fs| > 0 {
      var n := |fs| - 1;
      var init := fs[..n];
      VisitMetaAbsent(metaHref, read, init);
      assert forall j :: 0 <= j < n ==> init[j] == fs[j];
    }
  }

  /** No file after index `i` is at `metaHref`. */
  predicate NoMetaAfter(metaHref: string, fs: seq<OutputFile>, i: nat) {
    forall j :: i < j < |fs| ==> fs[j].path != metaHref
  }

  lemma NoMetaAfterExtend(metaHref: string, fs: seq<OutputFile>, i: nat)
    requires i < |fs| - 1
    requires NoMetaAfter(metaHref, fs[..|fs| - 1], i)
    requires fs[|fs| - 1].path != metaHref
    ensures NoMetaAfter(metaHref, fs, i)
  {
    var init := fs[..|fs| - 1];
    forall j | i < j < |fs|
      ensures fs[j].path != metaHref
    {
      if j < |fs| - 1 {
        assert init[j] == fs[j];
      }
    }
  }

  /** A file other than the metafile leaves a successful loop's `meta` as
      it was. */
  lemma VisitSkips(metaHref: string, read: MetaReader, fs: seq<OutputFile>)
    requires |fs| > 0 && fs[|fs| - 1].path != metaHref
    requires Visit(metaHref, read, fs).Ok?
    ensures Visit(metaHref, read, fs[..|fs| - 1]).Ok?
    ensures Visit(metaHref, read, fs[..|fs| - 1]).value.meta == Visit(metaHref, read, fs).value.meta
  {
  }

  /** After a successful loop a present `meta` is what the last metafile,
      at index `i`, reads as. */
  lemma {:induction false} VisitMetaLast(metaHref: string, read: MetaReader, fs: seq<OutputFile>) returns (i: nat)
    requires Visit(metaHref, read, fs).Ok?
    requires Visit(metaHref, read, fs).value.meta.Some?
    ensures i < |fs| && fs[i].path == metaHref
    ensures read(fs[i].content) == Ok(Visit(metaHref, read, fs).value.meta.value)
    ensures NoMetaAfter(metaHref, fs, i)
    decreases |fs|
  {
    var n := |fs| - 1;
    if fs[n].path == metaHref {
      i := n;
    } else {
      var init := fs[..n];
      VisitSkips(metaHref, read, fs);
      i := VisitMetaLast(metaHref, read, init);
      assert init[i] == fs[i];
      NoMetaAfterExtend(metaHref, fs, i);
    }
  }

  /** Once the loop has failed, visiting more files does not change the
      failure. */
  lemma {:induction false} VisitStaysFailed(metaHref: string, read: MetaReader, fs: seq<OutputFile>, n: nat)
    requires n <= |fs|
    requires Visit(metaHref, read, fs[..n]).Err?
    ensures Visit(metaHref, read, fs) == Visit(metaHref, read, fs[..n])
    decreases |fs| - n
  {
    if n < |fs| {
      assert fs[..n + 1][..n] == fs[..n];
      VisitStaysFailed(metaHref, read, fs, n + 1);
    } else {
      assert fs[..n] == fs;
    }
  }

  /** One more file: the loop's state after visiting `fs[..i + 1]`, given
      the state after `fs[..i]`. */
  lemma VisitStep(metaHref: string, read: MetaReader, fs: seq<OutputFile>, i: nat,
                  out: seq<OutputFile>, meta: Option<Value>)
    requires i < |fs|
    requires Visit(metaHref, read, fs[..i]) == Ok(Normalized(out, meta))
    ensures fs[i].path != metaHref ==>
              Visit(metaHref, read, fs[..i + 1]) == Ok(Normalized(out + [fs[i]], meta))
    ensures fs[i].path == metaHref && read(fs[i].content).Ok? ==>
              Visit(metaHref, read, fs[..i + 1]) == Ok(Normalized(out, Some(read(fs[i].content).value)))
    ensures fs[i].path == metaHref && read(fs[i].content).Err? ==>
              Visit(metaHref, read, fs[..i + 1]) == Err(read(fs[i].content).error)
  {
    assert fs[..i + 1][..i] == fs[..i];
  }

  // ---------------------------------------------------------------------
  // The loop over the engine's files

  /** The loop of the source: every file but the metafile is kept under its
      normalised path; the last metafile gives `meta`; the first metafile
      that cannot be normalised fails the whole bundle. */
  method NormalizeBuild(ctx: Context, parse: Parser, files: seq<EngineFile>)
    returns (r: Result<Normalized, BundleError>)
    ensures r == Visit(ctx.metaHref, ReadMeta(ctx, parse), Renamed(ctx, files))
    ensures r.Ok? ==> r.value.outputFiles == Kept(ctx.metaHref, Renamed(ctx, files))
    ensures r.Err? ==> r.error == MetafileUnparsable || r.error == MetafileMalformed
  {
    ghost var fs := Renamed(ctx, files);
    ghost var read := ReadMeta(ctx, parse);
    var out: seq<OutputFile> := [];
    var meta: Option<Value> := None;
    var i := 0;
    while i < |files|
      invariant 0 <= i <= |files|
      invariant Visit(ctx.metaHref, read, fs[..i]) == Ok(Normalized(out, meta))
    {
      var step := VisitFile(ctx, parse, files, i, out, meta);
      if step.Err? {
        VisitStaysFailed(ctx.metaHref, read, fs, i + 1);
        NormalizeOutcome(ctx, parse, files);
        return step;
      }
      out, meta := step.value.outputFiles, step.value.meta;
      i := i + 1;
    }
    assert fs[..i] == fs;
    NormalizeOutcome(ctx, parse, files);
    return Ok(Normalized(out, meta));
  }

  /** One iteration of the loop: the engine file at `i` is renamed, then
      kept, or normalised as the metafile. */
  method VisitFile(ctx: Context, parse: Parser, files: seq<EngineFile>, i: nat,
                   out: seq<OutputFile>, meta: Option<Value>)
    returns (s: Result<Normalized, BundleError>)
    requires i < |files|
    requires Visit(ctx.metaHref, ReadMeta(ctx, parse), Renamed(ctx, files)[..i]) == Ok(Normalized(out, meta))
    ensures s == Visit(ctx.metaHref, ReadMeta(ctx, parse), Renamed(ctx, files)[..i + 1])
  {
    ghost var fs := Renamed(ctx, files);
    ghost var read := ReadMeta(ctx, parse);
    var f := files[i];
    var path := NormalizePath(ctx, f.path);
    assert fs[i] == OutputFile(path, f.text);
    VisitStep(ctx.metaHref, read, fs, i, out, meta);
    if path == ctx.metaHref {
      var m := NormalizeMetaText(ctx, parse, f.text);
      assert read(f.text) == m;
      if m.Err? {
        s := Err(m.error);
      } else {
        s := Ok(Normalized(out, Some(m.value)));
      }
    } else {
      s := Ok(Normalized(out + [OutputFile(path, f.text)], meta));
    }
  }

  /** What the loop yields, in terms of the engine's files: it fails
      exactly when some metafile cannot be normalised, and only with a
      metafile error; otherwise it keeps the renamed files other than the
      metafile, and `meta` is absent exactly when no file is the metafile. */
  lemma NormalizeOutcome(ctx: Context, parse: Parser, files: seq<EngineFile>)
    ensures var r := Visit(ctx.metaHref, ReadMeta(ctx, parse), Renamed(ctx, files));
            && (r.Ok? <==> forall i :: 0 <= i < |files| ==> !MetaFails(ctx, parse, files[i]))
            && (r.Err? ==> r.error == MetafileUnparsable || r.error == MetafileMalformed)
            && (r.Ok? ==> r.value.outputFiles == Kept(ctx.metaHref, Renamed(ctx, files)))
            && (r.Ok? ==> (r.value.meta.None? <==> forall i :: 0 <= i < |files| ==> !IsMetaFile(ctx, files[i])))
  {
    var fs := Renamed(ctx, files);
    var read := ReadMeta(ctx, parse);
    var r := Visit(ctx.metaHref, read, fs);
    VisitFails(ctx.metaHref, read, fs);
    assert forall i :: 0 <= i < |files| ==>
             (BadMetaAt(ctx.metaHref, read, fs, i) <==> MetaFails(ctx, parse, files[i]));
    if r.Ok? {
      VisitKeeps(ctx.metaHref, read, fs);
      VisitMetaAbsent(ctx.metaHref, read, fs);
    } else {
      var i :| && 0 <= i < |fs| && BadMetaAt(ctx.metaHref, read, fs, i)
               && r.error == read(fs[i].content).error;
    }
  }

  /** A present `meta` is the normalisation of the last engine file that is
      the metafile, at index `i`. */
  lemma MetaFromLastMetafile(ctx: Context, parse: Parser, files: seq<EngineFile>) returns (i: nat)
    requires Visit(ctx.metaHref, ReadMeta(ctx, parse), Renamed(ctx, files)).Ok?
    requires Visit(ctx.metaHref, ReadMeta(ctx, parse), Renamed(ctx, files)).value.meta.Some?
    ensures i < |files| && IsMetaFile(ctx, files[i])
    ensures NormalizeMetaText(ctx, parse, files[i].text)
            == Ok(Visit(ctx.metaHref, ReadMeta(ctx, parse), Renamed(ctx, files)).value.meta.value)
    ensures forall j :: i < j < |files| ==> !IsMetaFile(ctx, files[j])
  {
    var fs := Renamed(ctx, files);
    i := VisitMetaLast(ctx.metaHref, ReadMeta(ctx, parse), fs);
    forall j | i < j < |files|
      ensures !IsMetaFile(ctx, files[j])
    {
      assert fs[j].path != ctx.metaHref;
    }
  }
}
