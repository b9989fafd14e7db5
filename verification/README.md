# esbuild-velcro bundler core, modelled in Dafny

esbuild-velcro is a bundling service. It takes an in-memory file set and one
entrypoint path, and runs the esbuild engine over them with a plugin. The
plugin resolves every import through the Velcro resolver (an in-memory store
backed by a CDN). The service returns the bundle's files and a normalised
metafile. This project models the request pipeline of `src/bundler.ts`
(lines 71-227) and the payload shape transform of `src/validation/shape.ts`.

The pipeline has five parts:

1. **Entrypoint check** (`Resolution.ResolveEntrypoint`). The entrypoint is
   resolved through its memory-store URI, then read.
   - "not found" is reported before "excluded by browser field overrides".
   - Only a resolved URI is read.
   - The error messages carry the entrypoint as a JSON string literal.
2. **Engine options** (`Defines.Define`, `Bundler.OptionsFor`).
   - Each environment variable `NAME` becomes a `process.env.NAME`
     substitution holding the JSON text of its value.
   - The entrypoint becomes the engine's stdin.
3. **Plugin hooks** (`Resolution.OnResolve`, `Resolution.OnLoad`).
   - `data:` specifiers are left external.
   - The synthetic importer `<stdin>` stands for the entrypoint's href.
   - A specifier that is not found, or is excluded, fails the build.
   - Loaded modules use the `default` loader.
4. **Output normalisation** (`Normalizer`).
   - Each engine file path is renamed from the working directory into the
     memory store's URI space.
   - The entrypoint's `stdin` outputs take the entrypoint's href without its
     extension.
   - The file whose renamed path is the URI of `meta.json` is parsed and
     normalised instead of kept.
   - The metafile normalisation (`Metafile`) strips the `velcro:` namespace
     tag from input keys, import paths and output-input keys.
   - It renames `stdin` output keys after the entrypoint.
   - It reduces output records to `inputs`, `exports`, `imports` and `bytes`.
   - Any step that would throw a TypeError in JavaScript fails the request.
5. **Shape string** (`Shapes`). This is `JSON.stringify` with a replacer that
   keeps non-null objects and arrays and replaces every other value by its
   `typeof` name.

JavaScript semantics are modelled explicitly where the pipeline depends on
them:
- `String.prototype.replace` with a string pattern replaces only the first
  occurrence, anywhere in the string (`Strings.ReplaceFirst`).
- With a `^literal` pattern it replaces only at the start
  (`Strings.ReplaceLeading`).
- `/\.[^.]+$/` removes from the last dot on, when at least one character
  follows it, across `/` (`Strings.StripExtension`).
- `JSON.stringify` of a string follows section 25.5.2.3 of ECMA-262
  (`JsonText.Quote`). Its round-trip partner is a decoder for section 7 of
  RFC 8259 (`JsonText.Unquote`). The decoder rejects every `\u` escape of
  a UTF-16 surrogate, valid surrogate pairs included, because a Dafny
  character cannot be a surrogate.
- A JavaScript object is modelled as an ordered property list. `for...in`
  enumerates it in order. Assigning to an existing key keeps its place;
  assigning a new key appends it (`JsValues`).
- `typeof null` is `"object"`, and `null` is falsy.

The collaborators are parameters:
- the resolver (`Resolution.Resolver`);
- `readFileContent` (`Resolution.Reader`);
- `uriForPath` and the memory root (`Bundler.Host`);
- `JSON.parse` (`Normalizer.Parser`);
- the engine (`Bundler.Engine`).

The engine receives the options and the two hooks as functions. It returns
either its warnings and files, or a failure message.

A URI is modelled by its string form (`Resolution.Uri`):
- `Uri.parse(s).toString()` is `s`;
- `Uri.ensureTrailingSlash` appends one `/` unless one is already there.

The `Uri` class (package `@velcro/common`) is not part of this model.

The renaming does not keep other outputs apart from the entrypoint's
outputs. `Normalizer.OtherOutputMayCollide` shows two engine paths that get
the same normalised path: `/app/index.js` and `/app/stdin.js`, with the
entrypoint `memory:/index.js`. Both files are kept, under the same path.

## Model

| member | source | states |
|---|---|---|
| Strings.IndexOf | src/bundler.ts:178-180 | the index a string-pattern replace acts on: an occurrence of the pattern with none before it; absent exactly when the pattern occurs nowhere |
| Strings.ReplaceFirst | src/bundler.ts:178-180 | a string-pattern replace rewrites only the first occurrence, wherever it is; without an occurrence the string is unchanged |
| Strings.IndexOfAfter | src/bundler.ts:180 | the pattern is found right after a prefix none of whose characters can start it |
| Strings.ReplaceFirstBetween | src/bundler.ts:180 | a replace whose first occurrence follows a prefix rewrites exactly that occurrence |
| Strings.ReplaceLeading | src/bundler.ts:189 | a `^literal` replace rewrites the pattern only where it starts the string |
| Strings.LeadingVersusFirst | src/bundler.ts:178-180 | the anchored and the unanchored replace agree when the pattern starts the string or is absent; they differ when it occurs only further in and the replacement's length differs from the pattern's |
| Strings.LastIndex | src/bundler.ts:179 | the last index holding the character, with none after it; absent when the character does not occur |
| Strings.StripExtension | src/bundler.ts:179 | `/\.[^.]+$/` removes a final dot and the non-dot characters after it, and leaves the string alone when there is no such suffix |
| Strings.StripExtensionOf | src/bundler.ts:179 | a final dot followed by non-dot characters is removed, leaving what precedes it |
| Strings.StripExtensionCrossesSegments | src/bundler.ts:179 | the extension pattern crosses `/`: `memory:/dir.v2/index` loses `.v2/index` |
| Strings.EnsureTrailingSlash | src/bundler.ts:180 | the memory root gets exactly one trailing `/`, and is unchanged when it already has one |
| JsonText.Escape | src/bundler.ts:104 | a character other than the quote, the backslash and the controls below U+0020 is copied as it is; those are written as an escape starting with a backslash, `\"` and `\\` for the quote and the backslash |
| JsonText.Quote | src/bundler.ts:104 | JSON text of a string is at least two characters longer and starts and ends with a quote |
| JsonText.QuoteVerbatim | src/bundler.ts:104 | a string with no character that needs an escape is written as itself between two quotes |
| JsonText.ParseHex4 | src/bundler.ts:104 | four hexadecimal digits denote a UTF-16 code unit, below 0x10000 |
| JsonText.HexEscapeValue | src/bundler.ts:104 | the `\u00XX` escape JSON.stringify writes for a control character decodes to that character's code |
| JsonText.EscapeThenUnescape | src/bundler.ts:104 | decoding an escaped character followed by more text gives the character followed by the decoding of the text |
| JsonText.QuoteRoundTrip | src/bundler.ts:104 | the JSON text written for a string decodes back to that string |
| JsonText.QuoteInjective | src/bundler.ts:77 | distinct strings are written as distinct JSON texts |
| JsonText.QuoteUnique | src/validation/shape.ts:2 | a JSON string followed by more text determines both the string and the text that follows |
| JsValues.TypeOf | src/validation/shape.ts:6 | `typeof` yields one of the eight type names; `"object"` exactly for `null`, arrays and objects, and each of `"undefined"`, `"boolean"`, `"number"`, `"bigint"`, `"string"`, `"symbol"` and `"function"` exactly for its own kind of value |
| JsValues.Lookup | src/bundler.ts:187-193 | own-property read: absent exactly when no property has the key, otherwise the value of a property with that key |
| JsValues.Get | src/bundler.ts:188 | a property read throws exactly on `undefined` and `null`; an object's own property reads as its value, a missing one as `undefined` |
| JsValues.ForIn | src/bundler.ts:187 | `for...in` visits an object's own properties in order, the indices of an array or string as decimal keys with the element or character at each, and nothing for other values |
| JsValues.NatToString | src/bundler.ts:187 | an index key is a non-empty string of decimal digits without a leading zero |
| JsValues.NatToStringValue | src/bundler.ts:187 | the index key reads back as the index, so the decimal text is the numeral of the index |
| JsValues.NatToStringInjective | src/bundler.ts:187 | distinct indices give distinct keys |
| JsValues.Put | src/bundler.ts:188 | after `o[k] = v`, `k` reads as `v` and every other key reads as before |
| JsValues.PutKeys | src/bundler.ts:188 | assigning keeps an existing key in its place and appends a new one |
| JsValues.PutDistinct | src/bundler.ts:188 | assignment keeps the keys distinct |
| JsValues.LastValue | src/bundler.ts:192 | the value a repeated key ends up with: present exactly when the key occurs |
| JsValues.LastValueUnique | src/bundler.ts:192 | the value of the last occurrence of a key is the value assignment leaves |
| JsValues.AssignAllLookup | src/bundler.ts:192 | a sequence of assignments leaves each key with the value of its last assignment, or its value before |
| JsValues.AssignAllKeys | src/bundler.ts:192 | a sequence of assignments keeps keys distinct and adds every assigned key |
| JsValues.FromEntriesProperties | src/bundler.ts:187-193 | the object built by assigning entries to `{}` has distinct keys, each bound to its last assigned value |
| JsValues.FromEntriesHasKey | src/bundler.ts:192 | the built object has a key exactly when some entry assigned it |
| JsValues.FromEntriesValue | src/bundler.ts:192 | a value in the built object comes from the last entry with its key |
| Shapes.Replacer | src/validation/shape.ts:5-7 | objects and arrays pass through; every other value, `null` included, becomes its `typeof` name, which is one of the eight type names |
| Shapes.Shape | src/validation/shape.ts:1-7 | the replaced tree has the structure of the value and only type names at its leaves |
| Shapes.SameShapeUnique | src/validation/shape.ts:1-7 | the replaced tree is the only tree with the structure of the value and its leaf types |
| Shapes.Serialize | src/validation/shape.ts:2 | a string leaf is written as a JSON string that decodes to the type name; arrays and objects are written in brackets and braces |
| Shapes.SerializeUnique | src/validation/shape.ts:2 | the text of a tree followed by more text determines the tree and what follows, so the writing loses nothing |
| Shapes.ElementsUnique | src/validation/shape.ts:2 | comma-separated elements followed by `]` determine the elements and what follows |
| Shapes.MembersUnique | src/validation/shape.ts:2 | comma-separated members followed by `}` determine the keys, the values and what follows |
| Shapes.ShapeString | src/validation/shape.ts:1-3 | a primitive root is written as exactly `"` + its type name + `"` (JSON.stringify's text), which decodes back to the name; arrays start with `[` and objects with `{` |
| Shapes.ShapeStringInjective | src/validation/shape.ts:1-7 | two values give the same shape string exactly when they have the same shape tree |
| Shapes.ShapeStringHidesContents | src/validation/shape.ts:1-7 | values that share structure and leaf types give the same shape string whatever their contents |
| Errors.Message | src/bundler.ts:76-85 | the not-found message is exactly its prefix followed by the entrypoint's JSON.stringify text, which decodes back to the entrypoint; the excluded message has that same text between its prefix and suffix; a read failure or engine failure carries the collaborator's own message |
| Errors.EntrypointMessagesIdentify | src/bundler.ts:76-86 | the two entrypoint error messages determine the kind of failure and the entrypoint |
| Resolution.ResolveEntrypoint | src/bundler.ts:74-93 | not found is reported before excluded, only a resolved URI is read, a rejected read fails with the reader's message, and success yields the resolved href and the content read |
| Resolution.NotFoundIgnoresUriAndReader | src/bundler.ts:74-78 | an entrypoint that is not found fails the same way whatever URI the resolver reports and whatever the reader does |
| Resolution.EffectiveImporter | src/bundler.ts:142-144 | the importer `<stdin>` is replaced by the entrypoint's href; any other importer is kept |
| Resolution.OnResolve | src/bundler.ts:135-156 | `data:` specifiers are external; otherwise the hook succeeds exactly when the resolver finds a non-excluded URI, in the `velcro` namespace, and fails naming the specifier and the effective importer |
| Resolution.DataUrlBypassesResolver | src/bundler.ts:136-140 | a `data:` specifier is external whatever the resolver would answer |
| Resolution.StdinImporterIsEntrypoint | src/bundler.ts:142-146 | resolving from `<stdin>` is resolving from the entrypoint's href |
| Resolution.UnresolvableMessage | src/bundler.ts:148-150 | a failed resolution's message names the specifier and the importer it was resolved from |
| Resolution.OnLoad | src/bundler.ts:158-165 | loading succeeds exactly when the reader does, returns its content with the `default` loader, and otherwise fails with the reader's own message as the thrown text (the model's error value also records the path) |
| Defines.Define | src/bundler.ts:100-106 | no environment gives no substitutions; each variable gets a `process.env.` key whose text is exactly JSON.stringify of its value (and decodes back to it), and every key names a variable |
| Bundler.OptionsFor | src/bundler.ts:112-126 | the engine gets one `process.env.` substitution per environment variable, whose text is exactly JSON.stringify of its value and decodes back to it, the metafile name, the working directory as output directory, and the entrypoint's content and href as stdin |
| Defines.DefineSize | src/bundler.ts:102-105 | there are exactly as many substitutions as environment variables |
| Metafile.StripNamespace | src/bundler.ts:189 | `/^velcro:/` removes the tag only when the string starts with it |
| Metafile.StripNamespaceInverse | src/bundler.ts:192 | stripping undoes tagging |
| Metafile.StripNamespaceOnce | src/bundler.ts:200 | only one tag is removed: a stripped key still starts with the tag exactly when the original started with it twice |
| Metafile.RenameStdin | src/bundler.ts:206 | an output key starting with `stdin` has that prefix replaced by the stem; other keys are unchanged |
| Metafile.NormalizeImport | src/bundler.ts:188-190 | an import record becomes `{ path }` with the tag stripped, and throws exactly when it has no string `path` |
| Metafile.NormalizeImports | src/bundler.ts:188-190 | the `.map` over imports succeeds exactly when every import is well formed, keeps their number and normalises each |
| Metafile.NormalizeInputRecord | src/bundler.ts:188 | an input record keeps its keys and every field but `imports`; the new `imports` has one reduced record per original import, in order; it throws exactly when `imports` is not an array of well-formed imports |
| Metafile.StripKeys | src/bundler.ts:199-203 | the output-input entries keep their number and values, each key stripped of one tag |
| Metafile.NormalizeOutputRecord | src/bundler.ts:196-212 | an output record is reduced to `inputs`, `exports`, `imports`, `bytes` in that order, the last three copied; it throws exactly on `undefined` and `null` |
| Metafile.Rekey | src/bundler.ts:187-193 | a rekeying `for...in` loop stores one pair per visited key, in order, and throws exactly when some value's step throws |
| Metafile.NormalizeMeta | src/bundler.ts:183-213 | normalisation succeeds exactly when no step throws, and yields an object with `inputs` then `outputs`, both objects |
| Metafile.RekeyThenAssign | src/bundler.ts:187-213 | a rekeyed object has distinct keys, one per renamed original key, each bound to the normalised value of the last original key renamed to it |
| Metafile.NormalizedInputs | src/bundler.ts:187-193 | the normalised `inputs` has one key per stripped input key, bound to the normalised record of the last input that strips to it |
| Metafile.NormalizedOutputs | src/bundler.ts:195-212 | the normalised `outputs` has one key per renamed output key, bound to the reduced record of the last output renamed to it |
| Metafile.PutImports | src/bundler.ts:188-190 | storing the reduced imports back gives a normalised input record with the same keys, the reduced imports under `imports` and every other field unchanged |
| Metafile.StripThenAssign | src/bundler.ts:199-203 | assigning entries with stripped keys gives one key per stripped key, bound to the value of the last entry that strips to it |
| Metafile.NormalizedOutputInputs | src/bundler.ts:199-203 | an output's `inputs` has one key per stripped input key, bound to the unchanged value of the last one that strips to it |
| Normalizer.NormalizePathAsWritten | src/bundler.ts:178-180 | in the source, a path without `<cwd>/` is unchanged, and a path without `<cwd>/stdin` has its first `<cwd>/` replaced by the memory root |
| Normalizer.AsWrittenOnEntryOutput | src/bundler.ts:178-180 | in the source, a stdin output becomes the stem plus its suffix, and then has the first `<cwd>/` in that result replaced |
| Normalizer.AsWrittenOnOtherOutput | src/bundler.ts:178-180 | in the source, any other output below the working directory becomes the memory root plus its relative path |
| Normalizer.AsWrittenRewritesInsertedStem | src/bundler.ts:178-180 | in the source, when the stem plus suffix contains `<cwd>/` after a prefix that cannot start it, that occurrence is replaced by the memory root |
| Normalizer.AsWrittenRewritesStem | src/bundler.ts:178-180 | the source turns `/app/stdin.js` into `memory:memory:/index.js` for the entrypoint `memory:/app/index.js`; the anchored renaming gives `memory:/app/index.js` |
| Normalizer.NormalizePath | src/bundler.ts:178-180 | stdin outputs become the stem plus their suffix; other files below the working directory become the memory root plus their relative path; other paths are unchanged |
| Normalizer.EntryOutputPaths | src/bundler.ts:178-179 | the entrypoint's outputs map to the stem plus their suffix, so distinct outputs keep distinct paths |
| Normalizer.OtherOutputMayCollide | src/bundler.ts:178-180 | another engine file can be renamed onto an entrypoint output's path |
| Normalizer.AgreesOnEntryOutput | src/bundler.ts:178-180 | where the stem and suffix do not contain `<cwd>/`, the anchored renaming agrees with the source on stdin outputs |
| Normalizer.AgreesOnOtherOutput | src/bundler.ts:178-180 | where `<cwd>/stdin` does not occur, the anchored renaming agrees with the source on other outputs |
| Normalizer.Kept | src/bundler.ts:214-219 | no kept file has the metafile's URI, every other renamed file is kept, and without a metafile every file is kept in order |
| Normalizer.KeptAppend | src/bundler.ts:214-219 | the files kept from two runs of files are those kept from the first followed by those kept from the second, so order and repeats are preserved |
| Normalizer.KeptSingle | src/bundler.ts:182-219 | one file is dropped exactly when its path is the metafile's URI |
| Normalizer.NormalizeMetaText | src/bundler.ts:183-185 | unparsable text fails as such, and only the two metafile errors are possible |
| Normalizer.NormalizeMetaTextOk | src/bundler.ts:183-213 | the metafile text normalises exactly when it parses to a metafile whose normalisation does not throw, and yields that normalisation |
| Normalizer.Visit | src/bundler.ts:177-221 | after the loop, the kept files are at most the files visited, each one of them and none at the metafile's URI; a present metafile is what some file at that URI reads as |
| Normalizer.VisitFails | src/bundler.ts:177-221 | the loop fails exactly when some metafile cannot be normalised, with the error of the first such file |
| Normalizer.VisitKeeps | src/bundler.ts:214-219 | a successful loop keeps every file but the metafile, renamed, in engine order |
| Normalizer.VisitMetaAbsent | src/bundler.ts:173-185 | after a successful loop the metafile is absent exactly when no file is the metafile |
| Normalizer.VisitMetaLast | src/bundler.ts:182-185 | a present metafile is what the last file with the metafile's URI reads as, and no later file has that URI |
| Normalizer.VisitStaysFailed | src/bundler.ts:182-185 | once a metafile has failed, the files after it do not change the outcome |
| Normalizer.NormalizeBuild | src/bundler.ts:171-221 | the loop computes the fold, keeps the renamed non-metafile files, and fails only with a metafile error |
| Normalizer.NormalizeOutcome | src/bundler.ts:171-221 | over the engine's files: the loop fails exactly when some metafile cannot be normalised, only with a metafile error; otherwise it keeps the renamed non-metafile files and has no metafile exactly when no file is the metafile |
| Normalizer.MetaFromLastMetafile | src/bundler.ts:182-185 | a present metafile is the normalisation of the text of the last engine file renamed to the metafile's URI |
| Bundler.Build | src/bundler.ts:71-227 | an entrypoint failure is reported as is; an engine failure as an engine failure; otherwise the bundle carries the engine's warnings and its renamed non-metafile files, fails exactly when a metafile cannot be normalised, and has no metafile exactly when the engine wrote none |
| Bundler.EntrypointFailureSkipsEngine | src/bundler.ts:71-97 | when the entrypoint fails, the outcome does not depend on the engine or the parser |
| Bundler.BundleMetaFromLastMetafile | src/bundler.ts:171-226 | a bundle's metafile is the normalisation of the last file the engine wrote at the metafile's URI |
| Bundler.EngineSeesRequest | src/bundler.ts:100-165 | the engine gets one substitution per environment variable and the entrypoint's href as its stdin source file; its resolve hook resolves `<stdin>` imports from the entrypoint, and its load hook succeeds exactly when the reader does |

## Left out

- Cancellation (`checkCancellation`, the token source) is left out. It is control flow around the pipeline, not part of its result.
- Multiple entrypoints and their `Promise.all` are left out. The build uses only `entrypoints[0]`, so a request has one entrypoint.
- The CDN and memory strategies and the resolver's own algorithm (extensions, `packageMain`) are parameters. So are `readFileContent`, `uriForPath` and the memory root URI.
- The engine is a parameter. Bundling, minification, code splitting, source maps and its fixed options are outside the model. The engine's failure is a message, which is then reported.
- `loaderForUri` is not part of this model. The stdin loader is not among the modelled options.
- UTF-8 decoding of file contents (`Buffer.from(...).toString('utf-8')`) is left out. Contents are text.
- `JsonText.Quote`: characters are code points, not UTF-16 code units. Lone surrogates, which `JSON.stringify` writes as `\u` escapes, cannot occur in a Dafny string.
- `Strings.ReplaceFirst`: `$` patterns in replacement strings are inserted literally. JavaScript would expand them.
- `JsValues.ForIn`: objects enumerate in insertion order. JavaScript enumerates integer-like keys first, in ascending order.
- `JsValues.Get`: only models the property names the bundler reads. Those names are not inherited from any prototype.
- `Shapes.ShapeString`: `toJSON` methods and cyclic values are left out; the tree is finite and has no methods.
- `Normalizer.NormalizeBuild`: the files are renamed by the corrected `Normalizer.NormalizePath`, not by the source's chained replace (`Normalizer.NormalizePathAsWritten`). The two agree under the conditions of `Normalizer.AgreesOnEntryOutput` and `Normalizer.AgreesOnOtherOutput`; elsewhere the kept paths and the metafile match are the corrected ones.
- `Normalizer.NormalizeOutcome`: the kept paths and the metafile test (`Normalizer.IsMetaFile`, `Normalizer.OutputOf`) use the corrected renaming, for the same reason.
- `Bundler.Build`: the bundle's file paths and its metafile come from the corrected renaming, for the same reason.
- `Normalizer.NormalizeBuild`: a missing `outputFiles` array is treated as an empty one. The source's `if (buildResult.outputFiles)` has the same effect.
- `Errors.Message`: the texts of TypeError and SyntaxError messages are the JavaScript engine's and are modelled as fixed descriptions.
- The server, framework, validator and codec files are not part of this model.

## Findings

| source | as written | input that shows it | evidently intended | confidence | as-written member | corrected member |
|---|---|---|---|---|---|---|
| src/bundler.ts:178-180 | the second `.replace` acts on the first `<cwd>/` anywhere in the path, including inside the stem the first `.replace` has just inserted | working directory `/app`, entrypoint `memory:/app/index.js`, memory root `memory:/`: `/app/stdin.js` becomes `memory:memory:/index.js` | a path is rewritten once, at its start: stdin outputs take the stem, other files take the memory root | medium, not executed; depends on the memory root's URI form | Normalizer.NormalizePathAsWritten, Normalizer.AsWrittenRewritesStem | Normalizer.NormalizePath, Normalizer.EntryOutputPaths |

The rest of the model (`Normalizer.IsMetaFile`, `Normalizer.Visit`,
`Bundler.Build`) uses the corrected `Normalizer.NormalizePath`.
`Normalizer.AgreesOnEntryOutput` and `Normalizer.AgreesOnOtherOutput` state
when the two renamings agree.
