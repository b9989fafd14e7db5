/** The errors a bundle request can fail with, and the messages the bundler
    writes for the ones it raises itself. */
module Errors {
  import JsonText
  import opened Results

  datatype BundleError =
      /** The resolver found no candidate for the entrypoint. */
    | EntrypointNotFound(entrypoint: string)
      /** The entrypoint was found but a "browser" field override excludes it. */
    | EntrypointExcluded(entrypoint: string)
      /** Reading a resolved module failed; `detail` is the reader's message. */
    | ReadFailed(href: string, detail: string)
      /** An import inside the build could not be resolved to a module. */
    | Unresolvable(path: string, importer: string)
      /** The engine's own failure, a resolve-hook failure included. */
    | EngineFailure(message: string)
      /** `JSON.parse` rejected the text of the metafile. */
    | MetafileUnparsable
      /** Normalising the parsed metafile hit a TypeError. */
    | MetafileMalformed

  const NotFoundPrefix := "Unable to resolve the entrypoint "
  const ExcludedPrefix := "The entrypoint "
  const ExcludedSuffix := " was excluded by \"browser\" field overrides"

  /** The `message` of the `Error` thrown for `e`. The three errors the
      bundler raises carry its own texts; the others carry the text of the
      collaborator that raised them, or a fixed description where that text
      is the JavaScript engine's. */
  function Message(e: BundleError): (r: string)
    ensures e.EntrypointNotFound? ==> NamesNotFound(r, e.entrypoint)
    ensures e.EntrypointExcluded? ==> NamesExcluded(r, e.entrypoint)
    ensures e.ReadFailed? ==> r == e.detail
    ensures e.EngineFailure? ==> r == e.message
  {
    match e
    case EntrypointNotFound(en) => NotFoundMessage(en)
    case EntrypointExcluded(en) => ExcludedMessage(en)
    case ReadFailed(_, detail) => detail
    case Unresolvable(p, i) => "Unable to resolve " + p + " from " + i
    case EngineFailure(m) => m
    case MetafileUnparsable => "SyntaxError: the metafile is not JSON"
    case MetafileMalformed => "TypeError: the metafile does not have the expected shape"
  }

  /** `r` is the not-found prefix followed by the JSON text of `en`. */
  predicate NamesNotFound(r: string, en: string) {
    && r == NotFoundPrefix + JsonText.Quote(en)
    && |r| > |NotFoundPrefix| && r[..|NotFoundPrefix|] == NotFoundPrefix
    && JsonText.Unquote(r[|NotFoundPrefix|..]) == Some(en)
  }

  /** `r` is the JSON text of `en` between the excluded prefix and suffix. */
  predicate NamesExcluded(r: string, en: string) {
    && r == ExcludedPrefix + JsonText.Quote(en) + ExcludedSuffix
    && |r| > |ExcludedPrefix| + |ExcludedSuffix|
    && r[..|ExcludedPrefix|] == ExcludedPrefix && r[|r| - |ExcludedSuffix|..] == ExcludedSuffix
    && JsonText.Unquote(r[|ExcludedPrefix|..|r| - |ExcludedSuffix|]) == Some(en)
  }

  function NotFoundMessage(en: string): (r: string)
    ensures NamesNotFound(r, en)
  {
    var q := JsonText.Quote(en);
    JsonText.QuoteRoundTrip(en);
    Parts(NotFoundPrefix, q, "");
    NotFoundPrefix + q
  }

  function ExcludedMessage(en: string): (r: string)
    ensures NamesExcluded(r, en)
  {
    var q := JsonText.Quote(en);
    JsonText.QuoteRoundTrip(en);
    Parts(ExcludedPrefix, q, ExcludedSuffix);
    ExcludedPrefix + q + ExcludedSuffix
  }

  /** The entrypoint errors name their entrypoint unambiguously: the message
      determines both the kind of failure and the entrypoint. */
  lemma {:induction false} EntrypointMessagesIdentify(e1: BundleError, e2: BundleError)
    requires e1.EntrypointNotFound? || e1.EntrypointExcluded?
    requires e2.EntrypointNotFound? || e2.EntrypointExcluded?
    requires Message(e1) == Message(e2)
    ensures e1 == e2
  {
    var m := Message(e1);
    var q1 := JsonText.Quote(e1.entrypoint);
    var q2 := JsonText.Quote(e2.entrypoint);
    if e1.EntrypointNotFound? && e2.EntrypointNotFound? {
      assert m[|NotFoundPrefix|..] == q1 == q2;
      JsonText.QuoteInjective(e1.entrypoint, e2.entrypoint);
    } else if e1.EntrypointExcluded? && e2.EntrypointExcluded? {
      assert m[|ExcludedPrefix|..|m| - |ExcludedSuffix|] == q1 == q2;
      JsonText.QuoteInjective(e1.entrypoint, e2.entrypoint);
    } else {
      assert false;
    }
  }

  /** The three parts of a concatenation can be sliced back out. */
  lemma Parts(a: string, q: string, b: string)
    ensures var s := a + q + b;
            && s[..|a|] == a && s[|a|..|a| + |q|] == q && s[|s| - |b|..] == b
            && (b == "" ==> s[|a|..] == q)
  {
  }
}
