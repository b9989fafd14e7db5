/** The `define` map of compile-time substitutions built from the request's
    environment variables. */
module Defines {
  import opened Results
  import opened Strings
  import JsonText

  const EnvPrefix := "process.env."

  /** One key `process.env.NAME` per environment variable `NAME`, mapped to
      the JSON string literal of its value; no environment, no keys. */
  function Define(env: Option<map<string, string>>): (d: map<string, string>)
    ensures env.None? ==> d == map[]
    ensures env.Some? ==> forall n :: n in env.value ==> EnvPrefix + n in d
    ensures env.Some? ==> forall n :: n in env.value ==>
              d[EnvPrefix + n] == JsonText.Quote(env.value[n])
    ensures env.Some? ==> forall n :: n in env.value ==>
              JsonText.Unquote(d[EnvPrefix + n]) == Some(env.value[n])
    ensures forall k :: k in d ==>
              StartsWith(k, EnvPrefix) && env.Some? && k[|EnvPrefix|..] in env.value
  {
    match env
    case None => map[]
    case Some(e) =>
      PrefixInjective(EnvPrefix);
      var d := map n | n in e :: EnvPrefix + n := JsonText.Quote(e[n]);
      DefineEntries(e, d);
      d
  }

  lemma DefineEntries(e: map<string, string>, d: map<string, string>)
    requires d.Keys == set n | n in e :: EnvPrefix + n
    requires forall n :: n in e ==> d[EnvPrefix + n] == JsonText.Quote(e[n])
    ensures forall n :: n in e ==> JsonText.Unquote(d[EnvPrefix + n]) == Some(e[n])
    ensures forall k :: k in d ==> StartsWith(k, EnvPrefix) && k[|EnvPrefix|..] in e
  {
    forall n | n in e
      ensures JsonText.Unquote(d[EnvPrefix + n]) == Some(e[n])
    {
      JsonText.QuoteRoundTrip(e[n]);
    }
    forall k | k in d
      ensures StartsWith(k, EnvPrefix) && k[|EnvPrefix|..] in e
    {
      var n :| n in e && k == EnvPrefix + n;
      assert k[|EnvPrefix|..] == n;
    }
  }

  /** Distinct variables get distinct keys, so the define map has exactly as
      many entries as the environment. */
  lemma DefineCount(env: Option<map<string, string>>)
    ensures |Define(env)| == (if env.Some? then |env.value| else 0)
  {
    if env.Some? {
      DefineSize(env.value);
    }
  }

  lemma DefineSize(e: map<string, string>)
    ensures |Define(Some(e))| == |e|
  {
    var d := Define(Some(e));
    var keys := set n | n in e :: EnvPrefix + n;
    assert d.Keys == keys;
    PrefixedSetSize(e.Keys, EnvPrefix);
  }

  lemma {:induction false} PrefixedSetSize(names: set<string>, p: string)
    ensures |set n | n in names :: p + n| == |names|
    decreases |names|
  {
    if names != {} {
      var n :| n in names;
      var rest := names - {n};
      PrefixedSetSize(rest, p);
      var s := set m | m in names :: p + m;
      var s' := set m | m in rest :: p + m;
      assert s == s' + {p + n};
      assert p + n !in s' by {
        forall m | m in rest
          ensures p + m != p + n
        {
          assert (p + m)[|p|..] == m;
          assert (p + n)[|p|..] == n;
        }
      }
    }
  }

  /** Prefixing with a fixed string is injective. */
  lemma PrefixInjective(p: string)
    ensures forall a: string, b: string :: p + a == p + b ==> a == b
  {
    forall a: string, b: string | p + a == p + b
      ensures a == b
    {
      assert (p + a)[|p|..] == a;
      assert (p + b)[|p|..] == b;
    }
  }
}
