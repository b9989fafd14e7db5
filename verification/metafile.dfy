/** Normalisation of the engine's metafile (`meta.json`) after `JSON.parse`:
    input keys, import paths and the input keys of each output lose the
    engine namespace tag `velcro:`, output keys starting with `stdin` are
    renamed after the entrypoint, and import and output records are cut down
    to fixed fields. A step of the source that throws a TypeError (a property
    read from `undefined` or `null`, `.map` or `.replace` on a value without
    one) makes the whole normalisation yield `None`. */
module Metafile {
  import opened Results
  import opened Strings
  import opened JsValues

  /** The tag the regular expression `/^velcro:/` removes. */
  const NamespacePrefix := "velcro:"

  /** The output-key prefix `/^stdin/` the engine uses for its stdin entry. */
  const StdinPrefix := "stdin"

  /** The fields an output record keeps, in order. */
  const OutputFields: seq<string> := ["inputs", "exports", "imports", "bytes"]

  /** `s.replace(/^velcro:/, '')`. */
  function StripNamespace(s: string): (r: string)
    ensures StartsWith(s, NamespacePrefix) ==> NamespacePrefix + r == s
    ensures !StartsWith(s, NamespacePrefix) ==> r == s
  {
    assert StartsWith(s, NamespacePrefix) ==> s == s[..|NamespacePrefix|] + s[|NamespacePrefix|..];
    ReplaceLeading(s, NamespacePrefix, "")
  }

  /** Stripping undoes tagging. */
  lemma StripNamespaceInverse(s: string)
    ensures StripNamespace(NamespacePrefix + s) == s
  {
    assert StartsWith(NamespacePrefix + s, NamespacePrefix);
    assert (NamespacePrefix + s)[|NamespacePrefix|..] == s;
  }

  /** Only one tag is removed: a stripped path still carries a tag exactly
      when the original carried two. */
  lemma StripNamespaceOnce(s: string)
    ensures StartsWith(StripNamespace(s), NamespacePrefix)
            <==> StartsWith(s, NamespacePrefix + NamespacePrefix)
  {
    var p := NamespacePrefix;
    if StartsWith(s, p) {
      var t := s[|p|..];
      assert s == p + t;
      if |t| >= |p| {
        assert s[..2 * |p|] == p + t[..|p|];
      }
    } else if |s| >= 2 * |p| {
      assert s[..2 * |p|][..|p|] == s[..|p|];
    }
  }

  /** `s.replace(/^stdin/, stem)`. */
  function RenameStdin(s: string, stem: string): (r: string)
    ensures StartsWith(s, StdinPrefix) ==> r == stem + s[|StdinPrefix|..]
    ensures !StartsWith(s, StdinPrefix) ==> r == s
  {
    ReplaceLeading(s, StdinPrefix, stem)
  }

  // ---------------------------------------------------------------------
  // When the source does not throw

  predicate Nullish(v: Value) {
    v.Undefined? || v.Null?
  }

  /** `i.path.replace(...)` succeeds: `i` is an object with a string `path`. */
  predicate WellFormedImport(i: Value) {
    i.Obj? && Lookup(i.props, "path").Some? && Lookup(i.props, "path").value.Str?
  }

  /** `rec.imports.map(...)` succeeds: `rec` is an object whose `imports`
      is an array of well-formed import records. */
  predicate WellFormedInput(rec: Value) {
    && rec.Obj?
    && Lookup(rec.props, "imports").Some?
    && Lookup(rec.props, "imports").value.Arr?
    && forall j :: 0 <= j < |Lookup(rec.props, "imports").value.elems| ==>
                     WellFormedImport(Lookup(rec.props, "imports").value.elems[j])
  }

  /** Normalising the parsed metafile `meta` does not throw. */
  predicate WellFormedMeta(meta: Value) {
    && !Nullish(meta)
    && (forall i :: 0 <= i < |ForIn(Get(meta, "inputs").value)| ==>
                      WellFormedInput(ForIn(Get(meta, "inputs").value)[i].1))
    && (forall i :: 0 <= i < |ForIn(Get(meta, "outputs").value)| ==>
                      !Nullish(ForIn(Get(meta, "outputs").value)[i].1))
  }

  // ---------------------------------------------------------------------
  // The shape of what the normalisation produces

  /** An import record reduced to its `path`. */
  predicate IsImportRecord(v: Value) {
    v.Obj? && |v.props| == 1 && v.props[0].0 == "path" && v.props[0].1.Str?
  }

  /** An input record whose `imports` are all reduced import records. */
  predicate IsNormalInput(v: Value) {
    && v.Obj?
    && Lookup(v.props, "imports").Some?
    && Lookup(v.props, "imports").value.Arr?
    && forall j :: 0 <= j < |Lookup(v.props, "imports").value.elems| ==>
                     IsImportRecord(Lookup(v.props, "imports").value.elems[j])
  }

  /** An output record with exactly the fields `inputs`, `exports`,
      `imports` and `bytes`, in that order, `inputs` an object. */
  predicate IsNormalOutput(v: Value) {
    v.Obj? && Keys(v.props) == OutputFields && v.props[0].1.Obj?
    && DistinctKeys(v.props[0].1.props)
  }

  // ---------------------------------------------------------------------
  // The normalisation

  /** `({ path: i.path.replace(/^velcro:/, '') })`. */
  function NormalizeImport(i: Value): (r: Option<Value>)
    ensures r.Some? <==> WellFormedImport(i)
    ensures r.Some? ==> IsImportRecord(r.value)
                        && r.value.props[0].1.s == StripNamespace(Lookup(i.props, "path").value.s)
  {
    match Get(i, "path")
    case Some(Str(p)) => Some(Obj([("path", Str(StripNamespace(p)))]))
    case _ => None
  }

  /** `imports.map(...)` with the callback above. */
  function NormalizeImports(xs: seq<Value>): (r: Option<seq<Value>>)
    ensures r.Some? <==> forall j :: 0 <= j < |xs| ==> WellFormedImport(xs[j])
    ensures r.Some? ==> |r.value| == |xs|
    ensures r.Some? ==> forall j :: 0 <= j < |xs| ==> Some(r.value[j]) == NormalizeImport(xs[j])
  {
    if |xs| == 0 then Some([])
    else
      match NormalizeImport(xs[0])
      case None => None
      case Some(y) =>
        match NormalizeImports(xs[1..])
        case None =>
          assert exists j :: 0 <= j < |xs| - 1 && !WellFormedImport(xs[1..][j]);
          None
        case Some(ys) => Some([y] + ys)
  }

  /** One input record: its `imports` replaced by the reduced records, every
      other field kept. */
  function NormalizeInputRecord(rec: Value): (r: Option<Value>)
    ensures r.Some? <==> WellFormedInput(rec)
    ensures r.Some? ==> IsNormalInput(r.value) && Keys(r.value.props) == Keys(rec.props)
    ensures r.Some? ==> forall k :: k != "imports" ==> Lookup(r.value.props, k) == Lookup(rec.props, k)
    ensures r.Some? ==>
              var xs := Lookup(rec.props, "imports").value.elems;
              var ys := Lookup(r.value.props, "imports").value.elems;
              |ys| == |xs| && forall j :: 0 <= j < |xs| ==> NormalizeImport(xs[j]) == Some(ys[j])
  {
    if !rec.Obj? then None
    else
      var imports := Lookup(rec.props, "imports");
      if imports.None? || !imports.value.Arr? then None
      else
        var ys :- NormalizeImports(imports.value.elems);
        PutImports(rec.props, imports.value.elems, ys);
        Some(Obj(Put(rec.props, "imports", Arr(ys))))
  }

  /** Storing the reduced import records back under `imports` gives a
      normalised input record with the same keys. */
  lemma PutImports(ps: Props, xs: seq<Value>, ys: seq<Value>)
    requires Lookup(ps, "imports") == Some(Arr(xs))
    requires NormalizeImports(xs) == Some(ys)
    ensures IsNormalInput(Obj(Put(ps, "imports", Arr(ys))))
    ensures Keys(Put(ps, "imports", Arr(ys))) == Keys(ps)
    ensures forall k :: k != "imports" ==> Lookup(Put(ps, "imports", Arr(ys)), k) == Lookup(ps, k)
    ensures Lookup(Put(ps, "imports", Arr(ys)), "imports") == Some(Arr(ys))
  {
    PutKeys(ps, "imports", Arr(ys));
    var r := Put(ps, "imports", Arr(ys));
    assert Lookup(r, "imports").value.elems == ys;
    forall j | 0 <= j < |ys|
      ensures IsImportRecord(ys[j])
    {
      assert Some(ys[j]) == NormalizeImport(xs[j]);
    }
  }

  /** The pairs `(key.replace(/^velcro:/, ''), value)`. */
  function StripKeys(es: Props): (r: Props)
    ensures |r| == |es|
    ensures forall i :: 0 <= i < |es| ==> r[i] == (StripNamespace(es[i].0), es[i].1)
  {
    seq(|es|, i requires 0 <= i < |es| => (StripNamespace(es[i].0), es[i].1))
  }

  /** One output record, reduced to its four fields, the keys of its
      `inputs` stripped of the tag. */
  function NormalizeOutputRecord(out: Value): (r: Option<Value>)
    ensures r.Some? <==> !Nullish(out)
    ensures r.Some? ==> IsNormalOutput(r.value)
    ensures r.Some? ==> forall j :: 1 <= j < |OutputFields| ==>
                          r.value.props[j].1 == Get(out, OutputFields[j]).value
  {
    var ins :- Get(out, "inputs");
    var inputs := FromEntries(StripKeys(ForIn(ins)));
    FromEntriesProperties(StripKeys(ForIn(ins)));
    Some(Obj([("inputs", Obj(inputs)),
              ("exports", Get(out, "exports").value),
              ("imports", Get(out, "imports").value),
              ("bytes", Get(out, "bytes").value)]))
  }

  /** A `for...in` loop that stores `val(o[k])` under `key(k)` for every
      pair of `es`, throwing when `val` throws; the pairs it stores, in order. */
  function Rekey(es: Props, key: string -> string, val: Value -> Option<Value>): (r: Option<Props>)
    ensures r.Some? <==> forall i :: 0 <= i < |es| ==> val(es[i].1).Some?
    ensures r.Some? ==> |r.value| == |es|
    ensures r.Some? ==> forall i :: 0 <= i < |es| ==>
                          r.value[i].0 == key(es[i].0) && Some(r.value[i].1) == val(es[i].1)
  {
    if |es| == 0 then Some([])
    else
      match val(es[0].1)
      case None => None
      case Some(v) =>
        match Rekey(es[1..], key, val)
        case None =>
          assert exists i :: 0 <= i < |es| - 1 && val(es[1..][i].1).None?;
          None
        case Some(rest) => Some([(key(es[0].0), v)] + rest)
  }

  /** The `inputs` loop: each key stripped, each record normalised. */
  function RekeyInputs(es: Props): Option<Props> {
    Rekey(es, StripNamespace, NormalizeInputRecord)
  }

  /** The `outputs` loop: each key renamed after the entrypoint, each record
      reduced. */
  function RekeyOutputs(stem: string, es: Props): Option<Props> {
    Rekey(es, k => RenameStdin(k, stem), NormalizeOutputRecord)
  }

  /** The normalised metafile `{ inputs, outputs }` built from the parsed
      metafile `meta`, with `stem` the entrypoint's href without its
      extension. */
  function NormalizeMeta(stem: string, meta: Value): (r: Option<Value>)
    ensures r.Some? <==> WellFormedMeta(meta)
    ensures r.Some? ==> r.value.Obj? && Keys(r.value.props) == ["inputs", "outputs"]
                        && r.value.props[0].1.Obj? && r.value.props[1].1.Obj?
  {
    var inputs :- Get(meta, "inputs");
    var ins :- RekeyInputs(ForIn(inputs));
    var outs :- RekeyOutputs(stem, ForIn(Get(meta, "outputs").value));
    Some(Obj([("inputs", Obj(FromEntries(ins))), ("outputs", Obj(FromEntries(outs)))]))
  }

  // ---------------------------------------------------------------------
  // What the normalised metafile contains

  /** The object a `for...in` rekeying loop builds: one key per `key(k)`,
      each bound to `val` of the value of the last original key `k` mapped
      to it. */
  lemma {:induction false} RekeyThenAssign(es: Props, key: string -> string,
                                           val: Value -> Option<Value>, k: string)
    requires Rekey(es, key, val).Some?
    ensures DistinctKeys(FromEntries(Rekey(es, key, val).value))
    ensures Lookup(FromEntries(Rekey(es, key, val).value), k).Some?
            <==> exists i :: 0 <= i < |es| && key(es[i].0) == k
    ensures Lookup(FromEntries(Rekey(es, key, val).value), k).Some? ==>
              exists i :: && 0 <= i < |es| && key(es[i].0) == k
                          && Some(Lookup(FromEntries(Rekey(es, key, val).value), k).value) == val(es[i].1)
                          && forall j :: i < j < |es| ==> key(es[j].0) != k
  {
    var rs := Rekey(es, key, val).value;
    FromEntriesProperties(rs);
    FromEntriesHasKey(rs, k);
    var o := Lookup(FromEntries(rs), k);
    if o.Some? {
      FromEntriesValue(rs, k, o.value);
      var i :| 0 <= i < |rs| && rs[i] == (k, o.value) && forall j :: i < j < |rs| ==> rs[j].0 != k;
      assert key(es[i].0) == k && Some(o.value) == val(es[i].1);
      assert forall j :: i < j < |es| ==> key(es[j].0) == rs[j].0;
    }
    if exists i :: 0 <= i < |es| && key(es[i].0) == k {
      var i :| 0 <= i < |es| && key(es[i].0) == k;
      assert rs[i].0 == k;
    }
  }

  /** The normalised `inputs`: one key per original input key with one tag
      stripped, bound to the normalised record of the last original key that
      strips to it; every record's imports are reduced to their paths. */
  lemma NormalizedInputs(stem: string, meta: Value, k: string)
    requires NormalizeMeta(stem, meta).Some?
    ensures var src := ForIn(Get(meta, "inputs").value);
            var ins := NormalizeMeta(stem, meta).value.props[0].1.props;
            && DistinctKeys(ins)
            && (Lookup(ins, k).Some? <==> exists i :: 0 <= i < |src| && StripNamespace(src[i].0) == k)
            && (Lookup(ins, k).Some? ==>
                  && IsNormalInput(Lookup(ins, k).value)
                  && exists i :: && 0 <= i < |src| && StripNamespace(src[i].0) == k
                                 && Some(Lookup(ins, k).value) == NormalizeInputRecord(src[i].1)
                                 && forall j :: i < j < |src| ==> StripNamespace(src[j].0) != k)
  {
    var src := ForIn(Get(meta, "inputs").value);
    RekeyThenAssign(src, StripNamespace, NormalizeInputRecord, k);
  }

  /** The normalised `outputs`: one key per original output key with a
      leading `stdin` renamed to the stem, bound to the reduced record of the
      last original key renamed to it; every record has exactly the fields
      `inputs`, `exports`, `imports` and `bytes`. */
  lemma NormalizedOutputs(stem: string, meta: Value, k: string)
    requires NormalizeMeta(stem, meta).Some?
    ensures var src := ForIn(Get(meta, "outputs").value);
            var outs := NormalizeMeta(stem, meta).value.props[1].1.props;
            && DistinctKeys(outs)
            && (Lookup(outs, k).Some? <==> exists i :: 0 <= i < |src| && RenameStdin(src[i].0, stem) == k)
            && (Lookup(outs, k).Some? ==>
                  && IsNormalOutput(Lookup(outs, k).value)
                  && exists i :: && 0 <= i < |src| && RenameStdin(src[i].0, stem) == k
                                 && Some(Lookup(outs, k).value) == NormalizeOutputRecord(src[i].1)
                                 && forall j :: i < j < |src| ==> RenameStdin(src[j].0, stem) != k)
  {
    var src := ForIn(Get(meta, "outputs").value);
    RekeyThenAssign(src, k => RenameStdin(k, stem), NormalizeOutputRecord, k);
  }

  /** The object built from the pairs with stripped keys: one key per
      original key with one tag stripped, bound to the value of the last
      original key that strips to it. */
  lemma {:induction false} StripThenAssign(src: Props, k: string)
    ensures var ins := FromEntries(StripKeys(src));
            && (Lookup(ins, k).Some? <==> exists i :: 0 <= i < |src| && StripNamespace(src[i].0) == k)
            && (Lookup(ins, k).Some? ==>
                  exists i :: && 0 <= i < |src| && StripNamespace(src[i].0) == k
                              && src[i].1 == Lookup(ins, k).value
                              && forall j :: i < j < |src| ==> StripNamespace(src[j].0) != k)
  {
    var sk := StripKeys(src);
    FromEntriesHasKey(sk, k);
    var o := Lookup(FromEntries(sk), k);
    if o.Some? {
      FromEntriesValue(sk, k, o.value);
      var i :| 0 <= i < |sk| && sk[i] == (k, o.value) && forall j :: i < j < |sk| ==> sk[j].0 != k;
      assert StripNamespace(src[i].0) == k && src[i].1 == o.value;
      assert forall j :: i < j < |src| ==> StripNamespace(src[j].0) == sk[j].0;
    }
    if exists i :: 0 <= i < |src| && StripNamespace(src[i].0) == k {
      var i :| 0 <= i < |src| && StripNamespace(src[i].0) == k;
      assert sk[i].0 == k;
    }
  }

  /** The `inputs` of a reduced output record: the original keys with one
      tag stripped, each bound to the unchanged value of the last original
      key that strips to it. */
  lemma NormalizedOutputInputs(out: Value, k: string)
    requires NormalizeOutputRecord(out).Some?
    ensures var src := ForIn(Get(out, "inputs").value);
            var ins := NormalizeOutputRecord(out).value.props[0].1.props;
            && (Lookup(ins, k).Some? <==> exists i :: 0 <= i < |src| && StripNamespace(src[i].0) == k)
            && (Lookup(ins, k).Some? ==>
                  exists i :: && 0 <= i < |src| && StripNamespace(src[i].0) == k
                              && src[i].1 == Lookup(ins, k).value
                              && forall j :: i < j < |src| ==> StripNamespace(src[j].0) != k)
  {
    var src := ForIn(Get(out, "inputs").value);
    assert NormalizeOutputRecord(out).value.props[0].1.props == FromEntries(StripKeys(src));
    StripThenAssign(src, k);
  }
}
