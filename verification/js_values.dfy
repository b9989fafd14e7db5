/** JavaScript values as the bundler sees them: the result of `JSON.parse`,
    the objects it builds, and the `unknown` input of the shape transform.
    A plain object is an ordered list of properties, in the enumeration order
    of `for...in`; assigning a property keeps an existing key in place and
    appends a new one. */
module JsValues {
  import opened Results

  datatype Value =
    | Undefined
    | Null
    | Bool(b: bool)
    | Number(n: real)
    | BigInt(i: int)
    | Str(s: string)
    | Symbol(description: string)
    | Func
    | Arr(elems: seq<Value>)
    | Obj(props: seq<(string, Value)>)

  type Props = seq<(string, Value)>

  /** Every name `typeof` can produce. */
  const TypeNames: set<string> :=
    {"undefined", "object", "boolean", "number", "bigint", "string", "symbol", "function"}

  /** The `typeof` operator: `null`, arrays and objects all read as
      `"object"`, every other kind of value has a name of its own. */
  function TypeOf(v: Value): (r: string)
    ensures r in TypeNames
    ensures r == "object" <==> v.Null? || v.Arr? || v.Obj?
    ensures r == "string" <==> v.Str?
    ensures r == "undefined" <==> v.Undefined?
    ensures r == "boolean" <==> v.Bool?
    ensures r == "number" <==> v.Number?
    ensures r == "bigint" <==> v.BigInt?
    ensures r == "symbol" <==> v.Symbol?
    ensures r == "function" <==> v.Func?
  {
    match v
    case Undefined => "undefined"
    case Null => "object"
    case Bool(_) => "boolean"
    case Number(_) => "number"
    case BigInt(_) => "bigint"
    case Str(_) => "string"
    case Symbol(_) => "symbol"
    case Func => "function"
    case Arr(_) => "object"
    case Obj(_) => "object"
  }

  /** ToBoolean: the truthiness tested by `&&`. */
  predicate Truthy(v: Value) {
    match v
    case Undefined => false
    case Null => false
    case Bool(b) => b
    case Number(n) => n != 0.0
    case BigInt(i) => i != 0
    case Str(s) => |s| > 0
    case _ => true
  }

  function Keys(ps: Props): (ks: seq<string>)
    ensures |ks| == |ps|
    ensures forall i :: 0 <= i < |ps| ==> ks[i] == ps[i].0
  {
    if |ps| == 0 then [] else [ps[0].0] + Keys(ps[1..])
  }

  /** No key occurs twice, as in every JavaScript object. */
  predicate DistinctKeys(ps: Props) {
    forall i, j :: 0 <= i < j < |ps| ==> ps[i].0 != ps[j].0
  }

  /** The value of own property `k`, if present. */
  function Lookup(ps: Props, k: string): (r: Option<Value>)
    ensures r.None? <==> forall i :: 0 <= i < |ps| ==> ps[i].0 != k
    ensures r.Some? ==> exists i :: 0 <= i < |ps| && ps[i] == (k, r.value)
  {
    if |ps| == 0 then None
    else if ps[0].0 == k then Some(ps[0].1)
    else
      var r := Lookup(ps[1..], k);
      if r.Some? then
        var i :| 0 <= i < |ps| - 1 && ps[1..][i] == (k, r.value);
        assert ps[i + 1] == (k, r.value);
        r
      else r
  }

  /** Property read `v.k` for the property names the bundler reads
      (`inputs`, `outputs`, `imports`, `path`, `exports`, `bytes`), which no
      array, string, function or `Object.prototype` member has. Reading from
      `undefined` or `null` throws a TypeError, shown as `None`; a missing
      property reads as `undefined`. */
  function Get(v: Value, k: string): (r: Option<Value>)
    ensures r.None? <==> v.Undefined? || v.Null?
    ensures v.Obj? && r.Some? && r.value != Undefined ==> Lookup(v.props, k) == r
    ensures !v.Obj? && r.Some? ==> r.value == Undefined
    ensures v.Obj? && Lookup(v.props, k).Some? ==> r == Lookup(v.props, k)
    ensures v.Obj? && Lookup(v.props, k).None? ==> r == Some(Undefined)
  {
    match v
    case Undefined => None
    case Null => None
    case Obj(ps) => Some(Lookup(ps, k).GetOr(Undefined))
    case _ => Some(Undefined)
  }

  /** The decimal numeral of `n`, as `String(n)` writes it. */
  function NatToString(n: nat): (r: string)
    ensures |r| > 0 && AllDigits(r)
    ensures |r| > 1 ==> r[0] != '0'
  {
    if n < 10 then [Digit(n)] else NatToString(n / 10) + [Digit(n % 10)]
  }

  /** The character of decimal digit `d`. */
  function Digit(d: nat): (c: char)
    requires d < 10
    ensures '0' <= c <= '9' && c as int - '0' as int == d
  {
    "0123456789"[d]
  }

  predicate AllDigits(s: string) {
    forall i :: 0 <= i < |s| ==> '0' <= s[i] <= '9'
  }

  /** The number a string of decimal digits denotes. */
  function DecimalValue(s: string): nat
    requires AllDigits(s)
  {
    if |s| == 0 then 0
    else DecimalValue(s[..|s| - 1]) * 10 + (s[|s| - 1] as int - '0' as int)
  }

  /** `String(n)` writes the numeral of `n`: reading it back gives `n`, so
      distinct indices give distinct keys. */
  lemma {:induction false} NatToStringValue(n: nat)
    ensures DecimalValue(NatToString(n)) == n
  {
    var s := NatToString(n);
    if n >= 10 {
      NatToStringValue(n / 10);
      assert s[..|s| - 1] == NatToString(n / 10);
    }
  }

  lemma NatToStringInjective(m: nat, n: nat)
    ensures NatToString(m) == NatToString(n) <==> m == n
  {
    NatToStringValue(m);
    NatToStringValue(n);
  }

  /** The (key, value) pairs that `for (key in v)` visits, with `v[key]`:
      the own properties of an object, the indices of an array or of a
      string, and nothing for any other value, `undefined` and `null`
      included. */
  function ForIn(v: Value): (r: Props)
    ensures v.Obj? ==> r == v.props
    ensures v.Arr? ==> |r| == |v.elems| && forall i :: 0 <= i < |r| ==> r[i] == (NatToString(i), v.elems[i])
    ensures v.Str? ==> |r| == |v.s| && forall i :: 0 <= i < |r| ==> r[i] == (NatToString(i), Str([v.s[i]]))
    ensures !v.Obj? && !v.Arr? && !v.Str? ==> r == []
  {
    match v
    case Obj(ps) => ps
    case Arr(xs) => seq(|xs|, i requires 0 <= i < |xs| => (NatToString(i), xs[i]))
    case Str(s) => seq(|s|, i requires 0 <= i < |s| => (NatToString(i), Str([s[i]])))
    case _ => []
  }

  /** Property assignment `o[k] = v` on an object with properties `ps`:
      afterwards `k` reads as `v` and every other key reads as before. */
  function Put(ps: Props, k: string, v: Value): (r: Props)
    ensures Lookup(r, k) == Some(v)
    ensures forall k' :: k' != k ==> Lookup(r, k') == Lookup(ps, k')
  {
    if |ps| == 0 then [(k, v)]
    else if ps[0].0 == k then [(k, v)] + ps[1..]
    else [ps[0]] + Put(ps[1..], k, v)
  }

  /** Assignment keeps an existing key in its place and appends a new key
      at the end. */
  lemma {:induction false} PutKeys(ps: Props, k: string, v: Value)
    ensures Lookup(ps, k).Some? ==> Keys(Put(ps, k, v)) == Keys(ps)
    ensures Lookup(ps, k).None? ==> Keys(Put(ps, k, v)) == Keys(ps) + [k]
  {
    if |ps| > 0 && ps[0].0 != k {
      PutKeys(ps[1..], k, v);
      assert Keys(Put(ps, k, v)) == [ps[0].0] + Keys(Put(ps[1..], k, v));
      assert Keys(ps) == [ps[0].0] + Keys(ps[1..]);
    }
  }

  /** Assignment never makes a key occur twice. */
  lemma {:induction false} PutDistinct(ps: Props, k: string, v: Value)
    requires DistinctKeys(ps)
    ensures DistinctKeys(Put(ps, k, v))
  {
    if |ps| > 0 && ps[0].0 != k {
      var tail := ps[1..];
      forall i, j | 0 <= i < j < |tail|
        ensures tail[i].0 != tail[j].0
      {
        assert tail[i] == ps[i + 1] && tail[j] == ps[j + 1];
      }
      var t := Put(tail, k, v);
      PutDistinct(tail, k, v);
      forall m | 0 <= m < |tail|
        ensures tail[m].0 != ps[0].0
      {
        assert tail[m] == ps[m + 1];
      }
      assert Lookup(t, ps[0].0) == Lookup(tail, ps[0].0) == None;
      var r := Put(ps, k, v);
      assert r == [ps[0]] + t;
      forall i, j | 0 <= i < j < |r|
        ensures r[i].0 != r[j].0
      {
        assert r[j] == t[j - 1];
        if i > 0 {
          assert r[i] == t[i - 1];
        }
      }
    }
  }

  /** The value of the last pair with key `k`. */
  function LastValue(es: Props, k: string): (r: Option<Value>)
    ensures r.None? <==> forall i :: 0 <= i < |es| ==> es[i].0 != k
    ensures r.Some? ==> exists i :: 0 <= i < |es| && es[i] == (k, r.value)
                                    && forall j :: i < j < |es| ==> es[j].0 != k
  {
    if |es| == 0 then None
    else if es[|es| - 1].0 == k then Some(es[|es| - 1].1)
    else
      var r := LastValue(es[..|es| - 1], k);
      if r.Some? then
        ghost var init := es[..|es| - 1];
        ghost var i :| 0 <= i < |init| && init[i] == (k, r.value)
                       && forall j :: i < j < |init| ==> init[j].0 != k;
        assert es[i] == init[i];
        assert forall j :: i < j < |es| ==> es[j].0 != k by {
          assert forall j :: i < j < |init| ==> es[j] == init[j];
        }
        r
      else
        assert forall j :: 0 <= j < |es| - 1 ==> es[j] == es[..|es| - 1][j];
        r
  }

  /** The object built by assigning the pairs of `es` in order onto an
      object with properties `acc`. */
  function AssignAll(acc: Props, es: Props): Props
    decreases |es|
  {
    if |es| == 0 then acc else AssignAll(Put(acc, es[0].0, es[0].1), es[1..])
  }

  /** The properties of `{}` after `o[k] = v` for each pair of `es`, in order. */
  function FromEntries(es: Props): Props {
    AssignAll([], es)
  }

  lemma {:induction false} AssignAllLookup(acc: Props, es: Props, k: string)
    decreases |es|
    ensures Lookup(AssignAll(acc, es), k)
            == if LastValue(es, k).Some? then LastValue(es, k) else Lookup(acc, k)
  {
    if |es| > 0 {
      var acc' := Put(acc, es[0].0, es[0].1);
      AssignAllLookup(acc', es[1..], k);
      LastValueOfTail(es, k);
    }
  }

  lemma LastValueOfTail(es: Props, k: string)
    requires |es| > 0
    ensures LastValue(es, k)
            == if LastValue(es[1..], k).Some? then LastValue(es[1..], k)
               else if es[0].0 == k then Some(es[0].1) else None
  {
    var t := LastValue(es[1..], k);
    var r := LastValue(es, k);
    if t.Some? {
      var i :| 0 <= i < |es| - 1 && es[1..][i] == (k, t.value)
               && forall j :: i < j < |es| - 1 ==> es[1..][j].0 != k;
      assert es[i + 1] == (k, t.value);
      LastValueUnique(es, k, i + 1);
    } else if es[0].0 == k {
      LastValueUnique(es, k, 0);
    }
  }

  /** The last pair with key `k` determines `LastValue(es, k)`. */
  lemma LastValueUnique(es: Props, k: string, i: int)
    requires 0 <= i < |es| && es[i].0 == k
    requires forall j :: i < j < |es| ==> es[j].0 != k
    ensures LastValue(es, k) == Some(es[i].1)
  {
    var r := LastValue(es, k);
    var i' :| 0 <= i' < |es| && es[i'] == (k, r.value) && forall j :: i' < j < |es| ==> es[j].0 != k;
    assert i' == i;
  }

  lemma {:induction false} AssignAllKeys(acc: Props, es: Props)
    requires DistinctKeys(acc)
    decreases |es|
    ensures DistinctKeys(AssignAll(acc, es))
    ensures forall k :: Lookup(AssignAll(acc, es), k).Some?
                        <==> Lookup(acc, k).Some? || exists i :: 0 <= i < |es| && es[i].0 == k
  {
    if |es| > 0 {
      var acc' := Put(acc, es[0].0, es[0].1);
      PutDistinct(acc, es[0].0, es[0].1);
      AssignAllKeys(acc', es[1..]);
      forall k
        ensures Lookup(AssignAll(acc, es), k).Some?
                <==> Lookup(acc, k).Some? || exists i :: 0 <= i < |es| && es[i].0 == k
      {
        if exists i :: 0 <= i < |es| && es[i].0 == k {
          var i :| 0 <= i < |es| && es[i].0 == k;
          if i > 0 {
            assert es[1..][i - 1].0 == k;
          }
        }
      }
    }
  }

  /** Assigning pairs in order onto `{}` gives an object whose keys are those
      of the pairs, each once, each bound to the value its last pair gives. */
  lemma FromEntriesProperties(es: Props)
    ensures DistinctKeys(FromEntries(es))
    ensures forall k :: Lookup(FromEntries(es), k) == LastValue(es, k)
  {
    AssignAllKeys([], es);
    forall k
      ensures Lookup(FromEntries(es), k) == LastValue(es, k)
    {
      AssignAllLookup([], es, k);
    }
  }

  /** A key is present after the assignments exactly when some pair has it. */
  lemma FromEntriesHasKey(es: Props, k: string)
    ensures Lookup(FromEntries(es), k).Some? <==> exists i :: 0 <= i < |es| && es[i].0 == k
  {
    FromEntriesProperties(es);
  }

  /** A present key is bound to the value of the last pair with that key. */
  lemma FromEntriesValue(es: Props, k: string, v: Value)
    requires Lookup(FromEntries(es), k) == Some(v)
    ensures exists i :: 0 <= i < |es| && es[i] == (k, v)
                        && forall j :: i < j < |es| ==> es[j].0 != k
  {
    FromEntriesProperties(es);
  }
}
