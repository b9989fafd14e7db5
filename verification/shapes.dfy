/** The shape transform of `src/validation/shape.ts`: `JSON.stringify` with
    a replacer that keeps non-null objects and arrays and turns every other
    value into the name `typeof` gives it, so that a payload can be described
    by its structure without revealing its contents. */
module Shapes {
  import opened JsValues
  import JsonText
  import Strings
  import opened Results

  /** `valueToShapeReplacer`: a value that is an object by `typeof` and truthy
      passes through; anything else, `null` included, becomes its `typeof`
      name. */
  function Replacer(v: Value): (r: Value)
    ensures v.Arr? || v.Obj? ==> r == v
    ensures !v.Arr? && !v.Obj? ==> r == Str(TypeOf(v)) && TypeOf(v) in TypeNames
    ensures v.Null? ==> r == Str("object")
  {
    if TypeOf(v) == "object" && Truthy(v) then v else Str(TypeOf(v))
  }

  /** `t` has the shape of `v`: arrays keep their length, objects keep their
      keys in order, every child is shaped in turn, and every other value is
      replaced by the string naming its type. */
  predicate SameShape(v: Value, t: Value)
    decreases v
  {
    match v
    case Arr(xs) =>
      t.Arr? && |t.elems| == |xs|
      && forall i :: 0 <= i < |xs| ==> SameShape(xs[i], t.elems[i])
    case Obj(ps) =>
      t.Obj? && Keys(t.props) == Keys(ps)
      && forall i :: 0 <= i < |ps| ==> SameShape(ps[i].1, t.props[i].1)
    case _ => t == Str(TypeOf(v))
  }

  /** Every leaf of `t` is a string that names a type. */
  predicate AllLeavesNamed(t: Value) {
    match t
    case Arr(xs) => forall i :: 0 <= i < |xs| ==> AllLeavesNamed(xs[i])
    case Obj(ps) => forall i :: 0 <= i < |ps| ==> AllLeavesNamed(ps[i].1)
    case Str(s) => s in TypeNames
    case _ => false
  }

  /** The tree `JSON.stringify` walks: the replacer applied to the value, and,
      when the replacer returns an object or array (which it returns
      unchanged), to each of its children. */
  function Shape(v: Value): (r: Value)
    ensures SameShape(v, r)
    ensures AllLeavesNamed(r)
    decreases v
  {
    match v
    case Arr(xs) =>
      Arr(seq(|xs|, i requires 0 <= i < |xs| => Shape(xs[i])))
    case Obj(ps) =>
      var qs := seq(|ps|, i requires 0 <= i < |ps| => (ps[i].0, Shape(ps[i].1)));
      assert Keys(qs) == Keys(ps);
      Obj(qs)
    case _ => Replacer(v)
  }

  /** The shaped tree is the only tree with the shape of `v`. */
  lemma {:induction false} SameShapeUnique(v: Value, t: Value)
    requires SameShape(v, t)
    ensures t == Shape(v)
    decreases v
  {
    match v
    case Arr(xs) =>
      forall i | 0 <= i < |xs|
        ensures t.elems[i] == Shape(v).elems[i]
      {
        SameShapeUnique(xs[i], t.elems[i]);
      }
    case Obj(ps) =>
      forall i | 0 <= i < |ps|
        ensures t.props[i] == Shape(v).props[i]
      {
        assert t.props[i].0 == Keys(t.props)[i] == Keys(ps)[i];
        SameShapeUnique(ps[i].1, t.props[i].1);
      }
    case _ =>
  }

  /** `JSON.stringify` of a tree whose leaves are all strings: a string as
      its JSON text, an array as its comma-separated elements in brackets, an
      object as its comma-separated `"key":value` members in braces. */
  function Serialize(t: Value): (r: string)
    requires AllLeavesNamed(t)
    ensures |r| >= 2
    ensures t.Str? ==> r[0] == '"' && JsonText.Unquote(r) == Some(t.s)
    ensures t.Arr? ==> r[0] == '[' && r[|r| - 1] == ']'
    ensures t.Obj? ==> r[0] == '{' && r[|r| - 1] == '}'
    decreases t, 1, 0
  {
    match t
    case Str(s) =>
      JsonText.QuoteRoundTrip(s);
      JsonText.Quote(s)
    case Arr(xs) => "[" + Elements(xs) + "]"
    case Obj(ps) => "{" + Members(t, 0) + "}"
  }

  /** The elements of an array, comma-separated. */
  function Elements(xs: seq<Value>): string
    requires forall i :: 0 <= i < |xs| ==> AllLeavesNamed(xs[i])
    decreases xs
  {
    if |xs| == 0 then ""
    else Serialize(xs[0]) + (if |xs| == 1 then "" else "," + Elements(xs[1..]))
  }

  /** The members of object `t` from index `i` on, comma-separated. */
  function Members(t: Value, i: nat): string
    requires t.Obj? && i <= |t.props| && AllLeavesNamed(t)
    decreases t, 0, |t.props| - i
  {
    if i == |t.props| then ""
    else
      JsonText.Quote(t.props[i].0) + ":" + Serialize(t.props[i].1)
      + (if i + 1 == |t.props| then "" else "," + Members(t, i + 1))
  }

  // ---------------------------------------------------------------------
  // The serialisation is uniquely decodable

  /** Serialised trees are prefix-free: a serialised tree followed by more
      text determines both the tree and the text. */
  lemma {:induction false} SerializeUnique(t: Value, u: Value, x: string, y: string)
    requires AllLeavesNamed(t) && AllLeavesNamed(u)
    requires Serialize(t) + x == Serialize(u) + y
    ensures t == u && x == y
    decreases t, 1, 0
  {
    var l := Serialize(t) + x;
    assert l[0] == Serialize(t)[0] && l[0] == Serialize(u)[0];
    match t
    case Str(s) =>
      JsonText.QuoteUnique(s, u.s, x, y);
    case Arr(xs) =>
      Unwrap("[", Elements(xs), "]", x);
      Unwrap("[", Elements(u.elems), "]", y);
      ElementsUnique(xs, u.elems, x, y);
    case Obj(ps) =>
      Unwrap("{", Members(t, 0), "}", x);
      Unwrap("{", Members(u, 0), "}", y);
      MembersUnique(t, u, 0, x, y);
      assert ps == ps[0..] && u.props == u.props[0..];
  }

  /** Comma-separated elements followed by a closing bracket determine the
      elements and what follows the bracket. */
  lemma {:induction false} ElementsUnique(xs: seq<Value>, ys: seq<Value>, x: string, y: string)
    requires forall i :: 0 <= i < |xs| ==> AllLeavesNamed(xs[i])
    requires forall i :: 0 <= i < |ys| ==> AllLeavesNamed(ys[i])
    requires Elements(xs) + "]" + x == Elements(ys) + "]" + y
    ensures xs == ys && x == y
    decreases xs, 1
  {
    if |xs| == 0 || |ys| == 0 {
      ElementsEnd(xs, ys, x, y);
    } else {
      var rx, ry := ElementStep(xs, ys, x, y);
      if |xs| > 1 && |ys| > 1 {
        ElementsUnique(xs[1..], ys[1..], x, y);
      }
      JoinFirst(xs, ys, "]", x, y, rx, ry);
    }
  }

  /** Two lists whose first entries agree, followed by texts that agree,
      where each text either closes the list or continues it with a comma,
      are equal once their continuations are. */
  lemma JoinFirst<T>(a: seq<T>, b: seq<T>, close: string, x: string, y: string, ra: string, rb: string)
    requires |a| > 0 && |b| > 0 && a[0] == b[0] && ra == rb && |close| == 1 && close[0] != ','
    requires |a| == 1 ==> ra == close + x
    requires |a| > 1 ==> |ra| > 0 && ra[0] == ','
    requires |b| == 1 ==> rb == close + y
    requires |b| > 1 ==> |rb| > 0 && rb[0] == ','
    requires |a| > 1 && |b| > 1 ==> a[1..] == b[1..] && x == y
    ensures a == b && x == y
  {
    if |a| == 1 && |b| == 1 {
      Cons1(close, x);
      Cons1(close, y);
      assert a == [a[0]] && b == [b[0]];
    } else if |a| == 1 || |b| == 1 {
      if |a| == 1 {
        Cons1(close, x);
      } else {
        Cons1(close, y);
      }
    } else {
      SameFrom(a, b, 0);
      assert a == a[0..] && b == b[0..];
    }
  }

  /** When one list of elements is empty, so is the other. */
  lemma ElementsEnd(xs: seq<Value>, ys: seq<Value>, x: string, y: string)
    requires forall i :: 0 <= i < |xs| ==> AllLeavesNamed(xs[i])
    requires forall i :: 0 <= i < |ys| ==> AllLeavesNamed(ys[i])
    requires |xs| == 0 || |ys| == 0
    requires Elements(xs) + "]" + x == Elements(ys) + "]" + y
    ensures xs == ys && x == y
  {
    var l := Elements(xs) + "]" + x;
    if |xs| == 0 && |ys| == 0 {
      assert l == "]" + x && l == "]" + y;
      Cons1("]", x);
      Cons1("]", y);
    } else if |xs| == 0 {
      assert l == "]" + x;
      Cons1("]", x);
      ElementsFirst(ys, y);
    } else {
      assert l == "]" + y;
      Cons1("]", y);
      ElementsFirst(xs, x);
    }
  }

  /** The first elements agree, and so does the text after them. */
  lemma ElementStep(xs: seq<Value>, ys: seq<Value>, x: string, y: string) returns (rx: string, ry: string)
    requires forall i :: 0 <= i < |xs| ==> AllLeavesNamed(xs[i])
    requires forall i :: 0 <= i < |ys| ==> AllLeavesNamed(ys[i])
    requires |xs| > 0 && |ys| > 0
    requires Elements(xs) + "]" + x == Elements(ys) + "]" + y
    ensures xs[0] == ys[0] && rx == ry
    ensures |xs| == 1 ==> rx == "]" + x
    ensures |xs| > 1 ==> |rx| > 0 && rx[0] == ',' && rx[1..] == Elements(xs[1..]) + "]" + x
    ensures |ys| == 1 ==> ry == "]" + y
    ensures |ys| > 1 ==> |ry| > 0 && ry[0] == ',' && ry[1..] == Elements(ys[1..]) + "]" + y
    decreases xs, 0
  {
    rx := ElementsTail(xs, x);
    ry := ElementsTail(ys, y);
    SerializeUnique(xs[0], ys[0], rx, ry);
  }

  /** Comma-separated members followed by a closing brace determine the
      members and what follows the brace. */
  lemma {:induction false} MembersUnique(t: Value, u: Value, i: nat, x: string, y: string)
    requires t.Obj? && i <= |t.props| && AllLeavesNamed(t)
    requires u.Obj? && i <= |u.props| && AllLeavesNamed(u)
    requires Members(t, i) + "}" + x == Members(u, i) + "}" + y
    ensures t.props[i..] == u.props[i..] && x == y
    decreases t, 0, |t.props| - i, 1
  {
    if i == |t.props| || i == |u.props| {
      MembersEnd(t, u, i, x, y);
    } else {
      var tx, ty := MemberStep(t, u, i, x, y);
      if i + 1 < |t.props| && i + 1 < |u.props| {
        MembersUnique(t, u, i + 1, x, y);
      }
      JoinFirst(t.props[i..], u.props[i..], "}", x, y, tx, ty);
    }
  }

  /** When one object has no members from `i` on, neither has the other. */
  lemma MembersEnd(t: Value, u: Value, i: nat, x: string, y: string)
    requires t.Obj? && i <= |t.props| && AllLeavesNamed(t)
    requires u.Obj? && i <= |u.props| && AllLeavesNamed(u)
    requires i == |t.props| || i == |u.props|
    requires Members(t, i) + "}" + x == Members(u, i) + "}" + y
    ensures t.props[i..] == u.props[i..] && x == y
  {
    var l := Members(t, i) + "}" + x;
    if i == |t.props| && i == |u.props| {
      assert l == "}" + x && l == "}" + y;
      Cons1("}", x);
      Cons1("}", y);
      assert t.props[i..] == [] == u.props[i..];
    } else if i == |t.props| {
      assert l == "}" + x;
      Cons1("}", x);
      MembersFirst(u, i, y);
    } else {
      assert l == "}" + y;
      Cons1("}", y);
      MembersFirst(t, i, x);
    }
  }

  /** The member at `i` is the same in both objects, and so is the text
      after it. */
  lemma MemberStep(t: Value, u: Value, i: nat, x: string, y: string) returns (tx: string, ty: string)
    requires t.Obj? && i < |t.props| && AllLeavesNamed(t)
    requires u.Obj? && i < |u.props| && AllLeavesNamed(u)
    requires Members(t, i) + "}" + x == Members(u, i) + "}" + y
    ensures t.props[i] == u.props[i] && tx == ty
    ensures i + 1 == |t.props| ==> tx == "}" + x
    ensures i + 1 < |t.props| ==> |tx| > 0 && tx[0] == ',' && tx[1..] == Members(t, i + 1) + "}" + x
    ensures i + 1 == |u.props| ==> ty == "}" + y
    ensures i + 1 < |u.props| ==> |ty| > 0 && ty[0] == ',' && ty[1..] == Members(u, i + 1) + "}" + y
    decreases t, 0, |t.props| - i, 0
  {
    var vt := Serialize(t.props[i].1);
    var vu := Serialize(u.props[i].1);
    tx := MembersTail(t, i, x);
    ty := MembersTail(u, i, y);
    JsonText.QuoteUnique(t.props[i].0, u.props[i].0, ":" + (vt + tx), ":" + (vu + ty));
    Cons1(":", vt + tx);
    Cons1(":", vu + ty);
    SerializeUnique(t.props[i].1, u.props[i].1, tx, ty);
  }

  lemma AppendEmpty(s: string)
    ensures s + "" == s
  {
  }

  /** Text enclosed by a one-character opener, then `x`, without the opener. */
  lemma Unwrap(o: string, e: string, c: string, x: string)
    requires |o| == 1
    ensures (o + e + c + x)[0] == o[0]
    ensures (o + e + c + x)[1..] == e + c + x
  {
    Strings.Regroup(o, e, c, x);
  }

  /** Non-empty elements start with the first character of the first one,
      which is never a closing bracket. */
  lemma ElementsFirst(xs: seq<Value>, x: string)
    requires |xs| > 0 && forall i :: 0 <= i < |xs| ==> AllLeavesNamed(xs[i])
    ensures (Elements(xs) + "]" + x)[0] == Serialize(xs[0])[0] != ']'
  {
    var r := ElementsTail(xs, x);
  }

  /** Elements followed by `]` and `x`: the first element, then either the
      bracket or a comma and the other elements. */
  lemma ElementsTail(xs: seq<Value>, x: string) returns (r: string)
    requires |xs| > 0 && forall i :: 0 <= i < |xs| ==> AllLeavesNamed(xs[i])
    ensures Elements(xs) + "]" + x == Serialize(xs[0]) + r
    ensures |xs| == 1 ==> r == "]" + x
    ensures |xs| > 1 ==> r[0] == ',' && r[1..] == Elements(xs[1..]) + "]" + x
  {
    var s := Serialize(xs[0]);
    var rest := if |xs| == 1 then "" else "," + Elements(xs[1..]);
    Strings.Regroup(s, rest, "]", x);
    r := rest + "]" + x;
    if |xs| > 1 {
      Unwrap(",", Elements(xs[1..]), "]", x);
    }
  }

  /** Non-empty members start with a quote, never a closing brace. */
  lemma MembersFirst(t: Value, i: nat, x: string)
    requires t.Obj? && i < |t.props| && AllLeavesNamed(t)
    ensures (Members(t, i) + "}" + x)[0] == '"'
  {
    var q := JsonText.Quote(t.props[i].0);
    var m := ":" + Serialize(t.props[i].1)
             + (if i + 1 == |t.props| then "" else "," + Members(t, i + 1));
    assert Members(t, i) == q + m by {
      Strings.Regroup(q, ":", Serialize(t.props[i].1),
                       if i + 1 == |t.props| then "" else "," + Members(t, i + 1));
    }
    Strings.Regroup(q, m, "}", x);
  }

  /** Members from `i` followed by `}` and `x`: the quoted key, a colon,
      the value, and then either the brace or a comma and the other members. */
  lemma MembersTail(t: Value, i: nat, x: string) returns (tail: string)
    requires t.Obj? && i < |t.props| && AllLeavesNamed(t)
    ensures Members(t, i) + "}" + x
            == JsonText.Quote(t.props[i].0) + (":" + (Serialize(t.props[i].1) + tail))
    ensures i + 1 == |t.props| ==> tail == "}" + x
    ensures i + 1 < |t.props| ==> tail[0] == ',' && tail[1..] == Members(t, i + 1) + "}" + x
  {
    var q := JsonText.Quote(t.props[i].0);
    var v := Serialize(t.props[i].1);
    var rest := MembersUnfold(t, i);
    tail := rest + "}" + x;
    if i + 1 < |t.props| {
      Unwrap(",", Members(t, i + 1), "}", x);
    }
    RegroupMember(q, ":", v, rest, "}", x);
  }

  /** Members from `i`: the quoted key, a colon, the value, and what follows. */
  lemma MembersUnfold(t: Value, i: nat) returns (rest: string)
    requires t.Obj? && i < |t.props| && AllLeavesNamed(t)
    ensures Members(t, i) == JsonText.Quote(t.props[i].0) + ":" + Serialize(t.props[i].1) + rest
    ensures rest == if i + 1 == |t.props| then "" else "," + Members(t, i + 1)
  {
    rest := if i + 1 == |t.props| then "" else "," + Members(t, i + 1);
  }

  /** Six strings, regrouped as a member followed by the rest. */
  lemma RegroupMember(a: string, b: string, c: string, d: string, e: string, f: string)
    ensures a + b + c + d + e + f == a + (b + (c + (d + e + f)))
  {
  }

  /** Two sequences agree from `i` on when they agree at `i` and after it. */
  lemma SameFrom<T>(a: seq<T>, b: seq<T>, i: nat)
    requires i < |a| && i < |b| && a[i] == b[i] && a[i + 1..] == b[i + 1..]
    ensures a[i..] == b[i..]
  {
    assert a[i..] == [a[i]] + a[i + 1..];
    assert b[i..] == [b[i]] + b[i + 1..];
  }

  /** A one-character string followed by `w`. */
  lemma Cons1(o: string, w: string)
    requires |o| == 1
    ensures (o + w)[0] == o[0] && (o + w)[1..] == w
  {
  }

  /** `valueToShapeString`: the JSON text of the shape of `v`. A value that
      is neither an object nor an array is written as the JSON string of its
      type name alone. */
  function ShapeString(v: Value): (r: string)
    ensures |r| >= 2
    ensures !v.Arr? && !v.Obj? ==> r == "\"" + TypeOf(v) + "\""
    ensures !v.Arr? && !v.Obj? ==> JsonText.Unquote(r) == Some(TypeOf(v))
    ensures v.Arr? ==> r[0] == '['
    ensures v.Obj? ==> r[0] == '{'
  {
    TypeNamePlain(v);
    JsonText.QuoteVerbatim(TypeOf(v));
    Serialize(Shape(v))
  }

  /** Type names are lower-case letters, which JSON text copies as they are. */
  lemma TypeNamePlain(v: Value)
    ensures forall i :: 0 <= i < |TypeOf(v)| ==> !JsonText.NeedsEscape(TypeOf(v)[i])
  {
    var t := TypeOf(v);
    forall i | 0 <= i < |t|
      ensures 'a' <= t[i] <= 'z'
    {
      match v
      case Undefined =>
      case Null =>
      case Bool(_) =>
      case Number(_) =>
      case BigInt(_) =>
      case Str(_) =>
      case Symbol(_) =>
      case Func =>
      case Arr(_) =>
      case Obj(_) =>
    }
  }

  /** Two values give the same shape string exactly when they have the
      same shape tree: the text hides contents and nothing more. */
  lemma ShapeStringInjective(v: Value, w: Value)
    ensures ShapeString(v) == ShapeString(w) <==> Shape(v) == Shape(w)
  {
    var a, b := Shape(v), Shape(w);
    if ShapeString(v) == ShapeString(w) {
      AppendEmpty(Serialize(a));
      AppendEmpty(Serialize(b));
      SerializeUnique(a, b, "", "");
    }
  }

  /** The shape string reveals structure and leaf types only: values that
      share a shape tree, whatever their leaf contents, give the same text. */
  lemma ShapeStringHidesContents(v: Value, w: Value, t: Value)
    requires SameShape(v, t) && SameShape(w, t)
    ensures ShapeString(v) == ShapeString(w)
  {
    SameShapeUnique(v, t);
    SameShapeUnique(w, t);
  }
}
