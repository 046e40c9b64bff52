/**
 The dynamically typed values the pipeline passes around: parsed JSON from
 the language model, rows read from the relational store and the payloads
 written back. A Python `dict` becomes a `Record`; `dict.get` and Python's
 truthiness and `or` operator are modelled explicitly.
 */
module Values {

  datatype Option<+T> = None | Some(value: T)

  /** A JSON value. Numbers are reals (JSON has no separate integer type). */
  datatype Json =
    | JNull
    | JBool(b: bool)
    | JNum(n: real)
    | JStr(s: string)
    | JArr(elems: seq<Json>)
    | JObj(fields: map<string, Json>)

  /** A Python dict with string keys: an extracted object, a store row or a payload. */
  type Record = map<string, Json>

  /** A value Python compares as a number: `bool` is a subclass of `int`. */
  predicate Numeric(v: Json) {
    v.JBool? || v.JNum?
  }

  /** The number a numeric value stands for: True is 1 and False is 0. */
  function NumValue(v: Json): (n: real)
    requires Numeric(v)
    ensures v.JNum? ==> n == v.n
    ensures v.JBool? ==> n == if v.b then 1.0 else 0.0
  {
    if v.JNum? then v.n else if v.b then 1.0 else 0.0
  }

  /** Python's `==` on decoded JSON: numbers and booleans compare by value
      (`True == 1`, `0 == False`), lists element by element, dicts by key
      set and value by value; values of different kinds are unequal. */
  predicate PyEq(a: Json, b: Json) {
    match a
    case JNull => b.JNull?
    case JBool(_) => Numeric(b) && NumValue(a) == NumValue(b)
    case JNum(_) => Numeric(b) && NumValue(a) == NumValue(b)
    case JStr(s) => b.JStr? && b.s == s
    case JArr(xs) => b.JArr? && |xs| == |b.elems| && forall i :: 0 <= i < |xs| ==> PyEq(xs[i], b.elems[i])
    case JObj(f) => b.JObj? && f.Keys == b.fields.Keys && forall k :: k in f ==> PyEq(f[k], b.fields[k])
  }

  /** Every value equals itself. */
  lemma {:induction false} PyEqReflexive(a: Json)
    ensures PyEq(a, a)
  {
    match a
    case JArr(xs) =>
      forall i | 0 <= i < |xs| ensures PyEq(xs[i], xs[i]) {
        PyEqReflexive(xs[i]);
      }
    case JObj(f) =>
      forall k | k in f ensures PyEq(f[k], f[k]) {
        PyEqReflexive(f[k]);
      }
    case _ =>
  }

  /** Equality is symmetric. */
  lemma {:induction false} PyEqSymmetric(a: Json, b: Json)
    requires PyEq(a, b)
    ensures PyEq(b, a)
  {
    match a
    case JArr(xs) =>
      forall i | 0 <= i < |xs| ensures PyEq(b.elems[i], xs[i]) {
        PyEqSymmetric(xs[i], b.elems[i]);
      }
    case JObj(f) =>
      forall k | k in b.fields ensures PyEq(b.fields[k], f[k]) {
        PyEqSymmetric(f[k], b.fields[k]);
      }
    case _ =>
  }

  /** Equal values are equally truthy. */
  lemma PyEqKeepsTruth(a: Json, b: Json)
    requires PyEq(a, b)
    ensures Truthy(a) == Truthy(b)
  {
  }

  /** Equality is not identity: `True == 1`, and `{"x": True} == {"x": 1}`. */
  lemma TrueEqualsOne()
    ensures PyEq(JBool(true), JNum(1.0)) && JBool(true) != JNum(1.0)
    ensures PyEq(JObj(map["x" := JBool(true)]), JObj(map["x" := JNum(1.0)]))
  {
  }

  /** Python truthiness: None, False, 0, "", [] and {} are false. */
  predicate Truthy(v: Json) {
    match v
    case JNull => false
    case JBool(b) => b
    case JNum(n) => n != 0.0
    case JStr(s) => |s| > 0
    case JArr(a) => |a| > 0
    case JObj(m) => |m| > 0
  }

  /** `d.get(k)`: the value under `k`, None when the key is absent. */
  function Get(d: Record, k: string): (v: Json)
    ensures k in d ==> v == d[k]
    ensures k !in d ==> v == JNull
  {
    if k in d then d[k] else JNull
  }

  /** `d.get(k, default)`. */
  function GetOr(d: Record, k: string, default: Json): (v: Json)
    ensures k in d ==> v == d[k]
    ensures k !in d ==> v == default
  {
    if k in d then d[k] else default
  }

  /** Python's `a or b`. */
  function Or(a: Json, b: Json): (v: Json)
    ensures Truthy(a) ==> v == a
    ensures !Truthy(a) ==> v == b
  {
    if Truthy(a) then a else b
  }

  /** `d.get(k, empty) or empty`: the value under `k` when it is truthy,
      otherwise the empty default. */
  function GetOrEmpty(d: Record, k: string, empty: Json): (v: Json)
    ensures k in d && Truthy(d[k]) ==> v == d[k]
    ensures !(k in d && Truthy(d[k])) ==> v == empty
  {
    Or(GetOr(d, k, empty), empty)
  }

  /** A value Python may call `str` methods on: a string, or falsy (so that
      `(v or "")` is a string). */
  predicate TextLike(v: Json) {
    !Truthy(v) || v.JStr?
  }

  /** `(v or "")` as a Python string; defined for text-like values. */
  function TextOr(v: Json): (s: string)
    requires TextLike(v)
    ensures Truthy(v) ==> v == JStr(s)
    ensures !Truthy(v) ==> s == ""
  {
    if Truthy(v) then v.s else ""
  }

  /** The fields named in `keys` are text-like in `d`. */
  predicate TextFields(d: Record, keys: seq<string>) {
    forall i :: 0 <= i < |keys| ==> TextLike(Get(d, keys[i]))
  }

  /** A Python dict comprehension `{k: d.get(k) for k in keys}`: every key
      present, absent ones mapped to None. */
  function Project(d: Record, keys: seq<string>): (r: Record)
    ensures r.Keys == set k | k in keys
    ensures forall k :: k in r ==> r[k] == Get(d, k)
  {
    map k | k in keys :: Get(d, k)
  }

  /** Records that agree on the keys have the same projection. */
  lemma ProjectAgree(d: Record, e: Record, keys: seq<string>)
    requires forall k :: k in keys ==> Get(d, k) == Get(e, k)
    ensures Project(d, keys) == Project(e, keys)
  {
    var p, q := Project(d, keys), Project(e, keys);
    assert forall k :: k in p ==> p[k] == q[k];
  }
}
