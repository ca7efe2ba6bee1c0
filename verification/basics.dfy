/** Shared value shapes: optional values, outcomes that may throw, and the
    JSON-like values that travel between the host and the worker. */
module Basics {

  datatype Option<+T> = None | Some(value: T)

  /** The result of a computation in the source that can throw: either it
      returns a value or an exception escapes it. */
  datatype Try<+T> = Ok(value: T) | Throws

  /** A JavaScript/JSON value. Numbers are integers here; `Undefined` only
      arises on the worker side (a JavaScript `undefined`). Object members
      keep their insertion order. */
  datatype Value =
    | Undefined
    | Null
    | Bool(b: bool)
    | Num(n: int)
    | Str(s: string)
    | Arr(items: seq<Value>)
    | Obj(members: seq<(string, Value)>)

  /** The i-th element of a spread argument list, `undefined` past its end. */
  function Arg(args: seq<Value>, i: nat): (v: Value)
    ensures i < |args| ==> v == args[i]
    ensures i >= |args| ==> v == Undefined
  {
    if i < |args| then args[i] else Undefined
  }

  /** The keys of an insertion-ordered map, in order. */
  function Keys<V>(m: seq<(string, V)>): (ks: seq<string>)
    ensures |ks| == |m|
    ensures forall i :: 0 <= i < |m| ==> ks[i] == m[i].0
  {
    if |m| == 0 then [] else [m[0].0] + Keys(m[1..])
  }

  predicate UniqueKeys<V>(m: seq<(string, V)>) {
    forall i, j :: 0 <= i < j < |m| ==> m[i].0 != m[j].0
  }

  /** The value stored under `k`, if any. */
  function Lookup<V>(m: seq<(string, V)>, k: string): (r: Option<V>)
    ensures r.None? <==> k !in Keys(m)
  {
    if |m| == 0 then None
    else if m[0].0 == k then Some(m[0].1)
    else Lookup(m[1..], k)
  }

  /** Storing into an insertion-ordered map (a JavaScript object, a Kotlin
      `LinkedHashMap`): an existing key keeps its place and takes the new
      value, a new key goes last. */
  function Put<V>(m: seq<(string, V)>, k: string, v: V): (r: seq<(string, V)>)
    ensures Lookup(r, k) == Some(v)
    ensures forall k' :: k' != k ==> Lookup(r, k') == Lookup(m, k')
    ensures k in Keys(m) ==> Keys(r) == Keys(m)
    ensures k !in Keys(m) ==> Keys(r) == Keys(m) + [k]
  {
    if |m| == 0 then [(k, v)]
    else if m[0].0 == k then [(k, v)] + m[1..]
    else
      var t := Put(m[1..], k, v);
      PutBehind(m, k, v, t);
      [m[0]] + t
  }

  /** Prepending one element and appending a sequence can be done in either order. */
  lemma ConsAppend<T>(d: T, x: seq<T>, y: seq<T>)
    ensures [d] + (x + y) == ([d] + x) + y
  {
  }

  /** A sequence is what comes before its `j`th element, that element,
      and what comes after it. */
  lemma SplitAt<T>(s: seq<T>, j: nat)
    requires j < |s|
    ensures s == s[..j] + ([s[j]] + s[j + 1..])
    ensures forall x :: x in s[..j] ==> x in s
    ensures forall x :: x in s[j + 1..] ==> x in s
  {
    assert s == s[..j] + ([s[j]] + s[j + 1..]);
  }

  lemma AppendAssoc<T>(x: seq<T>, y: seq<T>, z: seq<T>)
    ensures x + (y + z) == x + y + z
  {
  }

  /** Storing behind a first entry with another key: lookups. */
  lemma PutBehind<V>(m: seq<(string, V)>, k: string, v: V, t: seq<(string, V)>)
    requires |m| > 0 && m[0].0 != k
    requires Lookup(t, k) == Some(v)
    requires forall k' :: k' != k ==> Lookup(t, k') == Lookup(m[1..], k')
    requires k in Keys(m[1..]) ==> Keys(t) == Keys(m[1..])
    requires k !in Keys(m[1..]) ==> Keys(t) == Keys(m[1..]) + [k]
    ensures Lookup([m[0]] + t, k) == Some(v)
    ensures forall k' :: k' != k ==> Lookup([m[0]] + t, k') == Lookup(m, k')
    ensures k in Keys(m) ==> Keys([m[0]] + t) == Keys(m)
    ensures k !in Keys(m) ==> Keys([m[0]] + t) == Keys(m) + [k]
  {
    var r := [m[0]] + t;
    assert r[0] == m[0] && r[1..] == t;
    PutBehindKeys(m, k, t);
  }

  /** Storing behind a first entry with another key: the key order. */
  lemma PutBehindKeys<V>(m: seq<(string, V)>, k: string, t: seq<(string, V)>)
    requires |m| > 0 && m[0].0 != k
    requires k in Keys(m[1..]) ==> Keys(t) == Keys(m[1..])
    requires k !in Keys(m[1..]) ==> Keys(t) == Keys(m[1..]) + [k]
    ensures k in Keys(m) ==> Keys([m[0]] + t) == Keys(m)
    ensures k !in Keys(m) ==> Keys([m[0]] + t) == Keys(m) + [k]
  {
    var r := [m[0]] + t;
    assert r[1..] == t;
    assert Keys(m) == [m[0].0] + Keys(m[1..]);
    assert Keys(r) == [m[0].0] + Keys(t);
    assert k in Keys(m) <==> k in Keys(m[1..]);
    assert [m[0].0] + (Keys(m[1..]) + [k]) == ([m[0].0] + Keys(m[1..])) + [k];
  }

  /** Storing never duplicates a key. */
  lemma PutKeepsKeysUnique<V>(m: seq<(string, V)>, k: string, v: V)
    requires UniqueKeys(m)
    ensures UniqueKeys(Put(m, k, v))
  {
    var r := Put(m, k, v);
    var ks := Keys(r);
    var km := Keys(m);
    assert |ks| == |r| && |km| == |m|;
    forall i, j | 0 <= i < j < |r|
      ensures r[i].0 != r[j].0
    {
      assert ks[i] == r[i].0 && ks[j] == r[j].0;
      if k in km {
        assert ks == km;
        assert km[i] == m[i].0 && km[j] == m[j].0;
      } else if j < |m| {
        assert ks == km + [k];
        assert ks[i] == km[i] == m[i].0 && ks[j] == km[j] == m[j].0;
      } else {
        assert ks == km + [k];
        assert ks[j] == k && ks[i] == km[i];
      }
    }
  }
}
