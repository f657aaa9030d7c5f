/**
 * JSON-like values and records. A record is an insertion-ordered list of
 * fields, like a Python `dict` and like a BSON document: assignment to an
 * existing key keeps its position, a new key goes to the end, and `del`
 * removes the key.
 */
module Json {
  import opened Base

  datatype Value =
    | Null
    | Bool(b: bool)
    | Num(n: real)
    | Str(s: string)
    | Arr(items: seq<Value>)
    | Obj(fields: seq<Field>)

  datatype Field = Field(key: string, val: Value)

  /** A record (Python `Dict[str, Any]`, MongoDB document). */
  type Doc = seq<Field>

  /** The dict invariant: no key occurs twice. */
  predicate DistinctKeys(d: Doc) {
    forall i, j :: 0 <= i < j < |d| ==> d[i].key != d[j].key
  }

  function Keys(d: Doc): (r: set<string>)
    ensures forall i :: 0 <= i < |d| ==> d[i].key in r
    ensures forall k :: k in r ==> exists i :: 0 <= i < |d| && d[i].key == k
  {
    if d == [] then {} else {d[0].key} + Keys(d[1..])
  }

  /** `d.get(k)`: the value of the first field named `k`. */
  function Get(d: Doc, k: string): (r: Option<Value>)
    ensures r.Some? <==> k in Keys(d)
    ensures r.Some? ==> Field(k, r.value) in d
  {
    if d == [] then None
    else if d[0].key == k then Some(d[0].val)
    else Get(d[1..], k)
  }

  /** `d.get(k, default)`. */
  function GetOr(d: Doc, k: string, default: Value): Value {
    Get(d, k).GetOr(default)
  }

  /** `d[k] = v`: in place when `k` is present, appended otherwise. */
  function Put(d: Doc, k: string, v: Value): (r: Doc)
    ensures Keys(r) == Keys(d) + {k}
    ensures forall j :: Get(r, j) == if j == k then Some(v) else Get(d, j)
    ensures k in Keys(d) ==> |r| == |d|
    ensures k !in Keys(d) ==> r == d + [Field(k, v)]
    ensures |r| >= |d| && forall i :: 0 <= i < |d| ==> r[i].key == d[i].key
  {
    if k in Keys(d) then
      var r := Overwrite(d, k, v);
      SameKeys(d, r);
      r
    else
      AppendKeys(d, Field(k, v));
      d + [Field(k, v)]
  }

  /** The value of the first field named `k` replaced by `v`, every position kept. */
  function Overwrite(d: Doc, k: string, v: Value): (r: Doc)
    ensures |r| == |d| && forall i :: 0 <= i < |d| ==> r[i].key == d[i].key
    ensures forall j :: j != k ==> Get(r, j) == Get(d, j)
    ensures k in Keys(d) ==> Get(r, k) == Some(v)
  {
    if d == [] then []
    else if d[0].key == k then
      assert ([Field(k, v)] + d[1..])[1..] == d[1..];
      [Field(k, v)] + d[1..]
    else
      var rest := Overwrite(d[1..], k, v);
      assert ([d[0]] + rest)[1..] == rest;
      [d[0]] + rest
  }

  /** Records with the same key at every position have the same keys. */
  lemma SameKeys(a: Doc, b: Doc)
    requires |a| == |b| && forall i :: 0 <= i < |a| ==> a[i].key == b[i].key
    ensures Keys(a) == Keys(b)
  {
  }

  /** Appending a field with a new key. */
  lemma {:induction false} AppendKeys(d: Doc, f: Field)
    requires f.key !in Keys(d)
    ensures Keys(d + [f]) == Keys(d) + {f.key}
    ensures forall j :: Get(d + [f], j) == if j == f.key then Some(f.val) else Get(d, j)
  {
    if d != [] {
      assert (d + [f])[1..] == d[1..] + [f];
      AppendKeys(d[1..], f);
    }
  }

  /** `del d[k]`; every `del` of the source is guarded by a membership test. */
  function Del(d: Doc, k: string): (r: Doc)
    ensures Keys(r) == Keys(d) - {k}
    ensures forall j :: Get(r, j) == if j == k then None else Get(d, j)
    ensures |r| <= |d|
  {
    if d == [] then []
    else if d[0].key == k then Del(d[1..], k)
    else [d[0]] + Del(d[1..], k)
  }

  lemma PutKeepsDistinct(d: Doc, k: string, v: Value)
    requires DistinctKeys(d)
    ensures DistinctKeys(Put(d, k, v))
  {
  }

  lemma {:induction false} DelKeepsDistinct(d: Doc, k: string)
    requires DistinctKeys(d)
    ensures DistinctKeys(Del(d, k))
  {
    if d != [] {
      DistinctKeysTail(d);
      DelKeepsDistinct(d[1..], k);
      if d[0].key != k {
        assert Del(d, k) == [d[0]] + Del(d[1..], k);
        ConsDistinctKeys(d[0], Del(d[1..], k));
      }
    }
  }

  lemma DistinctKeysTail(d: Doc)
    requires d != [] && DistinctKeys(d)
    ensures DistinctKeys(d[1..]) && d[0].key !in Keys(d[1..])
  {
    assert forall i :: 0 <= i < |d[1..]| ==> d[1..][i] == d[i + 1];
  }

  /** A field whose key the rest lacks keeps the keys distinct. */
  lemma ConsDistinctKeys(f: Field, rest: Doc)
    requires DistinctKeys(rest) && f.key !in Keys(rest)
    ensures DistinctKeys([f] + rest)
  {
    var r := [f] + rest;
    forall i, j | 0 <= i < j < |r|
      ensures r[i].key != r[j].key
    {
      assert r[j] == rest[j - 1];
      if i > 0 {
        assert r[i] == rest[i - 1];
      }
    }
  }
}
