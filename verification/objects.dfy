/**
 * Plain JavaScript objects used as dictionaries: keys in insertion order, one
 * value per key. `obj[key] = v` and `{...obj, [key]: v}` both replace the value
 * of an existing key where it stands and add a new key at the end.
 */
module Objects {
  import opened Wrappers

  /** `obj[key]`, `None` for a missing key. */
  function Find<V>(m: seq<(string, V)>, key: string): (r: Option<V>)
    ensures r.None? <==> forall i :: 0 <= i < |m| ==> m[i].0 != key
    ensures r.Some? ==> exists i :: 0 <= i < |m| && m[i] == (key, r.value)
  {
    if m == [] then None
    else if m[0].0 == key then Some(m[0].1)
    else Find(m[1..], key)
  }

  predicate DistinctKeys<V>(m: seq<(string, V)>) {
    forall i, j :: 0 <= i < j < |m| ==> m[i].0 != m[j].0
  }

  /** `obj[key] = v`. */
  function Put<V>(m: seq<(string, V)>, key: string, v: V): (r: seq<(string, V)>)
    ensures |r| == if Find(m, key).Some? then |m| else |m| + 1
    ensures forall i :: 0 <= i < |m| ==> r[i].0 == m[i].0
    ensures Find(m, key).None? ==> r[|m|] == (key, v)
  {
    if m == [] then [(key, v)]
    else if m[0].0 == key then [(key, v)] + m[1..]
    else [m[0]] + Put(m[1..], key, v)
  }

  /** After `obj[key] = v`, `key` reads `v` and every other key reads as before. */
  lemma {:induction false} FindPut<V>(m: seq<(string, V)>, key: string, v: V, other: string)
    ensures Find(Put(m, key, v), key) == Some(v)
    ensures other != key ==> Find(Put(m, key, v), other) == Find(m, other)
  {
    if m != [] && m[0].0 != key {
      FindPut(m[1..], key, v, other);
    }
  }

  /** Keys stay distinct under `obj[key] = v`. */
  lemma PutDistinct<V>(m: seq<(string, V)>, key: string, v: V)
    requires DistinctKeys(m)
    ensures DistinctKeys(Put(m, key, v))
  {
    var r := Put(m, key, v);
    forall i, j | 0 <= i < j < |r| ensures r[i].0 != r[j].0 {
      if j == |m| {
        assert Find(m, key).None?;
      }
    }
  }

  /** A new key goes at the end and everything before it stays as it was. */
  lemma {:induction false} PutNew<V>(m: seq<(string, V)>, key: string, v: V)
    requires Find(m, key).None?
    ensures Put(m, key, v) == m + [(key, v)]
  {
    if m != [] {
      PutNew(m[1..], key, v);
      assert m == [m[0]] + m[1..];
    }
  }
}
