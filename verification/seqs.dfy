/** Sequence facts and JavaScript's `Array.prototype.filter`. */
module Seqs {

  lemma Associative<T>(x: seq<T>, y: seq<T>, z: seq<T>)
    ensures x + (y + z) == (x + y) + z
  {
  }

  lemma FirstThree<T>(s: seq<T>)
    requires |s| > 2
    ensures s == [s[0], s[1], s[2]] + s[3..]
  {
  }

  /** Two pieces of which one is empty can be appended in either order. */
  lemma SwapEmpty<T>(a: seq<T>, b: seq<T>, c: seq<T>)
    requires b == [] || c == []
    ensures (a + b) + c == (a + c) + b
  {
    if b == [] {
      assert a + b == a;
    } else {
      assert a + c == a;
    }
  }

  /** `s.filter(keep)`: the elements that satisfy `keep`, in their order. */
  function Filter<T>(s: seq<T>, keep: T -> bool): seq<T> {
    if s == [] then [] else (if keep(s[0]) then [s[0]] else []) + Filter(s[1..], keep)
  }

  lemma FilterSingleton<T>(x: T, keep: T -> bool)
    ensures Filter([x], keep) == if keep(x) then [x] else []
  {
    assert [x][1..] == [];
  }

  /** The filter keeps exactly the elements that satisfy `keep`, each as often as it occurs. */
  lemma {:induction false} FilterKeeps<T>(s: seq<T>, keep: T -> bool)
    ensures forall x :: x in Filter(s, keep) ==> keep(x)
    ensures forall x :: multiset(Filter(s, keep))[x] == if keep(x) then multiset(s)[x] else 0
  {
    if s != [] {
      FilterKeeps(s[1..], keep);
      assert s == [s[0]] + s[1..];
    }
  }

  /** The filter keeps the order: it distributes over concatenation. */
  lemma {:induction false} FilterConcat<T>(a: seq<T>, b: seq<T>, keep: T -> bool)
    ensures Filter(a + b, keep) == Filter(a, keep) + Filter(b, keep)
  {
    if a == [] {
      assert a + b == b;
    } else {
      FilterConcat(a[1..], b, keep);
      assert (a + b)[0] == a[0];
      assert (a + b)[1..] == a[1..] + b;
    }
  }

  /** A filter that every element passes changes nothing. */
  lemma {:induction false} FilterAll<T>(s: seq<T>, keep: T -> bool)
    requires forall x :: x in s ==> keep(x)
    ensures Filter(s, keep) == s
  {
    if s != [] {
      FilterAll(s[1..], keep);
      assert s == [s[0]] + s[1..];
    }
  }
}
