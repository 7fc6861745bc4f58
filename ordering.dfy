/** Ascending key order, as a `BTreeMap` iterates its keys. Strings compare
    lexicographically by character, which is the byte order of their UTF-8
    form; timestamps compare as integers. */
module Ordering {
  /** A strict total order. */
  ghost predicate IsStrictTotalOrder<K(!new)>(lt: (K, K) -> bool) {
    && (forall a :: !lt(a, a))
    && (forall a, b, c :: lt(a, b) && lt(b, c) ==> lt(a, c))
    && (forall a, b :: a != b ==> lt(a, b) || lt(b, a))
  }

  predicate StrLt(a: string, b: string)
    decreases |a|
  {
    if a == [] then b != []
    else b != [] && (a[0] < b[0] || (a[0] == b[0] && StrLt(a[1..], b[1..])))
  }

  lemma {:induction false} StrLtIrreflexive(a: string)
    ensures !StrLt(a, a)
    decreases |a|
  {
    if a != [] {
      StrLtIrreflexive(a[1..]);
    }
  }

  lemma {:induction false} StrLtTransitive(a: string, b: string, c: string)
    requires StrLt(a, b) && StrLt(b, c)
    ensures StrLt(a, c)
    decreases |a|
  {
    if a != [] && a[0] == b[0] && b[0] == c[0] {
      StrLtTransitive(a[1..], b[1..], c[1..]);
    }
  }

  lemma {:induction false} StrLtTotal(a: string, b: string)
    requires a != b
    ensures StrLt(a, b) || StrLt(b, a)
    decreases |a|
  {
    if a != [] && b != [] && a[0] == b[0] {
      assert a == [a[0]] + a[1..] && b == [b[0]] + b[1..];
      StrLtTotal(a[1..], b[1..]);
    }
  }

  lemma StrLtIsStrictTotalOrder()
    ensures IsStrictTotalOrder(StrLt)
  {
    forall a ensures !StrLt(a, a) {
      StrLtIrreflexive(a);
    }
    forall a, b, c | StrLt(a, b) && StrLt(b, c) ensures StrLt(a, c) {
      StrLtTransitive(a, b, c);
    }
    forall a, b | a != b ensures StrLt(a, b) || StrLt(b, a) {
      StrLtTotal(a, b);
    }
  }

  predicate IsLeast<K>(k: K, s: set<K>, lt: (K, K) -> bool) {
    k in s && forall o :: o in s ==> !lt(o, k)
  }

  lemma {:induction false} LeastExists<K(!new)>(s: set<K>, lt: (K, K) -> bool)
    requires s != {} && IsStrictTotalOrder(lt)
    ensures exists k :: IsLeast(k, s, lt)
    decreases |s|
  {
    var x :| x in s;
    if s != {x} {
      LeastExists(s - {x}, lt);
      var m :| IsLeast(m, s - {x}, lt);
      if lt(x, m) {
        assert IsLeast(x, s, lt);
      } else {
        assert IsLeast(m, s, lt);
      }
    } else {
      assert IsLeast(x, s, lt);
    }
  }

  /** The elements of `s` in ascending order. */
  function Sorted<K(!new)>(s: set<K>, lt: (K, K) -> bool): (ks: seq<K>)
    requires IsStrictTotalOrder(lt)
    ensures |ks| == |s|
    ensures forall k :: k in ks <==> k in s
    ensures forall i, j :: 0 <= i < j < |ks| ==> lt(ks[i], ks[j])
    decreases |s|
  {
    if s == {} then []
    else
      LeastExists(s, lt);
      var k :| IsLeast(k, s, lt);
      var rest := Sorted(s - {k}, lt);
      assert forall j :: 0 < j < |rest| + 1 ==> ([k] + rest)[j] == rest[j - 1];
      [k] + rest
  }

  /** An ascending sequence has no repeated element. */
  lemma SortedDistinct<K(!new)>(ks: seq<K>, lt: (K, K) -> bool)
    requires IsStrictTotalOrder(lt)
    requires forall i, j :: 0 <= i < j < |ks| ==> lt(ks[i], ks[j])
    ensures forall i, j :: 0 <= i < |ks| && 0 <= j < |ks| && ks[i] == ks[j] ==> i == j
  {
  }

  /** The keys of a string-keyed map, as a `BTreeMap` iterates them. */
  function SortedNames<V>(m: map<string, V>): (ks: seq<string>)
    ensures |ks| == |m|
    ensures forall k :: k in ks <==> k in m
  {
    StrLtIsStrictTotalOrder();
    Sorted(m.Keys, StrLt)
  }

  /** ... in ascending order, hence without repetition. */
  lemma SortedNamesAscending<V>(m: map<string, V>)
    ensures var ks := SortedNames(m);
      && (forall i, j :: 0 <= i < j < |ks| ==> StrLt(ks[i], ks[j]))
      && (forall i, j :: 0 <= i < |ks| && 0 <= j < |ks| && ks[i] == ks[j] ==> i == j)
  {
    StrLtIsStrictTotalOrder();
    var ks := SortedNames(m);
    assert ks == Sorted(m.Keys, StrLt);
    SortedDistinct(ks, StrLt);
  }

  /** `keys` lists every element of `m` exactly once. */
  ghost predicate Enumerates<K(!new)>(keys: seq<K>, m: set<K>) {
    && (forall k :: k in keys <==> k in m)
    && (forall i, j :: 0 <= i < |keys| && 0 <= j < |keys| && keys[i] == keys[j] ==> i == j)
  }

  /** The keys of a hash map in iteration order, which is unspecified: any
      enumeration of them. */
  method HashOrder<K(!new)>(keys: set<K>) returns (ks: seq<K>)
    ensures Enumerates(ks, keys) && |ks| == |keys|
  {
    ks := [];
    var remaining := keys;
    while remaining != {}
      invariant remaining <= keys
      invariant forall k :: k in ks <==> k in keys && k !in remaining
      invariant forall i, j :: 0 <= i < |ks| && 0 <= j < |ks| && ks[i] == ks[j] ==> i == j
      invariant |ks| + |remaining| == |keys|
      decreases remaining
    {
      var k :| k in remaining;
      ks := ks + [k];
      remaining := remaining - {k};
    }
  }
}
