/** Shared vocabulary: optional values, JavaScript-object dictionaries and order-keeping filters. */
module Common {

  datatype Option<+T> = None | Some(value: T) {
    function GetOr(default: T): T {
      match this
      case Some(v) => v
      case None => default
    }
  }

  /** No element occurs twice. */
  ghost predicate Distinct<T>(s: seq<T>) {
    forall i, j :: 0 <= i < j < |s| ==> s[i] != s[j]
  }

  /** A distinct sequence holds each value at most once. */
  lemma {:induction false} DistinctCounts<T>(s: seq<T>)
    requires Distinct(s)
    ensures forall x :: multiset(s)[x] <= 1
  {
    if s != [] {
      DistinctCounts(s[1..]);
      assert s == [s[0]] + s[1..];
      assert s[0] !in s[1..] by {
        forall i | 0 <= i < |s[1..]| ensures s[1..][i] != s[0] { assert s[1..][i] == s[i + 1]; }
      }
    }
  }

  /** Distinctness depends only on the multiset, so every permutation of a distinct sequence is distinct. */
  lemma {:induction false} DistinctPermutation<T>(a: seq<T>, b: seq<T>)
    requires Distinct(a) && multiset(a) == multiset(b)
    ensures Distinct(b)
  {
    DistinctCounts(a);
    forall i, j | 0 <= i < j < |b| ensures b[i] != b[j] {
      assert b == b[..j] + b[j..];
      assert b[i] in b[..j] && b[j] in b[j..];
      assert multiset(b)[b[j]] == multiset(b[..j])[b[j]] + multiset(b[j..])[b[j]];
    }
  }

  /** A distinct sequence has as many elements as the set of its elements. */
  lemma {:induction false} DistinctCard<T>(s: seq<T>)
    requires Distinct(s)
    ensures |set x | x in s| == |s|
  {
    if s != [] {
      var n := |s| - 1;
      assert Distinct(s[..n]);
      DistinctCard(s[..n]);
      assert s[n] !in s[..n];
      assert (set x | x in s) == (set x | x in s[..n]) + {s[n]} by {
        assert s == s[..n] + [s[n]];
      }
    }
  }

  /** Appending a new value keeps a sequence distinct. */
  lemma DistinctAppend<T>(s: seq<T>, x: T)
    requires Distinct(s) && x !in s
    ensures Distinct(s + [x])
  {
    assert forall i :: 0 <= i < |s| ==> (s + [x])[i] == s[i];
  }

  /**
   * A plain JavaScript object used as a dictionary: `keys` is the order in which
   * `Object.keys`/`Object.entries` visit the keys (insertion order) and `vals` the values.
   */
  datatype Dict<K(==,!new), V> = Dict(keys: seq<K>, vals: map<K, V>) {
    ghost predicate Valid() {
      && Distinct(keys)
      && (forall k :: k in vals <==> k in keys)
    }
  }

  /** Every recorded count is positive: the tallies only ever add 0.5 or 1. */
  ghost predicate Positive<K(!new)>(d: Dict<K, int>) {
    forall k :: k in d.vals ==> d.vals[k] > 0
  }

  function EmptyDict<K(==,!new), V>(): (d: Dict<K, V>)
    ensures d.Valid() && d.keys == [] && d.vals == map[]
  {
    Dict([], map[])
  }

  /** `d[k] || dflt` for a dictionary whose values are never falsy, or a missing key. */
  function Get<K(==,!new), V>(d: Dict<K, V>, k: K, dflt: V): V {
    if k in d.vals then d.vals[k] else dflt
  }

  /** `d[k] = v`: an existing key keeps its place, a new key goes last. */
  function Put<K(==,!new), V>(d: Dict<K, V>, k: K, v: V): (r: Dict<K, V>)
    ensures r.vals == d.vals[k := v]
    ensures k in d.vals ==> r.keys == d.keys
    ensures k !in d.vals ==> r.keys == d.keys + [k]
    ensures d.Valid() ==> r.Valid()
  {
    if k in d.vals then Dict(d.keys, d.vals[k := v]) else Dict(d.keys + [k], d.vals[k := v])
  }

  /** `d[k] = (d[k] || 0) + n`, the counter update every tally in the source performs. */
  function Bump<K(==,!new)>(d: Dict<K, int>, k: K, n: int): (r: Dict<K, int>)
    ensures Get(r, k, 0) == Get(d, k, 0) + n
    ensures forall j :: j != k ==> Get(r, j, 0) == Get(d, j, 0)
    ensures r.vals.Keys == d.vals.Keys + {k}
    ensures d.Valid() ==> r.Valid()
  {
    Put(d, k, Get(d, k, 0) + n)
  }

  /** `d[k] = Math.max(d[k] || 0, y)`. */
  function BumpMax<K(==,!new)>(d: Dict<K, int>, k: K, y: int): (r: Dict<K, int>)
    ensures Get(r, k, 0) >= Get(d, k, 0) && Get(r, k, 0) >= y
    ensures Get(r, k, 0) == Get(d, k, 0) || Get(r, k, 0) == y
    ensures forall j :: j != k ==> Get(r, j, 0) == Get(d, j, 0)
    ensures r.vals.Keys == d.vals.Keys + {k}
    ensures d.Valid() ==> r.Valid()
  {
    var old_ := Get(d, k, 0);
    Put(d, k, if old_ >= y then old_ else y)
  }

  /** `if (!d[k]) d[k] = []; d[k].push(x)`: appends to the list filed under `k`. */
  function Append<K(==,!new), V>(d: Dict<K, seq<V>>, k: K, x: V): (r: Dict<K, seq<V>>)
    ensures Get(r, k, []) == Get(d, k, []) + [x]
    ensures forall j :: j != k ==> Get(r, j, []) == Get(d, j, [])
    ensures r.vals.Keys == d.vals.Keys + {k}
    ensures k in d.vals ==> r.keys == d.keys
    ensures k !in d.vals ==> r.keys == d.keys + [k]
    ensures d.Valid() ==> r.Valid()
  {
    Put(d, k, Get(d, k, []) + [x])
  }

  /** `s.filter(p)`: the elements satisfying `p`, in their original order. */
  function Filter<T(!new)>(s: seq<T>, p: T -> bool): (r: seq<T>)
    ensures |r| <= |s|
    ensures forall x :: x in r <==> x in s && p(x)
    ensures forall i :: 0 <= i < |r| ==> p(r[i])
  {
    if s == [] then [] else (if p(s[0]) then [s[0]] else []) + Filter(s[1..], p)
  }

  /** Filtering a sequence extended at the end extends the filtered prefix by the last element, if it passes. */
  lemma FilterSnoc<T(!new)>(s: seq<T>, p: T -> bool)
    requires s != []
    ensures Filter(s, p) == Filter(s[..|s| - 1], p) + (if p(s[|s| - 1]) then [s[|s| - 1]] else [])
  {
    var n := |s| - 1;
    var last := [s[n]];
    assert s == s[..n] + last;
    assert last[1..] == [];
    assert Filter(last, p) == (if p(s[n]) then last else []) + Filter([], p);
    FilterAppend(s[..n], last, p);
  }

  /** Filtering distributes over concatenation. */
  lemma {:induction false} FilterAppend<T(!new)>(a: seq<T>, b: seq<T>, p: T -> bool)
    ensures Filter(a + b, p) == Filter(a, p) + Filter(b, p)
  {
    if a == [] {
      assert a + b == b;
    } else {
      assert (a + b)[0] == a[0];
      assert (a + b)[1..] == a[1..] + b;
      FilterAppend(a[1..], b, p);
    }
  }

  lemma {:induction false} FilterDistinct<T(!new)>(s: seq<T>, p: T -> bool)
    requires Distinct(s)
    ensures Distinct(Filter(s, p))
  {
    if s != [] {
      FilterDistinct(s[1..], p);
      var rest := Filter(s[1..], p);
      assert s[0] !in s[1..] by {
        forall i | 0 <= i < |s[1..]| ensures s[1..][i] != s[0] {
          assert s[1..][i] == s[i + 1];
        }
      }
      assert s[0] !in rest;
    }
  }

  /** Number of elements of `s` satisfying `p`: `s.filter(p).length`. */
  function CountWhere<T(!new)>(s: seq<T>, p: T -> bool): (n: nat)
    ensures n <= |s|
    ensures n == |Filter(s, p)|
  {
    if s == [] then 0 else (if p(s[0]) then 1 else 0) + CountWhere(s[1..], p)
  }

  /** Filtering by a weaker predicate keeps at least as many elements. */
  lemma {:induction false} CountWhereMonotone<T(!new)>(s: seq<T>, p: T -> bool, q: T -> bool)
    requires forall x :: x in s && p(x) ==> q(x)
    ensures CountWhere(s, p) <= CountWhere(s, q)
  {
    if s != [] {
      assert s[0] in s;
      forall x | x in s[1..] && p(x) ensures q(x) {
        assert x in s;
      }
      CountWhereMonotone(s[1..], p, q);
    }
  }
}
