/** The two orders the dashboard takes from the JavaScript engine: the
    stable `Array.prototype.sort` driven by a numeric comparator, and the
    order in which `Object.keys` / `Object.entries` list own properties. */
module Sorting {
  import opened Wrappers
  import opened Collections
  import Strings

  /** `cmp(a, b) > 0` for a comparator `(a, b) => ka - kb`, where a key of
      `None` is NaN: the difference is then NaN, which the sort reads as 0. */
  predicate After(ka: Option<int>, kb: Option<int>) {
    ka.Some? && kb.Some? && ka.value > kb.value
  }

  /** Puts `x` in front of the first element it does not come after. */
  function Insert<T>(x: T, s: seq<T>, key: T -> Option<int>): (r: seq<T>)
    ensures multiset(r) == multiset(s) + multiset{x}
  {
    if s == [] || !After(key(x), key(s[0])) then [x] + s
    else
      assert s == [s[0]] + s[1..];
      [s[0]] + Insert(x, s[1..], key)
  }

  /** `s.sort((a, b) => key(a) - key(b))`, as the stable sort that the
      language requires: each element goes before the later elements that
      it does not come after. */
  function SortBy<T>(s: seq<T>, key: T -> Option<int>): (r: seq<T>)
    ensures multiset(r) == multiset(s)
    ensures |r| == |s|
  {
    if s == [] then []
    else
      assert s == [s[0]] + s[1..];
      Insert(s[0], SortBy(s[1..], key), key)
  }

  predicate AllKeyed<T>(s: seq<T>, key: T -> Option<int>) {
    forall i :: 0 <= i < |s| ==> key(s[i]).Some?
  }

  /** No element comes after a later one: for numeric keys, ascending order. */
  predicate Ascending<T>(s: seq<T>, key: T -> Option<int>) {
    forall i, j :: 0 <= i < j < |s| ==> !After(key(s[i]), key(s[j]))
  }

  /** The elements of `s` whose key is `k`, in order. */
  function WithKey<T>(s: seq<T>, key: T -> Option<int>, k: int): seq<T> {
    if s == [] then [] else (if key(s[0]) == Some(k) then [s[0]] else []) + WithKey(s[1..], key, k)
  }

  lemma KeyedPermutation<T>(s: seq<T>, r: seq<T>, key: T -> Option<int>)
    requires AllKeyed(s, key) && multiset(r) == multiset(s)
    ensures AllKeyed(r, key)
  {
    forall i | 0 <= i < |r| ensures key(r[i]).Some? {
      assert r[i] in multiset(r);
      var j :| 0 <= j < |s| && s[j] == r[i];
    }
  }

  lemma {:induction false} InsertAscending<T>(x: T, s: seq<T>, key: T -> Option<int>)
    requires AllKeyed(s, key) && key(x).Some? && Ascending(s, key)
    ensures Ascending(Insert(x, s, key), key)
  {
    if s != [] && After(key(x), key(s[0])) {
      var t := Insert(x, s[1..], key);
      InsertAscending(x, s[1..], key);
      var r := [s[0]] + t;
      forall i, j | 0 <= i < j < |r| ensures !After(key(r[i]), key(r[j])) {
        if i == 0 {
          assert r[j] == t[j - 1] && t[j - 1] in multiset(t);
          assert r[j] == x || r[j] in multiset(s[1..]);
          if r[j] != x {
            var m :| 0 <= m < |s[1..]| && s[1..][m] == r[j];
            assert s[m + 1] == r[j];
          }
        } else {
          assert r[i] == t[i - 1] && r[j] == t[j - 1];
        }
      }
    }
  }

  /** With numeric keys throughout, the sort yields them in ascending order. */
  lemma {:induction false} SortAscending<T>(s: seq<T>, key: T -> Option<int>)
    requires AllKeyed(s, key)
    ensures Ascending(SortBy(s, key), key)
  {
    if s != [] {
      SortAscending(s[1..], key);
      KeyedPermutation(s[1..], SortBy(s[1..], key), key);
      InsertAscending(s[0], SortBy(s[1..], key), key);
    }
  }

  lemma {:induction false} InsertWithKey<T>(x: T, s: seq<T>, key: T -> Option<int>, k: int)
    requires AllKeyed(s, key) && key(x).Some? && Ascending(s, key)
    ensures WithKey(Insert(x, s, key), key, k)
         == (if key(x) == Some(k) then [x] else []) + WithKey(s, key, k)
  {
    var mx := if key(x) == Some(k) then [x] else [];
    if s != [] && After(key(x), key(s[0])) {
      var m0 := if key(s[0]) == Some(k) then [s[0]] else [];
      assert mx == [] || m0 == [];
      assert Ascending(s[1..], key);
      InsertWithKey(x, s[1..], key, k);
      var t := Insert(x, s[1..], key);
      var r := [s[0]] + t;
      assert r[0] == s[0] && r[1..] == t;
      calc {
        WithKey(r, key, k);
        m0 + WithKey(t, key, k);
        m0 + (mx + WithKey(s[1..], key, k));
        mx + (m0 + WithKey(s[1..], key, k));
        mx + WithKey(s, key, k);
      }
    } else {
      var r := [x] + s;
      assert r[0] == x && r[1..] == s;
      assert WithKey(r, key, k) == mx + WithKey(s, key, k);
    }
  }

  /** Stability: elements with equal keys keep their relative order. */
  lemma {:induction false} SortStable<T>(s: seq<T>, key: T -> Option<int>, k: int)
    requires AllKeyed(s, key)
    ensures WithKey(SortBy(s, key), key, k) == WithKey(s, key, k)
  {
    if s != [] {
      SortStable(s[1..], key, k);
      SortAscending(s[1..], key);
      KeyedPermutation(s[1..], SortBy(s[1..], key), key);
      InsertWithKey(s[0], SortBy(s[1..], key), key, k);
    }
  }

  /** An array index property key: the canonical decimal form of an integer from 0 to 2^32 - 2. */
  predicate IsArrayIndex(s: string) {
    Strings.IsDigits(s) && (s[0] != '0' || |s| == 1) && Strings.DigitsValue(s) < 0xFFFF_FFFF
  }

  function IndexValue(s: string): Option<int> {
    if IsArrayIndex(s) then Some(Strings.DigitsValue(s)) else None
  }

  lemma IndicesFirst(a: seq<string>, b: seq<string>)
    requires forall x :: x in a ==> IsArrayIndex(x)
    requires forall x :: x in b ==> !IsArrayIndex(x)
    ensures forall i, j :: 0 <= i < j < |a + b| && !IsArrayIndex((a + b)[i]) ==> !IsArrayIndex((a + b)[j])
  {
    forall i, j | 0 <= i < j < |a + b| && !IsArrayIndex((a + b)[i])
      ensures !IsArrayIndex((a + b)[j])
    {
      assert (a + b)[j] == b[j - |a|] && b[j - |a|] in b;
    }
  }

  /** The order in which `Object.keys` lists the own properties of an
      ordinary object whose distinct keys were created in the order `keys`:
      first the array-index keys in ascending numeric order, then the other
      keys in creation order. */
  function ObjectKeys(keys: seq<string>): seq<string> {
    SortBy(Filter(keys, IsArrayIndex), IndexValue) + Reject(keys, IsArrayIndex)
  }

  /** `Object.keys` lists every key once. */
  lemma ObjectKeysPermutation(keys: seq<string>)
    ensures multiset(ObjectKeys(keys)) == multiset(keys)
  {
    FilterMultiset(keys, IsArrayIndex);
  }

  /** Without array-index keys, `Object.keys` is creation order. */
  lemma ObjectKeysCreationOrder(keys: seq<string>)
    requires forall i :: 0 <= i < |keys| ==> !IsArrayIndex(keys[i])
    ensures ObjectKeys(keys) == keys
  {
    FilterNone(keys, IsArrayIndex);
  }

  /** The sorted array-index keys: all of them indices, in ascending order. */
  lemma SortedIndices(keys: seq<string>)
    ensures var sorted := SortBy(Filter(keys, IsArrayIndex), IndexValue);
      && (forall x :: x in sorted ==> IsArrayIndex(x))
      && Ascending(sorted, IndexValue)
  {
    var indices := Filter(keys, IsArrayIndex);
    var sorted := SortBy(indices, IndexValue);
    forall x | x in sorted ensures IsArrayIndex(x) {
      assert x in multiset(sorted);
      assert x in multiset(indices);
    }
    assert AllKeyed(indices, IndexValue) by {
      forall k | 0 <= k < |indices| ensures IndexValue(indices[k]).Some? {
        assert indices[k] in indices;
      }
    }
    SortAscending(indices, IndexValue);
  }

  /** Array-index keys come first, in ascending numeric order; the other keys follow. */
  lemma ObjectKeysIndicesFirst(keys: seq<string>)
    ensures var r := ObjectKeys(keys);
      && (forall i, j :: 0 <= i < j < |r| && !IsArrayIndex(r[i]) ==> !IsArrayIndex(r[j]))
      && (forall i, j :: 0 <= i < j < |r| && IsArrayIndex(r[j]) ==>
            Strings.DigitsValue(r[i]) <= Strings.DigitsValue(r[j]))
  {
    var sorted := SortBy(Filter(keys, IsArrayIndex), IndexValue);
    var others := Reject(keys, IsArrayIndex);
    var r := sorted + others;
    SortedIndices(keys);
    IndicesFirst(sorted, others);
    forall i, j | 0 <= i < j < |r| && IsArrayIndex(r[j])
      ensures Strings.DigitsValue(r[i]) <= Strings.DigitsValue(r[j])
    {
      assert r[i] == sorted[i] && r[j] == sorted[j];
      assert sorted[i] in sorted && sorted[j] in sorted;
      assert !After(IndexValue(sorted[i]), IndexValue(sorted[j]));
    }
  }
}
