/** Sequence and map operations the source gets from JavaScript's `Set`,
    `Map` and `Array.prototype.filter`. */
module Collections {
  import opened Wrappers

  /** `Array.prototype.filter(p)`. */
  function Filter<T(!new)>(s: seq<T>, p: T -> bool): (r: seq<T>)
    ensures |r| <= |s|
    ensures forall x :: x in r <==> x in s && p(x)
  {
    if s == [] then [] else (if p(s[0]) then [s[0]] else []) + Filter(s[1..], p)
  }

  /** The elements that `Filter(s, p)` drops, in order. */
  function Reject<T(!new)>(s: seq<T>, p: T -> bool): (r: seq<T>)
    ensures |r| <= |s|
    ensures forall x :: x in r <==> x in s && !p(x)
  {
    if s == [] then [] else (if p(s[0]) then [] else [s[0]]) + Reject(s[1..], p)
  }

  /** Filtering and rejecting split a sequence into two parts that together hold each element once. */
  lemma {:induction false} FilterMultiset<T(!new)>(s: seq<T>, p: T -> bool)
    ensures multiset(Filter(s, p)) + multiset(Reject(s, p)) == multiset(s)
  {
    if s != [] {
      FilterMultiset(s[1..], p);
      MultisetCons(s);
      var head := if p(s[0]) then [s[0]] else [];
      var rest := if p(s[0]) then [] else [s[0]];
      assert Filter(s, p) == head + Filter(s[1..], p);
      assert Reject(s, p) == rest + Reject(s[1..], p);
      assert multiset(head) + multiset(rest) == multiset{s[0]};
    }
  }

  lemma MultisetCons<T>(s: seq<T>)
    requires s != []
    ensures multiset(s) == multiset{s[0]} + multiset(s[1..])
  {
    assert s == [s[0]] + s[1..];
  }

  /** When `p` holds of no element, the filter keeps nothing and the rejection keeps everything. */
  lemma {:induction false} FilterNone<T(!new)>(s: seq<T>, p: T -> bool)
    requires forall i :: 0 <= i < |s| ==> !p(s[i])
    ensures Filter(s, p) == [] && Reject(s, p) == s
  {
    if s != [] {
      FilterNone(s[1..], p);
      assert [s[0]] + s[1..] == s;
    }
  }

  /** The position of the first occurrence of `x` in `s`. */
  function FirstIndex<T(==)>(s: seq<T>, x: T): (k: nat)
    requires x in s
    ensures k < |s| && s[k] == x && x !in s[..k]
  {
    if s[0] == x then 0 else 1 + FirstIndex(s[1..], x)
  }

  predicate NoDuplicates<T(==)>(s: seq<T>) {
    forall i, j :: 0 <= i < j < |s| ==> s[i] != s[j]
  }

  /** A sequence has no repeats exactly when it holds each value at most once. */
  lemma {:induction false} NoDuplicatesCount<T>(s: seq<T>)
    ensures NoDuplicates(s) <==> forall x :: multiset(s)[x] <= 1
  {
    if s != [] {
      NoDuplicatesCount(s[1..]);
      MultisetCons(s);
      if NoDuplicates(s) {
        assert NoDuplicates(s[1..]);
        assert s[0] !in s[1..];
      } else {
        var i, j :| 0 <= i < j < |s| && s[i] == s[j];
        if i == 0 {
          assert s[1..][j - 1] == s[0];
          assert s[0] in multiset(s[1..]);
          assert multiset(s)[s[0]] >= 2;
        } else {
          assert s[1..][i - 1] == s[1..][j - 1];
          assert !NoDuplicates(s[1..]);
          var x :| multiset(s[1..])[x] > 1;
          assert multiset(s)[x] > 1;
        }
      }
    }
  }

  /** Rearranging a sequence keeps it free of repeats. */
  lemma PermutationNoDuplicates<T>(s: seq<T>, r: seq<T>)
    requires multiset(r) == multiset(s) && NoDuplicates(s)
    ensures NoDuplicates(r)
  {
    NoDuplicatesCount(s);
    NoDuplicatesCount(r);
  }

  /** Putting a new value in front of a list without repeats keeps it without repeats. */
  lemma ConsNoDuplicates<T>(x: T, t: seq<T>)
    requires x !in t && NoDuplicates(t)
    ensures NoDuplicates([x] + t)
  {
    var r := [x] + t;
    forall i, j | 0 <= i < j < |r| ensures r[i] != r[j] {
      assert r[j] == t[j - 1];
      if i > 0 {
        assert r[i] == t[i - 1];
      }
    }
  }

  /** Filtering keeps a sequence free of repeats. */
  lemma {:induction false} FilterNoDuplicates<T(!new)>(s: seq<T>, p: T -> bool)
    requires NoDuplicates(s)
    ensures NoDuplicates(Filter(s, p))
  {
    if s != [] {
      assert NoDuplicates(s[1..]);
      FilterNoDuplicates(s[1..], p);
      var rest := Filter(s[1..], p);
      if p(s[0]) {
        assert s[0] !in s[1..];
        ConsNoDuplicates(s[0], rest);
        assert [s[0]] + rest == Filter(s, p);
      } else {
        assert Filter(s, p) == rest;
      }
    }
  }

  /** `Array.from(new Set(s))`: the distinct elements of `s`, each at the place
      of its first occurrence. */
  function Distinct<T(==,!new)>(s: seq<T>): (r: seq<T>)
    ensures forall x :: x in r <==> x in s
    ensures NoDuplicates(r)
  {
    if s == [] then []
    else
      var d := Distinct(s[..|s| - 1]);
      var x := s[|s| - 1];
      assert forall y :: y in s <==> y in s[..|s| - 1] || y == x by {
        assert s == s[..|s| - 1] + [x];
      }
      if x in d then d else d + [x]
  }

  /** The elements of `Distinct(s)` are ordered by their first occurrence in `s`. */
  lemma {:induction false} DistinctFirstSeenOrder<T(!new)>(s: seq<T>)
    ensures forall i, j :: 0 <= i < j < |Distinct(s)| ==>
      FirstIndex(s, Distinct(s)[i]) < FirstIndex(s, Distinct(s)[j])
  {
    if s != [] {
      var p := s[..|s| - 1];
      var x := s[|s| - 1];
      DistinctFirstSeenOrder(p);
      var d := Distinct(p);
      var r := Distinct(s);
      assert s == p + [x];
      forall y | y in p ensures FirstIndex(s, y) == FirstIndex(p, y) {
        FirstIndexPrefix(p, [x], y);
      }
      forall i, j | 0 <= i < j < |r| ensures FirstIndex(s, r[i]) < FirstIndex(s, r[j]) {
        if j < |d| {
          assert r[i] == d[i] && r[j] == d[j];
        } else {
          assert x !in d && r[j] == x && r[i] == d[i];
          assert x !in p;
          assert FirstIndex(s, x) == |p|;
        }
      }
    }
  }

  lemma FirstIndexPrefix<T>(a: seq<T>, b: seq<T>, y: T)
    requires y in a
    ensures FirstIndex(a + b, y) == FirstIndex(a, y)
  {
    var k := FirstIndex(a, y);
    assert (a + b)[k] == y;
    assert (a + b)[..k] == a[..k];
  }

  /** The value paired with `k` by the LAST pair that names `k`. */
  function LastWith<K(==), V>(pairs: seq<(K, V)>, k: K): Option<V> {
    if pairs == [] then None
    else if pairs[|pairs| - 1].0 == k then Some(pairs[|pairs| - 1].1)
    else LastWith(pairs[..|pairs| - 1], k)
  }

  lemma {:induction false} LastWithMeaning<K, V>(pairs: seq<(K, V)>, k: K)
    ensures LastWith(pairs, k).None? <==> forall i :: 0 <= i < |pairs| ==> pairs[i].0 != k
    ensures LastWith(pairs, k).Some? ==>
      exists i :: (0 <= i < |pairs| && pairs[i] == (k, LastWith(pairs, k).value)
                   && forall j :: i < j < |pairs| ==> pairs[j].0 != k)
  {
    if pairs != [] {
      var n := |pairs| - 1;
      LastWithMeaning(pairs[..n], k);
      if pairs[n].0 != k {
        if LastWith(pairs, k).Some? {
          var i :| 0 <= i < n && pairs[..n][i] == (k, LastWith(pairs, k).value)
            && forall j :: i < j < n ==> pairs[..n][j].0 != k;
          assert pairs[i] == (k, LastWith(pairs, k).value);
        }
      }
    }
  }

  /** The pair that names `k` last is the one `LastWith` finds. */
  lemma {:induction false} LastWithAt<K, V>(pairs: seq<(K, V)>, i: nat, k: K)
    requires i < |pairs| && pairs[i].0 == k
    requires forall j :: i < j < |pairs| ==> pairs[j].0 != k
    ensures LastWith(pairs, k) == Some(pairs[i].1)
  {
    var n := |pairs| - 1;
    if i < n {
      LastWithAt(pairs[..n], i, k);
    }
  }

  /** `new Map(pairs)` and `obj[k] = v` applied in order: later pairs overwrite earlier ones. */
  function ToMap<K(==,!new), V>(pairs: seq<(K, V)>): (m: map<K, V>)
    ensures forall k :: k in m <==> LastWith(pairs, k).Some?
    ensures forall k :: k in m ==> m[k] == LastWith(pairs, k).value
  {
    if pairs == [] then map[]
    else
      var n := |pairs| - 1;
      ToMap(pairs[..n])[pairs[n].0 := pairs[n].1]
  }

  lemma ToMapSnoc<K(!new), V>(pairs: seq<(K, V)>, p: (K, V))
    ensures ToMap(pairs + [p]) == ToMap(pairs)[p.0 := p.1]
  {
    assert (pairs + [p])[..|pairs|] == pairs;
  }
}
