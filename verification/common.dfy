/** Small sequence utilities shared by the whole model: an optional value,
    JavaScript's `filter`, `find`/`findIndex` and `slice(0, n)` over sequences.
 */
module Common {

  /** A value that may be missing (JavaScript's `undefined`/`null`). */
  datatype Option<T> = None | Some(value: T) {

    /** The value, or `default` when missing (JavaScript's `x || default`). */
    function GetOr(default: T): T {
      match this
      case Some(v) => v
      case None => default
    }
  }

  function Min(a: int, b: int): int {
    if a <= b then a else b
  }

  /** The first `n` elements of `s`, or all of `s` when it is shorter
      (JavaScript's `slice(0, n)`). */
  function Take<T>(s: seq<T>, n: nat): (r: seq<T>)
    ensures |r| == Min(|s|, n)
    ensures r == s[..|r|]
  {
    if |s| <= n then s else s[..n]
  }

  /** The elements of `s` that satisfy `p`, in their original order
      (JavaScript's `filter`). Defined from the back so that appending to
      `s` appends to the result. */
  function Filter<T>(s: seq<T>, p: T -> bool): (r: seq<T>)
    ensures |r| <= |s|
    ensures forall i :: 0 <= i < |r| ==> p(r[i])
    ensures multiset(r) <= multiset(s)
  {
    if |s| == 0 then []
    else
      var front := s[..|s| - 1];
      assert s == front + [s[|s| - 1]];
      Filter(front, p) + (if p(s[|s| - 1]) then [s[|s| - 1]] else [])
  }

  /** An element is kept exactly when it occurs in `s` and satisfies `p`. */
  lemma {:induction false} FilterMembership<T>(s: seq<T>, p: T -> bool, x: T)
    ensures x in Filter(s, p) <==> x in s && p(x)
  {
    if |s| > 0 {
      var front := s[..|s| - 1];
      FilterMembership(front, p, x);
      assert s == front + [s[|s| - 1]];
    }
  }

  /** A value occurring in `s` is kept as often as it occurs when it
      satisfies `p`, and not at all otherwise. */
  lemma {:induction false} FilterMultiplicity<T>(s: seq<T>, p: T -> bool, x: T)
    ensures multiset(Filter(s, p))[x] == if p(x) then multiset(s)[x] else 0
  {
    if |s| > 0 {
      var front, y := s[..|s| - 1], s[|s| - 1];
      assert s == front + [y];
      FilterMultiplicity(front, p, x);
      FilterAppend(front, y, p);
    }
  }

  /** How many elements of `s` satisfy `p` (`filter(p).length`). */
  function Count<T>(s: seq<T>, p: T -> bool): nat {
    |Filter(s, p)|
  }

  /** Filtering an appended sequence filters the new element on its own. */
  lemma FilterAppend<T>(s: seq<T>, x: T, p: T -> bool)
    ensures Filter(s + [x], p) == Filter(s, p) + (if p(x) then [x] else [])
  {
    assert (s + [x])[..|s + [x]| - 1] == s;
  }

  /** Filtering distributes over concatenation. */
  lemma {:induction false} FilterConcat<T>(a: seq<T>, b: seq<T>, p: T -> bool)
    ensures Filter(a + b, p) == Filter(a, p) + Filter(b, p)
    decreases |b|
  {
    if |b| == 0 {
      assert a + b == a;
    } else {
      var front, x := b[..|b| - 1], b[|b| - 1];
      var px := if p(x) then [x] else [];
      assert b == front + [x];
      assert a + b == (a + front) + [x];
      FilterConcat(a, front, p);
      FilterAppend(a + front, x, p);
      FilterAppend(front, x, p);
      calc {
        Filter(a + b, p);
        Filter(a + front, p) + px;
        (Filter(a, p) + Filter(front, p)) + px;
        Filter(a, p) + (Filter(front, p) + px);
        Filter(a, p) + Filter(b, p);
      }
    }
  }

  /** Counting over a sequence with one more element in front. */
  lemma CountCons<T>(x: T, s: seq<T>, p: T -> bool)
    ensures Count([x] + s, p) == (if p(x) then 1 else 0) + Count(s, p)
  {
    FilterConcat([x], s, p);
    FilterAppend([], x, p);
    assert [] + [x] == [x];
  }

  /** Filtering twice is filtering once by the conjunction. */
  lemma {:induction false} FilterFilter<T>(s: seq<T>, p: T -> bool, q: T -> bool, pq: T -> bool)
    requires forall x :: pq(x) == (p(x) && q(x))
    ensures Filter(Filter(s, p), q) == Filter(s, pq)
    decreases |s|
  {
    if |s| > 0 {
      var front, x := s[..|s| - 1], s[|s| - 1];
      assert s == front + [x];
      FilterFilter(front, p, q, pq);
      FilterAppend(front, x, p);
      FilterAppend(front, x, pq);
      if p(x) {
        FilterAppend(Filter(front, p), x, q);
      } else {
        assert Filter(s, p) == Filter(front, p);
      }
    }
  }

  /** When every element satisfies `p`, the filter keeps everything. */
  lemma {:induction false} FilterAll<T>(s: seq<T>, p: T -> bool)
    requires forall i :: 0 <= i < |s| ==> p(s[i])
    ensures Filter(s, p) == s
  {
    if |s| > 0 {
      var front := s[..|s| - 1];
      assert forall i :: 0 <= i < |front| ==> p(front[i]) by {
        forall i | 0 <= i < |front| ensures p(front[i]) {
          assert front[i] == s[i];
        }
      }
      FilterAll(front, p);
      assert p(s[|s| - 1]);
      calc {
        Filter(s, p);
        Filter(front, p) + [s[|s| - 1]];
        front + [s[|s| - 1]];
        s;
      }
    }
  }

  /** Splitting the elements satisfying `p` by a second predicate `q`. */
  lemma {:induction false} CountSplit<T>(s: seq<T>, p: T -> bool, q: T -> bool, pq: T -> bool, pnq: T -> bool)
    requires forall x :: pq(x) == (p(x) && q(x))
    requires forall x :: pnq(x) == (p(x) && !q(x))
    ensures Count(s, p) == Count(s, pq) + Count(s, pnq)
  {
    if |s| > 0 {
      CountSplit(s[..|s| - 1], p, q, pq, pnq);
    }
  }

  /** The index of the first element of `s` (at or after `from`) that satisfies `p`
      (JavaScript's `findIndex`, and `find` through the index). */
  function FindFrom<T>(s: seq<T>, p: T -> bool, from: nat): (r: Option<nat>)
    requires from <= |s|
    ensures r.Some? ==> from <= r.value < |s| && p(s[r.value])
    ensures r.Some? ==> forall j :: from <= j < r.value ==> !p(s[j])
    ensures r.None? <==> forall j :: from <= j < |s| ==> !p(s[j])
    decreases |s| - from
  {
    if from == |s| then None
    else if p(s[from]) then Some(from)
    else FindFrom(s, p, from + 1)
  }

  /** The index of the first element of `s` that satisfies `p`. */
  function Find<T>(s: seq<T>, p: T -> bool): (r: Option<nat>)
    ensures r.Some? ==> r.value < |s| && p(s[r.value])
    ensures r.Some? ==> forall j :: 0 <= j < r.value ==> !p(s[j])
    ensures r.None? <==> forall j :: 0 <= j < |s| ==> !p(s[j])
  {
    FindFrom(s, p, 0)
  }

  lemma SameMultisetSameLength<T>(a: seq<T>, b: seq<T>)
    requires multiset(a) == multiset(b)
    ensures |a| == |b|
  {
    assert |multiset(a)| == |a| && |multiset(b)| == |b|;
  }

  lemma PrefixMultiset<T>(s: seq<T>, n: nat)
    requires n <= |s|
    ensures multiset(s[..n]) <= multiset(s)
  {
    assert s == s[..n] + s[n..];
  }

  /** A sequence drawn from one whose elements all satisfy `p` satisfies `p` too. */
  lemma MultisetKeepsProperty<T>(a: seq<T>, b: seq<T>, p: T -> bool)
    requires multiset(a) <= multiset(b)
    requires forall i :: 0 <= i < |b| ==> p(b[i])
    ensures forall i :: 0 <= i < |a| ==> p(a[i])
  {
    forall i | 0 <= i < |a| ensures p(a[i]) {
      assert a[i] in multiset(a);
      assert a[i] in multiset(b);
      var k :| 0 <= k < |b| && b[k] == a[i];
    }
  }

  /** Nothing satisfies `p` exactly when the filter is empty. */
  lemma {:induction false} FilterEmpty<T>(s: seq<T>, p: T -> bool)
    ensures |Filter(s, p)| == 0 <==> forall i :: 0 <= i < |s| ==> !p(s[i])
  {
    if |s| > 0 {
      var front := s[..|s| - 1];
      FilterEmpty(front, p);
      assert forall i :: 0 <= i < |front| ==> front[i] == s[i];
    }
  }

  /** The last element kept by the filter is the last element of `s` that
      satisfies `p`. */
  lemma {:induction false} FilterLast<T>(s: seq<T>, p: T -> bool)
    requires |Filter(s, p)| > 0
    ensures exists i ::
      && 0 <= i < |s| && p(s[i]) && Filter(s, p)[|Filter(s, p)| - 1] == s[i]
      && forall j :: i < j < |s| ==> !p(s[j])
  {
    var front := s[..|s| - 1];
    if p(s[|s| - 1]) {
      assert Filter(s, p)[|Filter(s, p)| - 1] == s[|s| - 1];
    } else {
      assert Filter(s, p) == Filter(front, p);
      FilterLast(front, p);
      var i :|
        && 0 <= i < |front| && p(front[i]) && Filter(front, p)[|Filter(front, p)| - 1] == front[i]
        && forall j :: i < j < |front| ==> !p(front[j]);
      assert s[i] == front[i];
      assert forall j :: i < j < |s| ==> !p(s[j]) by {
        forall j | i < j < |s| ensures !p(s[j]) {
          if j < |front| {
            assert s[j] == front[j];
          }
        }
      }
    }
  }

  // ----- distinct keys -----

  /** No two elements of `s` share a key. */
  predicate DistinctKeys<T, K(==)>(s: seq<T>, key: T -> K) {
    forall i, j :: 0 <= i < j < |s| ==> key(s[i]) != key(s[j])
  }

  /** The keys of the elements of `s`. */
  function Keys<T, K>(s: seq<T>, key: T -> K): set<K> {
    set i | 0 <= i < |s| :: key(s[i])
  }

  /** With distinct keys there are as many keys as elements. */
  lemma {:induction false} DistinctKeysCount<T, K>(s: seq<T>, key: T -> K)
    requires DistinctKeys(s, key)
    ensures |Keys(s, key)| == |s|
  {
    if |s| > 0 {
      var front, y := s[..|s| - 1], s[|s| - 1];
      assert DistinctKeys(front, key) by {
        assert forall i :: 0 <= i < |front| ==> front[i] == s[i];
      }
      DistinctKeysCount(front, key);
      assert key(y) !in Keys(front, key) by {
        forall i | 0 <= i < |front| ensures key(front[i]) != key(y) {
          assert front[i] == s[i];
        }
      }
      assert Keys(s, key) == Keys(front, key) + {key(y)} by {
        forall k | k in Keys(s, key) ensures k in Keys(front, key) + {key(y)} {
          var i :| 0 <= i < |s| && key(s[i]) == k;
          if i < |front| {
            assert s[i] == front[i];
          }
        }
        forall k | k in Keys(front, key) + {key(y)} ensures k in Keys(s, key) {
          if k != key(y) {
            var i :| 0 <= i < |front| && key(front[i]) == k;
            assert s[i] == front[i];
          }
        }
      }
    }
  }

  /** Filtering keeps keys distinct. */
  lemma {:induction false} FilterKeepsDistinct<T, K>(s: seq<T>, p: T -> bool, key: T -> K)
    requires DistinctKeys(s, key)
    ensures DistinctKeys(Filter(s, p), key)
  {
    if |s| > 0 {
      var front, y := s[..|s| - 1], s[|s| - 1];
      assert s == front + [y];
      assert DistinctKeys(front, key) by {
        assert forall i :: 0 <= i < |front| ==> front[i] == s[i];
      }
      FilterKeepsDistinct(front, p, key);
      FilterAppend(front, y, p);
      if p(y) {
        assert forall i :: 0 <= i < |front| ==> key(front[i]) != key(y) by {
          forall i | 0 <= i < |front| ensures key(front[i]) != key(y) {
            assert front[i] == s[i];
          }
        }
        FilterAvoidsKey(front, p, key, key(y));
        AppendNewKey(Filter(front, p), y, key);
      }
    }
  }

  /** A key no element of `s` carries is carried by nothing the filter keeps. */
  lemma FilterAvoidsKey<T, K>(s: seq<T>, p: T -> bool, key: T -> K, k: K)
    requires forall i :: 0 <= i < |s| ==> key(s[i]) != k
    ensures forall i :: 0 <= i < |Filter(s, p)| ==> key(Filter(s, p)[i]) != k
  {
    var kept := Filter(s, p);
    forall i | 0 <= i < |kept| ensures key(kept[i]) != k {
      FilterMembership(s, p, kept[i]);
    }
  }

  /** Appending an element with a new key keeps keys distinct. */
  lemma AppendNewKey<T, K>(s: seq<T>, y: T, key: T -> K)
    requires DistinctKeys(s, key)
    requires forall i :: 0 <= i < |s| ==> key(s[i]) != key(y)
    ensures DistinctKeys(s + [y], key)
  {
    var r := s + [y];
    forall i, j | 0 <= i < j < |r| ensures key(r[i]) != key(r[j]) {
      assert r[i] == s[i];
    }
  }
}
