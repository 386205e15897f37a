/** The array operations the statistics, the stores and the music adapter
    use: `filter`, `slice(0, n)`, a stable `sort` by a numeric key in
    descending order (`(a, b) => key(b) - key(a)`), and the default `sort()`
    of a de-duplicated list of strings. */
module Sorting {
  import opened Wrappers

  /** `r` is `s` with some elements left out, the rest in their order. */
  ghost predicate Subsequence<T>(r: seq<T>, s: seq<T>)
    decreases |s|
  {
    if r == [] then true
    else if s == [] then false
    else (r[0] == s[0] && Subsequence(r[1..], s[1..])) || Subsequence(r, s[1..])
  }

  /** `s.filter(p)`: the elements satisfying `p`, in their original order. */
  function Filter<T>(s: seq<T>, p: T -> bool): (r: seq<T>)
    ensures Subsequence(r, s)
    ensures |r| <= |s|
    ensures forall i :: 0 <= i < |r| ==> r[i] in s && p(r[i])
    ensures forall i :: 0 <= i < |s| && p(s[i]) ==> s[i] in r
    ensures multiset(r) <= multiset(s)
    ensures (forall i :: 0 <= i < |s| ==> p(s[i])) ==> r == s
  {
    if s == [] then []
    else
      var rest := Filter(s[1..], p);
      FilterStep(s, rest, p);
      if p(s[0]) then
        assert ([s[0]] + rest)[1..] == rest;
        [s[0]] + rest
      else rest
  }

  /** One step of the filter: what holds of the filtered tail carries over
      to the filtered list. */
  lemma FilterStep<T>(s: seq<T>, rest: seq<T>, p: T -> bool)
    requires |s| > 0
    requires |rest| <= |s| - 1
    requires forall i :: 0 <= i < |rest| ==> rest[i] in s[1..] && p(rest[i])
    requires forall i :: 1 <= i < |s| && p(s[i]) ==> s[i] in rest
    requires multiset(rest) <= multiset(s[1..])
    requires (forall i :: 1 <= i < |s| ==> p(s[i])) ==> rest == s[1..]
    ensures var r := if p(s[0]) then [s[0]] + rest else rest;
      |r| <= |s|
      && (forall i :: 0 <= i < |r| ==> r[i] in s && p(r[i]))
      && (forall i :: 0 <= i < |s| && p(s[i]) ==> s[i] in r)
      && multiset(r) <= multiset(s)
      && ((forall i :: 0 <= i < |s| ==> p(s[i])) ==> r == s)
  {
    var r := if p(s[0]) then [s[0]] + rest else rest;
    FilterStepKept(s, rest, r, p);
    FilterStepFound(s, rest, r, p);
    FilterStepSize(s, rest, r, p);
    FilterStepAll(s, rest, r, p);
  }

  lemma FilterStepSize<T>(s: seq<T>, rest: seq<T>, r: seq<T>, p: T -> bool)
    requires |s| > 0
    requires |rest| <= |s| - 1
    requires multiset(rest) <= multiset(s[1..])
    requires r == if p(s[0]) then [s[0]] + rest else rest
    ensures |r| <= |s| && multiset(r) <= multiset(s)
  {
    assert s == [s[0]] + s[1..];
    assert multiset(s) == multiset{s[0]} + multiset(s[1..]);
    if p(s[0]) {
      assert multiset(r) == multiset{s[0]} + multiset(rest);
    }
  }

  lemma FilterStepAll<T>(s: seq<T>, rest: seq<T>, r: seq<T>, p: T -> bool)
    requires |s| > 0
    requires (forall i :: 1 <= i < |s| ==> p(s[i])) ==> rest == s[1..]
    requires r == if p(s[0]) then [s[0]] + rest else rest
    ensures (forall i :: 0 <= i < |s| ==> p(s[i])) ==> r == s
  {
    if forall i :: 0 <= i < |s| ==> p(s[i]) {
      assert p(s[0]);
      assert rest == s[1..];
      assert s == [s[0]] + s[1..];
    }
  }

  lemma FilterStepKept<T>(s: seq<T>, rest: seq<T>, r: seq<T>, p: T -> bool)
    requires |s| > 0
    requires forall i :: 0 <= i < |rest| ==> rest[i] in s[1..] && p(rest[i])
    requires r == if p(s[0]) then [s[0]] + rest else rest
    ensures forall i :: 0 <= i < |r| ==> r[i] in s && p(r[i])
  {
    forall i | 0 <= i < |r| ensures r[i] in s && p(r[i]) {
      if p(s[0]) && i == 0 {
      } else {
        var k := if p(s[0]) then i - 1 else i;
        assert r[i] == rest[k];
        assert rest[k] in s[1..];
      }
    }
  }

  lemma FilterStepFound<T>(s: seq<T>, rest: seq<T>, r: seq<T>, p: T -> bool)
    requires |s| > 0
    requires forall i :: 1 <= i < |s| && p(s[i]) ==> s[i] in rest
    requires r == if p(s[0]) then [s[0]] + rest else rest
    ensures forall i :: 0 <= i < |s| && p(s[i]) ==> s[i] in r
  {
  }


  /** The filter removes something exactly when some element fails the test. */
  lemma {:induction false} FilterLength<T>(s: seq<T>, p: T -> bool)
    ensures |Filter(s, p)| == |s| <==> forall i :: 0 <= i < |s| ==> p(s[i])
  {
    if s != [] {
      var rest := Filter(s[1..], p);
      FilterLength(s[1..], p);
      if p(s[0]) {
        assert Filter(s, p) == [s[0]] + rest;
        AllTail(s, p);
      } else {
        assert Filter(s, p) == rest;
      }
    }
  }

  lemma AllTail<T>(s: seq<T>, p: T -> bool)
    requires |s| > 0 && p(s[0])
    ensures (forall i :: 0 <= i < |s| ==> p(s[i])) <==> (forall i :: 0 <= i < |s[1..]| ==> p(s[1..][i]))
  {
    if forall i :: 0 <= i < |s[1..]| ==> p(s[1..][i]) {
      forall i | 1 <= i < |s| ensures p(s[i]) {
        assert s[i] == s[1..][i - 1];
      }
    }
  }


  /** Filtering a non-empty list: the first element, if kept, then the
      filtered rest. */
  lemma FilterCons<T>(s: seq<T>, p: T -> bool)
    requires s != []
    ensures |Filter(s, p)| == (if p(s[0]) then 1 else 0) + |Filter(s[1..], p)|
    ensures p(s[0]) ==> Filter(s, p)[0] == s[0]
    ensures p(s[0]) ==> forall i :: 0 < i < |Filter(s, p)| ==> Filter(s, p)[i] == Filter(s[1..], p)[i - 1]
    ensures !p(s[0]) ==> Filter(s, p) == Filter(s[1..], p)
  {
    if p(s[0]) {
      assert Filter(s, p) == [s[0]] + Filter(s[1..], p);
    }
  }

  /** A subsequence holds each element at most as often as the list does. */
  lemma {:induction false} SubsequenceMultiset<T>(r: seq<T>, s: seq<T>)
    requires Subsequence(r, s)
    ensures multiset(r) <= multiset(s)
    decreases |s|
  {
    if r != [] {
      assert s == [s[0]] + s[1..];
      if r[0] == s[0] && Subsequence(r[1..], s[1..]) {
        SubsequenceMultiset(r[1..], s[1..]);
        assert r == [r[0]] + r[1..];
      } else {
        SubsequenceMultiset(r, s[1..]);
      }
    }
  }

  /** The filter is the only subsequence of `s` that keeps exactly the
      elements passing the test, each as often as `s` holds it. */
  lemma {:induction false} FilterUnique<T>(r: seq<T>, s: seq<T>, p: T -> bool)
    requires Subsequence(r, s)
    requires forall x :: multiset(r)[x] == if p(x) then multiset(s)[x] else 0
    ensures r == Filter(s, p)
    decreases |s|
  {
    if s == [] {
      assert multiset(r) == multiset{};
    } else {
      assert s == [s[0]] + s[1..];
      assert multiset(s) == multiset{s[0]} + multiset(s[1..]);
      if r == [] {
        FilterNone(s, p);
      } else if r[0] == s[0] && Subsequence(r[1..], s[1..]) {
        assert r == [r[0]] + r[1..];
        assert multiset(r) == multiset{r[0]} + multiset(r[1..]);
        assert p(s[0]);
        FilterUnique(r[1..], s[1..], p);
      } else {
        assert Subsequence(r, s[1..]);
        SubsequenceMultiset(r, s[1..]);
        assert multiset(r)[s[0]] < multiset(s)[s[0]];
        FilterUnique(r, s[1..], p);
      }
    }
  }

  /** Nothing of `s` passes the test: the filter is empty. */
  lemma {:induction false} FilterNone<T>(s: seq<T>, p: T -> bool)
    requires forall x :: p(x) ==> multiset(s)[x] == 0
    ensures Filter(s, p) == []
  {
    if s != [] {
      assert s == [s[0]] + s[1..];
      assert multiset(s) == multiset{s[0]} + multiset(s[1..]);
      FilterNone(s[1..], p);
    }
  }

  /** Filtering commutes with taking the elements of one key. */
  lemma {:induction false} FilterWithKey<T>(s: seq<T>, p: T -> bool, key: T -> int, k: int)
    ensures WithKey(Filter(s, p), key, k) == Filter(WithKey(s, key, k), p)
  {
    if s != [] {
      FilterWithKey(s[1..], p, key, k);
      var rest := Filter(s[1..], p);
      var w := WithKey(s[1..], key, k);
      if key(s[0]) == k {
        assert WithKey(s, key, k) == [s[0]] + w;
        assert ([s[0]] + w)[1..] == w;
      } else {
        assert WithKey(s, key, k) == w;
      }
      if p(s[0]) {
        assert ([s[0]] + rest)[1..] == rest;
      }
    }
  }

  lemma FilterWithKeyAll<T>(s: seq<T>, p: T -> bool, key: T -> int)
    ensures forall k :: WithKey(Filter(s, p), key, k) == Filter(WithKey(s, key, k), p)
  {
    forall k ensures WithKey(Filter(s, p), key, k) == Filter(WithKey(s, key, k), p) {
      FilterWithKey(s, p, key, k);
    }
  }

  /** How often the filter keeps an element: as often as `s` holds it when
      it passes the test, never otherwise. */
  lemma {:induction false} FilterCount<T>(s: seq<T>, p: T -> bool, x: T)
    ensures multiset(Filter(s, p))[x] == if p(x) then multiset(s)[x] else 0
  {
    if s != [] {
      var rest := Filter(s[1..], p);
      FilterCount(s[1..], p, x);
      assert s == [s[0]] + s[1..];
      assert multiset(s) == multiset{s[0]} + multiset(s[1..]);
      if p(s[0]) {
        assert Filter(s, p) == [s[0]] + rest;
        assert multiset(Filter(s, p)) == multiset{s[0]} + multiset(rest);
      } else {
        assert Filter(s, p) == rest;
      }
    }
  }

  lemma FilterCountAll<T>(s: seq<T>, p: T -> bool)
    ensures forall x :: multiset(Filter(s, p))[x] == if p(x) then multiset(s)[x] else 0
  {
    forall x ensures multiset(Filter(s, p))[x] == if p(x) then multiset(s)[x] else 0 {
      FilterCount(s, p, x);
    }
  }

  /** Filtering two lists holding the same elements gives lists holding the same elements. */
  lemma FilterSameElements<T>(a: seq<T>, b: seq<T>, p: T -> bool)
    requires multiset(a) == multiset(b)
    ensures multiset(Filter(a, p)) == multiset(Filter(b, p))
  {
    forall x ensures multiset(Filter(a, p))[x] == multiset(Filter(b, p))[x] {
      FilterCount(a, p, x);
      FilterCount(b, p, x);
    }
  }

  /** The filter keeps a list sorted by a descending key sorted. */
  lemma {:induction false} FilterSorted<T>(s: seq<T>, p: T -> bool, key: T -> int)
    requires SortedDesc(s, key)
    ensures SortedDesc(Filter(s, p), key)
  {
    if s != [] {
      FilterSorted(s[1..], p, key);
      var rest := Filter(s[1..], p);
      if p(s[0]) {
        var r := [s[0]] + rest;
        forall i, j | 0 <= i < j < |r| ensures key(r[i]) >= key(r[j]) {
          if i == 0 {
            assert r[j] in s[1..];
          }
        }
      }
    }
  }

  /** No two elements of `s` share a key. */
  predicate Distinct<T, K(==)>(s: seq<T>, key: T -> K) {
    forall i, j :: 0 <= i < j < |s| ==> key(s[i]) != key(s[j])
  }

  /** Filtering a list whose keys are distinct leaves them distinct. */
  lemma {:induction false} FilterDistinct<T, K>(s: seq<T>, p: T -> bool, key: T -> K)
    requires Distinct(s, key)
    ensures Distinct(Filter(s, p), key)
  {
    if s != [] {
      FilterDistinct(s[1..], p, key);
      var rest := Filter(s[1..], p);
      if p(s[0]) {
        var r := [s[0]] + rest;
        forall i, j | 0 <= i < j < |r| ensures key(r[i]) != key(r[j]) {
          if i == 0 {
            assert r[j] in s[1..];
          }
        }
      }
    }
  }

  /** `s.findIndex(p)`, with -1 read as `None`. */
  function FindFirst<T>(s: seq<T>, p: T -> bool): (r: Option<nat>)
    ensures r.Some? ==> r.value < |s| && p(s[r.value])
    ensures r.Some? ==> forall j :: 0 <= j < r.value ==> !p(s[j])
    ensures r.None? <==> forall j :: 0 <= j < |s| ==> !p(s[j])
  {
    if s == [] then None
    else if p(s[0]) then Some(0)
    else
      match FindFirst(s[1..], p)
      case None => None
      case Some(i) => Some(i + 1)
  }

  /** `s.map(f)`. */
  function MapSeq<T, U>(s: seq<T>, f: T -> U): (r: seq<U>)
    ensures |r| == |s|
  {
    if s == [] then [] else [f(s[0])] + MapSeq(s[1..], f)
  }

  lemma {:induction false} MapSeqAt<T, U>(s: seq<T>, f: T -> U, i: nat)
    requires i < |s|
    ensures MapSeq(s, f)[i] == f(s[i])
  {
    if i > 0 {
      MapSeqAt(s[1..], f, i - 1);
    }
  }

  lemma {:induction false} MapConcat<T, U>(s: seq<T>, t: seq<T>, f: T -> U)
    ensures MapSeq(s + t, f) == MapSeq(s, f) + MapSeq(t, f)
  {
    if s != [] {
      MapConcat(s[1..], t, f);
      assert (s + t)[1..] == s[1..] + t;
    } else {
      assert s + t == t;
    }
  }

  lemma MultisetRemoveAt<T>(b: seq<T>, j: nat)
    requires j < |b|
    ensures multiset(b[..j] + b[j + 1..]) == multiset(b) - multiset{b[j]}
  {
    assert b == b[..j] + [b[j]] + b[j + 1..];
  }

  /** Mapping a list maps the element at `j` and the rest of the list separately. */
  lemma MapMiddle<T, U>(pre: seq<T>, x: T, post: seq<T>, f: T -> U)
    ensures MapSeq(pre + [x] + post, f) == MapSeq(pre, f) + [f(x)] + MapSeq(post, f)
  {
    MapConcat(pre + [x], post, f);
    MapConcat(pre, [x], f);
    assert MapSeq([x], f) == [f(x)];
  }

  lemma MultisetMiddle<U>(a: seq<U>, y: U, c: seq<U>)
    ensures multiset(a + [y] + c) == multiset(a + c) + multiset{y}
  {
  }

  lemma SplitAt<T>(b: seq<T>, j: nat)
    requires j < |b|
    ensures b == b[..j] + [b[j]] + b[j + 1..]
  {
  }

  lemma MapRemoveAt<T, U>(b: seq<T>, j: nat, f: T -> U)
    requires j < |b|
    ensures multiset(MapSeq(b, f)) == multiset(MapSeq(b[..j] + b[j + 1..], f)) + multiset{f(b[j])}
  {
    var pre, post := b[..j], b[j + 1..];
    SplitAt(b, j);
    MapMiddle(pre, b[j], post, f);
    MapConcat(pre, post, f);
    MultisetMiddle(MapSeq(pre, f), f(b[j]), MapSeq(post, f));
  }

  lemma IndexOfElement<T>(b: seq<T>, x: T) returns (j: nat)
    requires x in multiset(b)
    ensures j < |b| && b[j] == x
  {
    assert x in b;
    j :| 0 <= j < |b| && b[j] == x;
  }

  /** The inductive step: `a`'s head sits at `j` in `b`, and the rests map alike. */
  lemma MapSameStep<T, U>(a: seq<T>, b: seq<T>, j: nat, f: T -> U)
    requires |a| > 0 && j < |b| && b[j] == a[0]
    requires multiset(MapSeq(a[1..], f)) == multiset(MapSeq(b[..j] + b[j + 1..], f))
    ensures multiset(MapSeq(a, f)) == multiset(MapSeq(b, f))
  {
    MapRemoveAt(b, j, f);
    assert MapSeq(a, f) == [f(a[0])] + MapSeq(a[1..], f);
  }

  lemma MultisetTail<T>(a: seq<T>)
    requires |a| > 0
    ensures multiset(a[1..]) == multiset(a) - multiset{a[0]}
  {
    assert a == [a[0]] + a[1..];
  }

  /** Mapping two lists holding the same elements gives lists holding the same elements. */
  lemma {:induction false} MapSameElements<T, U>(a: seq<T>, b: seq<T>, f: T -> U)
    requires multiset(a) == multiset(b)
    ensures multiset(MapSeq(a, f)) == multiset(MapSeq(b, f))
    decreases |a|
  {
    if a == [] {
      assert |b| == |multiset(b)| == 0;
    } else {
      var j := IndexOfElement(b, a[0]);
      MultisetRemoveAt(b, j);
      MultisetTail(a);
      MapSameElements(a[1..], b[..j] + b[j + 1..], f);
      MapSameStep(a, b, j, f);
    }
  }



  /** `s.slice(0, n)`. */
  function Take<T>(s: seq<T>, n: nat): (r: seq<T>)
    ensures |r| == if |s| <= n then |s| else n
    ensures r <= s
  {
    if |s| <= n then s else s[..n]
  }

  // ---------------------------------------------------------------------
  // Stable sort by a key, largest key first

  ghost predicate SortedDesc<T>(s: seq<T>, key: T -> int) {
    forall i, j :: 0 <= i < j < |s| ==> key(s[i]) >= key(s[j])
  }

  /** The elements of `s` whose key is `k`, in order: a stable sort keeps
      this subsequence unchanged for every `k`. */
  function WithKey<T>(s: seq<T>, key: T -> int, k: int): seq<T> {
    if s == [] then [] else (if key(s[0]) == k then [s[0]] else []) + WithKey(s[1..], key, k)
  }

  /** Inserts `x` before the first element whose key is not larger than its own. */
  function Insert<T>(x: T, s: seq<T>, key: T -> int): (r: seq<T>)
    ensures |r| == |s| + 1
    ensures multiset(r) == multiset(s) + multiset{x}
  {
    if s != [] && key(s[0]) > key(x) then
      assert s == [s[0]] + s[1..];
      [s[0]] + Insert(x, s[1..], key)
    else [x] + s
  }

  /** `s.sort((a, b) => key(b) - key(a))`, which is stable in ECMAScript 2019
      and later: the result is a permutation of `s` (see SortDescSorted and
      SortDescStable for order and stability). */
  function SortDesc<T>(s: seq<T>, key: T -> int): (r: seq<T>)
    ensures |r| == |s|
    ensures multiset(r) == multiset(s)
  {
    if s == [] then []
    else
      assert s == [s[0]] + s[1..];
      Insert(s[0], SortDesc(s[1..], key), key)
  }

  lemma {:induction false} InsertSorted<T>(x: T, s: seq<T>, key: T -> int)
    requires SortedDesc(s, key)
    ensures SortedDesc(Insert(x, s, key), key)
  {
    if s != [] && key(s[0]) > key(x) {
      var t := Insert(x, s[1..], key);
      InsertSorted(x, s[1..], key);
      InsertBounded(x, s[1..], key, key(s[0]));
      var r := Insert(x, s, key);
      assert r == [s[0]] + t;
      forall i, j | 0 <= i < j < |r| ensures key(r[i]) >= key(r[j]) {
        if i > 0 {
          assert r[i] == t[i - 1] && r[j] == t[j - 1];
        } else {
          assert r[j] == t[j - 1];
        }
      }
    } else {
      var r := Insert(x, s, key);
      assert r == [x] + s;
      forall i, j | 0 <= i < j < |r| ensures key(r[i]) >= key(r[j]) {
        if i > 0 {
          assert r[i] == s[i - 1] && r[j] == s[j - 1];
        } else {
          assert r[j] == s[j - 1];
          if s != [] {
            assert key(s[0]) >= key(s[j - 1]);
          }
        }
      }
    }
  }

  /** Inserting into a list bounded by `b` an element bounded by `b` keeps it bounded. */
  lemma InsertBounded<T>(x: T, s: seq<T>, key: T -> int, b: int)
    requires key(x) <= b
    requires forall i :: 0 <= i < |s| ==> key(s[i]) <= b
    ensures forall i :: 0 <= i < |Insert(x, s, key)| ==> key(Insert(x, s, key)[i]) <= b
  {
    var r := Insert(x, s, key);
    forall i | 0 <= i < |r| ensures key(r[i]) <= b {
      assert r[i] in multiset(r);
      assert r[i] in multiset(s) || r[i] == x;
    }
  }


  /** The sorted list has non-increasing keys. */
  lemma {:induction false} SortDescSorted<T>(s: seq<T>, key: T -> int)
    ensures SortedDesc(SortDesc(s, key), key)
  {
    if s != [] {
      SortDescSorted(s[1..], key);
      InsertSorted(s[0], SortDesc(s[1..], key), key);
    }
  }

  lemma {:induction false} WithKeyInsert<T>(x: T, s: seq<T>, key: T -> int, k: int)
    ensures WithKey(Insert(x, s, key), key, k)
         == (if key(x) == k then [x] else []) + WithKey(s, key, k)
  {
    var r := Insert(x, s, key);
    if s != [] && key(s[0]) > key(x) {
      WithKeyInsert(x, s[1..], key, k);
      assert r[0] == s[0] && r[1..] == Insert(x, s[1..], key);
      assert WithKey(r, key, k) == (if key(s[0]) == k then [s[0]] else []) + WithKey(r[1..], key, k);
      assert WithKey(s, key, k) == (if key(s[0]) == k then [s[0]] else []) + WithKey(s[1..], key, k);
      if key(x) == k {
        assert key(s[0]) != k;
      }
    } else {
      assert r == [x] + s && r[1..] == s;
    }
  }

  /** Stability: elements with equal keys keep their relative order. */
  lemma {:induction false} SortDescStable<T>(s: seq<T>, key: T -> int, k: int)
    ensures WithKey(SortDesc(s, key), key, k) == WithKey(s, key, k)
  {
    if s != [] {
      SortDescStable(s[1..], key, k);
      WithKeyInsert(s[0], SortDesc(s[1..], key), key, k);
    }
  }

  lemma SortDescStableAll<T>(s: seq<T>, key: T -> int)
    ensures forall k :: WithKey(SortDesc(s, key), key, k) == WithKey(s, key, k)
  {
    forall k ensures WithKey(SortDesc(s, key), key, k) == WithKey(s, key, k) {
      SortDescStable(s, key, k);
    }
  }

  /** Index of the first element of `s` with the largest key. */
  function FirstMaxIndex<T>(s: seq<T>, key: T -> int): (i: nat)
    requires |s| > 0
    ensures i < |s|
    ensures forall j :: 0 <= j < |s| ==> key(s[j]) <= key(s[i])
    ensures forall j :: 0 <= j < i ==> key(s[j]) < key(s[i])
  {
    if |s| == 1 then 0
    else
      var m := FirstMaxIndex(s[1..], key);
      if key(s[0]) >= key(s[1..][m]) then 0 else m + 1
  }

  /** The head of the stable descending sort is the first element with the
      largest key: ties go to the element that came first. */
  lemma {:induction false} SortDescHead<T>(s: seq<T>, key: T -> int)
    requires |s| > 0
    ensures SortDesc(s, key)[0] == s[FirstMaxIndex(s, key)]
  {
    if |s| > 1 {
      SortDescHead(s[1..], key);
    }
  }

  /** What survives `Take(SortDesc(s, key), n)`: every element cut off has a
      key no larger than any element kept. */
  lemma TopKeysKept<T>(s: seq<T>, key: T -> int, n: nat, i: nat, j: nat)
    requires i < n && i < |s| && n <= j < |s|
    ensures key(SortDesc(s, key)[j]) <= key(Take(SortDesc(s, key), n)[i])
  {
    SortDescSorted(s, key);
  }

  /** `s.sort((a, b) => key(b) - key(a)).slice(0, n)`: the `n` elements with
      the largest keys. */
  function TopN<T>(s: seq<T>, key: T -> int, n: nat): seq<T> {
    Take(SortDesc(s, key), n)
  }

  /** The top `n` are `n` elements of `s` (or all of them), by non-increasing
      key, and no element left out has a larger key than an element kept. */
  lemma TopNFacts<T>(s: seq<T>, key: T -> int, n: nat)
    ensures |TopN(s, key, n)| == if |s| < n then |s| else n
    ensures multiset(TopN(s, key, n)) <= multiset(s)
    ensures forall i, j :: 0 <= i < j < |TopN(s, key, n)| ==> key(TopN(s, key, n)[i]) >= key(TopN(s, key, n)[j])
    ensures forall x, i :: x in s && x !in TopN(s, key, n) && 0 <= i < |TopN(s, key, n)| ==> key(x) <= key(TopN(s, key, n)[i])
    ensures forall x, i :: multiset(TopN(s, key, n))[x] < multiset(s)[x] && 0 <= i < |TopN(s, key, n)| ==>
      key(x) <= key(TopN(s, key, n)[i])
  {
    var sorted := SortDesc(s, key);
    var top := TopN(s, key, n);
    SortDescSorted(s, key);
    assert sorted == top + sorted[|top|..];
    assert multiset(sorted) == multiset(top) + multiset(sorted[|top|..]);
    TopNCopies(s, key, n);
    TopNLeftOut(s, key, n);
  }

  /** An element of `s` that is not kept has a key no greater than any kept
      element's. */
  lemma TopNLeftOut<T>(s: seq<T>, key: T -> int, n: nat)
    ensures forall x, i :: x in s && x !in TopN(s, key, n) && 0 <= i < |TopN(s, key, n)| ==> key(x) <= key(TopN(s, key, n)[i])
  {
    var sorted := SortDesc(s, key);
    var top := TopN(s, key, n);
    assert sorted == top + sorted[|top|..];
    forall x, i | x in s && x !in top && 0 <= i < |top| ensures key(x) <= key(top[i]) {
      assert x in multiset(sorted);
      var j :| 0 <= j < |sorted| && sorted[j] == x;
      assert j >= |top|;
      TopKeysKept(s, key, n, i, j);
    }
  }

  /** A value of which fewer copies are kept than `s` holds has a key no
      greater than any kept element's. */
  lemma TopNCopies<T>(s: seq<T>, key: T -> int, n: nat)
    ensures forall x, i :: multiset(TopN(s, key, n))[x] < multiset(s)[x] && 0 <= i < |TopN(s, key, n)| ==>
      key(x) <= key(TopN(s, key, n)[i])
  {
    var sorted := SortDesc(s, key);
    var top := TopN(s, key, n);
    assert sorted == top + sorted[|top|..];
    assert multiset(sorted) == multiset(top) + multiset(sorted[|top|..]);
    forall x, i | multiset(top)[x] < multiset(s)[x] && 0 <= i < |top| ensures key(x) <= key(top[i]) {
      assert x in multiset(sorted[|top|..]);
      var k :| 0 <= k < |sorted| - |top| && sorted[|top|..][k] == x;
      TopKeysKept(s, key, n, i, |top| + k);
    }
  }

  // ---------------------------------------------------------------------
  // Default sort() of distinct strings

  /** The order of `Array.prototype.sort()` without a comparator, on
      character codes. */
  predicate Less(a: string, b: string) {
    if a == [] then b != []
    else if b == [] then false
    else if a[0] != b[0] then a[0] < b[0]
    else Less(a[1..], b[1..])
  }

  lemma {:induction false} LessIrreflexive(a: string)
    ensures !Less(a, a)
  {
    if a != [] {
      LessIrreflexive(a[1..]);
    }
  }

  lemma {:induction false} LessTransitive(a: string, b: string, c: string)
    requires Less(a, b) && Less(b, c)
    ensures Less(a, c)
  {
    if a != [] && b != [] && c != [] && a[0] == b[0] == c[0] {
      LessTransitive(a[1..], b[1..], c[1..]);
    }
  }

  lemma {:induction false} LessTotal(a: string, b: string)
    requires a != b
    ensures Less(a, b) != Less(b, a)
  {
    if a != [] && b != [] && a[0] == b[0] {
      assert a == [a[0]] + a[1..] && b == [b[0]] + b[1..];
      LessTotal(a[1..], b[1..]);
    }
  }

  ghost predicate StrictlyAscending(s: seq<string>) {
    forall i, j :: 0 <= i < j < |s| ==> Less(s[i], s[j])
  }

  /** Inserts `x` into an ascending list of distinct strings, unless present. */
  function InsertUnique(x: string, s: seq<string>): (r: seq<string>)
    requires StrictlyAscending(s)
    ensures StrictlyAscending(r)
    ensures forall y :: y in r <==> y == x || y in s
  {
    if s == [] then [x]
    else if x == s[0] then s
    else if Less(x, s[0]) then
      assert forall j :: 0 < j < |s| ==> Less(x, s[j]) by {
        forall j | 0 < j < |s| ensures Less(x, s[j]) {
          LessTransitive(x, s[0], s[j]);
        }
      }
      [x] + s
    else
      LessTotal(x, s[0]);
      var rest := InsertUnique(x, s[1..]);
      assert forall y :: y in rest ==> Less(s[0], y);
      [s[0]] + rest
  }

  /** `Array.from(new Set(xs)).sort()`: the distinct strings of `xs` in
      ascending order. */
  function SortedUnique(xs: seq<string>): (r: seq<string>)
    ensures StrictlyAscending(r)
    ensures forall y :: y in r <==> y in xs
  {
    if xs == [] then [] else InsertUnique(xs[0], SortedUnique(xs[1..]))
  }

  /** A strictly ascending list has no repeated element. */
  lemma AscendingDistinct(s: seq<string>, i: nat, j: nat)
    requires StrictlyAscending(s) && i < j < |s|
    ensures s[i] != s[j]
  {
    LessIrreflexive(s[i]);
  }
}
