/** Counters kept in a plain JavaScript object:
    `xs.reduce((acc, x) => { acc[x] = (acc[x] || 0) + 1; return acc; }, {})`
    read back with `Object.entries`, which lists the keys in the order they
    were first inserted. */
module Counting {
  import opened Sorting

  /** One `[key, count]` pair of `Object.entries`. */
  datatype Tally<K> = Tally(key: K, count: nat)

  function Keys<K>(ts: seq<Tally<K>>): (ks: seq<K>)
    ensures |ks| == |ts|
    ensures forall i :: 0 <= i < |ts| ==> ks[i] == ts[i].key
  {
    if ts == [] then [] else [ts[0].key] + Keys(ts[1..])
  }

  ghost predicate DistinctKeys<K>(ts: seq<Tally<K>>) {
    forall i, j :: 0 <= i < j < |ts| ==> ts[i].key != ts[j].key
  }

  /** The count recorded for `k`, or 0 (`acc[k] || 0`). */
  function CountOf<K(==)>(ts: seq<Tally<K>>, k: K): nat {
    if ts == [] then 0 else if ts[0].key == k then ts[0].count else CountOf(ts[1..], k)
  }

  function SumCounts<K>(ts: seq<Tally<K>>): nat {
    if ts == [] then 0 else ts[0].count + SumCounts(ts[1..])
  }

  /** `acc[k] = (acc[k] || 0) + 1`: a known key keeps its place, a new key
      goes last. */
  function Bump<K(==)>(ts: seq<Tally<K>>, k: K): (r: seq<Tally<K>>)
    ensures |r| > 0
  {
    if ts == [] then [Tally(k, 1)]
    else if ts[0].key == k then [Tally(k, ts[0].count + 1)] + ts[1..]
    else [ts[0]] + Bump(ts[1..], k)
  }

  /** The counters after reducing over `xs`, in first-insertion order. */
  function CountBy<K(==)>(xs: seq<K>): seq<Tally<K>> {
    if xs == [] then [] else Bump(CountBy(xs[..|xs| - 1]), xs[|xs| - 1])
  }

  /** The distinct elements of `xs` in order of first appearance. */
  function FirstSeen<K(==)>(xs: seq<K>): seq<K> {
    if xs == [] then []
    else
      var d := FirstSeen(xs[..|xs| - 1]);
      if xs[|xs| - 1] in d then d else d + [xs[|xs| - 1]]
  }

  lemma {:induction false} BumpKeys<K>(ts: seq<Tally<K>>, k: K)
    ensures Keys(Bump(ts, k)) == if k in Keys(ts) then Keys(ts) else Keys(ts) + [k]
  {
    if ts != [] {
      assert Keys(ts) == [ts[0].key] + Keys(ts[1..]);
      if ts[0].key != k {
        BumpKeys(ts[1..], k);
        assert Bump(ts, k)[1..] == Bump(ts[1..], k);
      } else {
        assert Bump(ts, k)[1..] == ts[1..];
      }
    }
  }

  lemma {:induction false} BumpDistinct<K>(ts: seq<Tally<K>>, k: K)
    requires DistinctKeys(ts)
    ensures DistinctKeys(Bump(ts, k))
  {
    if ts != [] && ts[0].key != k {
      BumpDistinct(ts[1..], k);
      BumpKeys(ts[1..], k);
      var r := Bump(ts, k);
      assert r[1..] == Bump(ts[1..], k);
      forall i | 1 <= i < |r| ensures r[0].key != r[i].key {
        assert r[i].key == Keys(r[1..])[i - 1];
        if r[i].key != k {
          var m :| 0 <= m < |ts| - 1 && Keys(ts[1..])[m] == r[i].key;
          assert ts[m + 1].key == r[i].key;
        }
      }
    } else if ts != [] {
      var r := Bump(ts, k);
      assert forall i :: 1 <= i < |r| ==> r[i] == ts[i];
    }
  }

  lemma {:induction false} BumpCount<K>(ts: seq<Tally<K>>, k: K, j: K)
    ensures CountOf(Bump(ts, k), j) == CountOf(ts, j) + (if j == k then 1 else 0)
  {
    if ts != [] && ts[0].key != k {
      BumpCount(ts[1..], k, j);
    }
  }

  lemma {:induction false} BumpSum<K>(ts: seq<Tally<K>>, k: K)
    ensures SumCounts(Bump(ts, k)) == SumCounts(ts) + 1
    ensures (forall t :: t in ts ==> t.count > 0) ==> forall t :: t in Bump(ts, k) ==> t.count > 0
  {
    if ts != [] {
      if ts[0].key != k {
        BumpSum(ts[1..], k);
        assert Bump(ts, k)[1..] == Bump(ts[1..], k);
      } else {
        assert Bump(ts, k)[1..] == ts[1..];
      }
    }
  }

  /** The counters of `xs`: one per distinct element, listed in order of
      first appearance, each holding the number of times its key occurs,
      and together adding up to `|xs|`. */
  lemma {:induction false} CountByFacts<K>(xs: seq<K>)
    ensures DistinctKeys(CountBy(xs))
    ensures Keys(CountBy(xs)) == FirstSeen(xs)
    ensures forall k :: CountOf(CountBy(xs), k) == multiset(xs)[k]
    ensures SumCounts(CountBy(xs)) == |xs|
    ensures forall t :: t in CountBy(xs) ==> t.count > 0
  {
    CountByDistinct(xs);
    CountByKeys(xs);
    forall k ensures CountOf(CountBy(xs), k) == multiset(xs)[k] {
      CountByCount(xs, k);
    }
    CountBySum(xs);
  }

  lemma {:induction false} CountByDistinct<K>(xs: seq<K>)
    ensures DistinctKeys(CountBy(xs))
  {
    if xs != [] {
      CountByDistinct(xs[..|xs| - 1]);
      BumpDistinct(CountBy(xs[..|xs| - 1]), xs[|xs| - 1]);
    }
  }

  lemma {:induction false} CountByKeys<K>(xs: seq<K>)
    ensures Keys(CountBy(xs)) == FirstSeen(xs)
  {
    if xs != [] {
      CountByKeys(xs[..|xs| - 1]);
      BumpKeys(CountBy(xs[..|xs| - 1]), xs[|xs| - 1]);
    }
  }

  lemma {:induction false} CountByCount<K>(xs: seq<K>, k: K)
    ensures CountOf(CountBy(xs), k) == multiset(xs)[k]
  {
    if xs != [] {
      var p, l := xs[..|xs| - 1], xs[|xs| - 1];
      CountByCount(p, k);
      BumpCount(CountBy(p), l, k);
      assert xs == p + [l];
      assert multiset(xs) == multiset(p) + multiset{l};
    }
  }

  lemma {:induction false} CountBySum<K>(xs: seq<K>)
    ensures SumCounts(CountBy(xs)) == |xs|
    ensures forall t :: t in CountBy(xs) ==> t.count > 0
  {
    if xs != [] {
      CountBySum(xs[..|xs| - 1]);
      BumpSum(CountBy(xs[..|xs| - 1]), xs[|xs| - 1]);
    }
  }

  /** Every element of `xs` has a counter, and every counter is some element's. */
  lemma {:induction false} FirstSeenMembers<K>(xs: seq<K>)
    ensures forall k :: k in FirstSeen(xs) <==> k in xs
  {
    if xs != [] {
      var p := xs[..|xs| - 1];
      FirstSeenMembers(p);
      assert xs == p + [xs[|xs| - 1]];
    }
  }

  /** In a list of distinct keys, the count stored with a key is what CountOf reads. */
  lemma {:induction false} CountOfMember<K>(ts: seq<Tally<K>>, i: nat)
    requires DistinctKeys(ts) && i < |ts|
    ensures CountOf(ts, ts[i].key) == ts[i].count
  {
    if i > 0 {
      CountOfMember(ts[1..], i - 1);
    }
  }

  /** Each counter of `xs` holds the number of occurrences of its key. */
  lemma CountByMember<K>(xs: seq<K>, i: nat)
    requires i < |CountBy(xs)|
    ensures CountBy(xs)[i].count == multiset(xs)[CountBy(xs)[i].key]
    ensures CountBy(xs)[i].key in xs
  {
    CountByFacts(xs);
    CountOfMember(CountBy(xs), i);
    FirstSeenMembers(xs);
    assert CountBy(xs)[i].key == Keys(CountBy(xs))[i];
  }

  /** The first distinct element is the first element. */
  lemma {:induction false} FirstSeenHead<K>(xs: seq<K>)
    requires |xs| > 0
    ensures |FirstSeen(xs)| > 0 && FirstSeen(xs)[0] == xs[0]
  {
    if |xs| > 1 {
      FirstSeenHead(xs[..|xs| - 1]);
    }
  }

  /** The distinct elements of a prefix are a prefix of the distinct elements. */
  lemma {:induction false} FirstSeenPrefix<K>(xs: seq<K>, i: nat)
    requires i <= |xs|
    ensures FirstSeen(xs[..i]) <= FirstSeen(xs)
    decreases |xs|
  {
    if i < |xs| {
      var p := xs[..|xs| - 1];
      FirstSeenPrefix(p, i);
      assert p[..i] == xs[..i];
    } else {
      assert xs[..i] == xs;
    }
  }

  /** Index of the first occurrence of `k` in `xs`. */
  function FirstIndex<K(==)>(xs: seq<K>, k: K): (i: nat)
    requires k in xs
    ensures i < |xs| && xs[i] == k
    ensures forall j :: 0 <= j < i ==> xs[j] != k
  {
    if xs[0] == k then 0 else 1 + FirstIndex(xs[1..], k)
  }

  function TallyCount<K>(t: Tally<K>): int {
    t.count
  }

  /** `Object.entries(counts).sort(([, a], [, b]) => b - a)[0][0]` for the
      counters of a non-empty `xs`: the key of the head of the stable sort. */
  function Mode<K(==)>(xs: seq<K>): K
    requires |xs| > 0
  {
    SortDesc(CountBy(xs), TallyCount)[0].key
  }

  /** The mode is the key of the first counter with the largest count. */
  lemma ModeIsFirstMax<K>(xs: seq<K>)
    requires |xs| > 0
    ensures |CountBy(xs)| > 0
    ensures Mode(xs) == CountBy(xs)[FirstMaxIndex(CountBy(xs), TallyCount)].key
  {
    SortDescHead(CountBy(xs), TallyCount);
  }

  /** Reading the count of an element through the position of its counter. */
  lemma CounterOf<K>(xs: seq<K>, x: K) returns (q: nat)
    requires x in xs
    ensures q < |CountBy(xs)| && CountBy(xs)[q].key == x && q < |FirstSeen(xs)| && FirstSeen(xs)[q] == x
    ensures CountBy(xs)[q].count == multiset(xs)[x]
  {
    CountByFacts(xs);
    FirstSeenMembers(xs);
    var ts := CountBy(xs);
    assert x in Keys(ts);
    q :| 0 <= q < |ts| && Keys(ts)[q] == x;
    CountByMember(xs, q);
  }

  /** The mode occurs at least as often as any element, and it is the first
      element of `xs` to do so: every element before its first occurrence
      occurs strictly less often. */
  lemma ModeFacts<K>(xs: seq<K>)
    requires |xs| > 0
    ensures Mode(xs) in xs
    ensures forall i :: 0 <= i < |xs| ==> multiset(xs)[xs[i]] <= multiset(xs)[Mode(xs)]
    ensures forall j :: 0 <= j < FirstIndex(xs, Mode(xs)) ==> multiset(xs)[xs[j]] < multiset(xs)[Mode(xs)]
  {
    var ts := CountBy(xs);
    ModeIsFirstMax(xs);
    var p := FirstMaxIndex(ts, TallyCount);
    var m := ts[p].key;
    CountByMember(xs, p);
    forall i | 0 <= i < |xs| ensures multiset(xs)[xs[i]] <= multiset(xs)[m] {
      var q := CounterOf(xs, xs[i]);
      assert TallyCount(ts[q]) <= TallyCount(ts[p]);
    }
    var i0 := FirstIndex(xs, m);
    ModeBeforeFirst(xs, p, i0);
  }

  /** Elements before the first occurrence of the `p`-th distinct element have counters before `p`. */
  lemma ModeBeforeFirst<K>(xs: seq<K>, p: nat, i0: nat)
    requires p < |CountBy(xs)| && p == FirstMaxIndex(CountBy(xs), TallyCount)
    requires i0 < |xs| && xs[i0] == CountBy(xs)[p].key && forall j :: 0 <= j < i0 ==> xs[j] != xs[i0]
    ensures forall j :: 0 <= j < i0 ==> multiset(xs)[xs[j]] < CountBy(xs)[p].count
  {
    var ts := CountBy(xs);
    CountByFacts(xs);
    var pre := FirstSeen(xs[..i0]);
    FirstSeenPrefix(xs, i0);
    FirstSeenMembers(xs[..i0]);
    assert Keys(ts)[p] == xs[i0];
    assert xs[i0] !in xs[..i0];
    assert |pre| <= p;
    forall j | 0 <= j < i0 ensures multiset(xs)[xs[j]] < ts[p].count {
      assert xs[j] in xs[..i0];
      var q :| 0 <= q < |pre| && pre[q] == xs[j];
      assert Keys(ts)[q] == xs[j];
      CountByMember(xs, q);
      assert TallyCount(ts[q]) < TallyCount(ts[p]);
    }
  }

  /** The counters read back as a record keyed by `key`. */
  function ToMap<K(==)>(ts: seq<Tally<K>>): map<K, nat> {
    if ts == [] then map[] else ToMap(ts[1..])[ts[0].key := ts[0].count]
  }

  lemma {:induction false} ToMapLookup<K>(ts: seq<Tally<K>>, k: K)
    requires DistinctKeys(ts)
    ensures k in ToMap(ts) <==> k in Keys(ts)
    ensures k in ToMap(ts) ==> ToMap(ts)[k] == CountOf(ts, k)
  {
    if ts != [] {
      ToMapLookup(ts[1..], k);
      assert Keys(ts) == [ts[0].key] + Keys(ts[1..]);
    }
  }

  /** Each counter of a duplicate-free list is its key's value in the record. */
  lemma ToMapEntries<K>(ts: seq<Tally<K>>)
    requires DistinctKeys(ts)
    ensures forall i :: 0 <= i < |ts| ==> ts[i].key in ToMap(ts) && ToMap(ts)[ts[i].key] == ts[i].count
  {
    forall i | 0 <= i < |ts| ensures ts[i].key in ToMap(ts) && ToMap(ts)[ts[i].key] == ts[i].count {
      ToMapLookup(ts, ts[i].key);
      CountOfMember(ts, i);
    }
  }

  /** The record of the counts of `xs` has exactly the elements of `xs` as
      keys, each mapped to its number of occurrences. */
  lemma CountRecord<K>(xs: seq<K>, k: K)
    ensures k in ToMap(CountBy(xs)) <==> k in xs
    ensures k in xs ==> ToMap(CountBy(xs))[k] == multiset(xs)[k]
  {
    CountByFacts(xs);
    FirstSeenMembers(xs);
    ToMapLookup(CountBy(xs), k);
  }
}
