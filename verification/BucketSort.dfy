/** Stable sorting by a key: bucket after bucket, each in the given order. */
module BucketSort {

  /** The elements of `s` with key `b`, in order. */
  function Select<T>(s: seq<T>, key: T -> nat, b: nat): seq<T> {
    if s == [] then [] else
      var rest := Select(s[..|s| - 1], key, b);
      if key(s[|s| - 1]) == b then rest + [s[|s| - 1]] else rest
  }

  /** The elements with key 0, then those with key 1, and so on below `k`. */
  function FirstBuckets<T>(s: seq<T>, key: T -> nat, k: nat): seq<T> {
    if k == 0 then [] else FirstBuckets(s, key, k - 1) + Select(s, key, k - 1)
  }

  ghost predicate SortedBy<T>(s: seq<T>, key: T -> nat) {
    forall i, j :: 0 <= i < j < |s| ==> key(s[i]) <= key(s[j])
  }

  /** `r` is sorted by key and holds under each key what `s` holds there, in the same order. */
  ghost predicate StableSort<T>(r: seq<T>, s: seq<T>, key: T -> nat) {
    SortedBy(r, key) && forall b: nat :: Select(r, key, b) == Select(s, key, b)
  }

  lemma {:induction false} SelectConcat<T>(s: seq<T>, t: seq<T>, key: T -> nat, b: nat)
    ensures Select(s + t, key, b) == Select(s, key, b) + Select(t, key, b)
  {
    if t == [] {
      assert s + t == s;
    } else {
      var t' := t[..|t| - 1];
      assert (s + t)[..|s + t| - 1] == s + t';
      SelectConcat(s, t', key, b);
    }
  }

  lemma {:induction false} SelectHasKey<T>(s: seq<T>, key: T -> nat, b: nat)
    ensures forall x :: x in Select(s, key, b) ==> x in s && key(x) == b
  {
    if s != [] {
      SelectHasKey(s[..|s| - 1], key, b);
    }
  }

  /** Selecting fine key `e` from coarse key `b`, when `p` is the coarse key of everything under `e`. */
  lemma {:induction false} SelectSelect<T>(s: seq<T>, coarse: T -> nat, b: nat, fine: T -> nat, e: nat, p: nat)
    requires forall x :: x in s && fine(x) == e ==> coarse(x) == p
    ensures Select(Select(s, coarse, b), fine, e) == if p == b then Select(s, fine, e) else []
  {
    if s != [] {
      var s', x := s[..|s| - 1], s[|s| - 1];
      SelectSelect(s', coarse, b, fine, e, p);
      SelectConcat(Select(s', coarse, b), [x], fine, e);
    }
  }

  /** Sorting by a coarse key keeps the order under every finer key. */
  lemma {:induction false} SelectFirstBuckets<T>(s: seq<T>, coarse: T -> nat, k: nat, fine: T -> nat, e: nat, p: nat)
    requires forall x :: x in s && fine(x) == e ==> coarse(x) == p
    ensures Select(FirstBuckets(s, coarse, k), fine, e) == if p < k then Select(s, fine, e) else []
  {
    if k > 0 {
      SelectFirstBuckets(s, coarse, k - 1, fine, e, p);
      SelectConcat(FirstBuckets(s, coarse, k - 1), Select(s, coarse, k - 1), fine, e);
      SelectSelect(s, coarse, k - 1, fine, e, p);
    }
  }

  lemma {:induction false} SameBuckets<T>(s: seq<T>, t: seq<T>, key: T -> nat, k: nat)
    requires forall b: nat :: b < k ==> Select(s, key, b) == Select(t, key, b)
    ensures FirstBuckets(s, key, k) == FirstBuckets(t, key, k)
  {
    if k > 0 {
      SameBuckets(s, t, key, k - 1);
    }
  }

  lemma {:induction false} EmptyBuckets<T>(key: T -> nat, k: nat)
    ensures FirstBuckets([], key, k) == []
  {
    if k > 0 {
      EmptyBuckets(key, k - 1);
    }
  }

  lemma {:induction false} SelectAbove<T>(s: seq<T>, key: T -> nat, b: nat)
    requires forall x :: x in s ==> key(x) < b
    ensures Select(s, key, b) == []
  {
    if s != [] {
      SelectAbove(s[..|s| - 1], key, b);
    }
  }

  lemma SelectSnoc<T>(s: seq<T>, x: T, key: T -> nat, b: nat)
    ensures Select(s + [x], key, b) == Select(s, key, b) + if key(x) == b then [x] else []
  {
    assert (s + [x])[..|s|] == s;
  }

  /** `x` belongs to the head, to the bucket after it, or to neither. */
  lemma PlaceLast<T>(head: seq<T>, bucket: seq<T>, x: T, inHead: bool, inBucket: bool)
    requires !(inHead && inBucket) && (inHead ==> bucket == [])
    ensures (head + if inHead then [x] else []) + (bucket + if inBucket then [x] else [])
            == (head + bucket) + if inHead || inBucket then [x] else []
  {
  }

  lemma {:induction false} FirstBucketsSnoc<T>(s: seq<T>, x: T, key: T -> nat, k: nat)
    requires forall y :: y in s ==> key(y) <= key(x)
    ensures FirstBuckets(s + [x], key, k) == FirstBuckets(s, key, k) + if key(x) < k then [x] else []
  {
    if k > 0 {
      FirstBucketsSnoc(s, x, key, k - 1);
      SelectSnoc(s, x, key, k - 1);
      if key(x) < k - 1 {
        SelectAbove(s, key, k - 1);
      }
      var head, bucket := FirstBuckets(s, key, k - 1), Select(s, key, k - 1);
      PlaceLast(head, bucket, x, key(x) < k - 1, key(x) == k - 1);
    }
  }

  lemma {:induction false} SortedIsFixed<T>(s: seq<T>, key: T -> nat, k: nat)
    requires SortedBy(s, key) && forall x :: x in s ==> key(x) < k
    ensures FirstBuckets(s, key, k) == s
  {
    if s == [] {
      EmptyBuckets(key, k);
    } else {
      var s', x := s[..|s| - 1], s[|s| - 1];
      SortedIsFixed(s', key, k);
      FirstBucketsSnoc(s', x, key, k);
      assert s == s' + [x];
    }
  }

  lemma {:induction false} FirstBucketsSorted<T>(s: seq<T>, key: T -> nat, k: nat)
    ensures SortedBy(FirstBuckets(s, key, k), key)
    ensures forall x :: x in FirstBuckets(s, key, k) ==> key(x) < k
  {
    if k > 0 {
      FirstBucketsSorted(s, key, k - 1);
      SelectHasKey(s, key, k - 1);
      var head, last := FirstBuckets(s, key, k - 1), Select(s, key, k - 1);
      assert forall i :: 0 <= i < |head| ==> head[i] in head;
      assert forall i :: 0 <= i < |last| ==> last[i] in last;
    }
  }

  lemma {:induction false} SelectCount<T>(s: seq<T>, x: T, key: T -> nat)
    ensures multiset(Select(s, key, key(x)))[x] == multiset(s)[x]
  {
    if s != [] {
      SelectCount(s[..|s| - 1], x, key);
      assert s == s[..|s| - 1] + [s[|s| - 1]];
    }
  }

  lemma SameBucketsPermute<T(!new)>(s: seq<T>, t: seq<T>, key: T -> nat)
    requires forall b: nat :: Select(s, key, b) == Select(t, key, b)
    ensures multiset(s) == multiset(t)
  {
    forall x: T
      ensures multiset(s)[x] == multiset(t)[x]
    {
      SelectCount(s, x, key);
      SelectCount(t, x, key);
    }
  }

  /** The buckets below `k` are a stable sort, and the only one, of anything whose keys are below `k`. */
  lemma BucketsAreTheStableSort<T(!new)>(s: seq<T>, key: T -> nat, k: nat)
    requires forall x :: key(x) < k
    ensures multiset(FirstBuckets(s, key, k)) == multiset(s)
    ensures forall r: seq<T> :: StableSort(r, s, key) <==> r == FirstBuckets(s, key, k)
  {
    var sorted := FirstBuckets(s, key, k);
    forall b: nat
      ensures Select(sorted, key, b) == Select(s, key, b)
    {
      SelectFirstBuckets(s, key, k, key, b, b);
      SelectHasKey(s, key, b);
      var bucket := Select(s, key, b);
      assert bucket != [] ==> bucket[0] in bucket;
    }
    SameBucketsPermute(sorted, s, key);
    FirstBucketsSorted(s, key, k);
    forall r: seq<T> | StableSort(r, s, key)
      ensures r == sorted
    {
      SortedIsFixed(r, key, k);
      SameBuckets(r, s, key, k);
    }
  }

  lemma SelectRemove<T>(s: seq<T>, i: nat, key: T -> nat, b: nat)
    requires i < |s|
    ensures multiset(s[..i] + s[i + 1..]) == multiset(s) - multiset{s[i]}
    ensures |Select(s, key, b)| == |Select(s[..i] + s[i + 1..], key, b)| + if key(s[i]) == b then 1 else 0
  {
    var before, x, after := s[..i], s[i], s[i + 1..];
    assert s == before + [x] + after;
    SelectConcat(before, after, key, b);
    SelectConcat(before + [x], after, key, b);
    SelectConcat(before, [x], key, b);
  }

  /** Permuting a sequence keeps the size of every bucket. */
  lemma {:induction false} SelectSizePermute<T>(s: seq<T>, t: seq<T>, key: T -> nat, b: nat)
    requires multiset(s) == multiset(t)
    ensures |Select(s, key, b)| == |Select(t, key, b)|
  {
    if s == [] {
      assert |multiset(t)| == 0;
    } else {
      var last := |s| - 1;
      assert s[last] in multiset(t);
      var i :| 0 <= i < |t| && t[i] == s[last];
      SelectRemove(s, last, key, b);
      SelectRemove(t, i, key, b);
      SelectSizePermute(s[..last] + s[last + 1..], t[..i] + t[i + 1..], key, b);
    }
  }

  // ----- Sorted lists with buckets of the same sizes

  ghost predicate SameSizes<T>(s: seq<T>, t: seq<T>, key: T -> nat) {
    forall b: nat :: |Select(s, key, b)| == |Select(t, key, b)|
  }

  /** The same keys, place by place. */
  ghost predicate SameKeys<T>(s: seq<T>, t: seq<T>, key: T -> nat) {
    |s| == |t| && forall i :: 0 <= i < |s| ==> key(s[i]) == key(t[i])
  }

  lemma SelectLast<T>(s: seq<T>, key: T -> nat, b: nat)
    requires s != []
    ensures |Select(s, key, b)| == |Select(s[..|s| - 1], key, b)| + if key(s[|s| - 1]) == b then 1 else 0
  {
  }

  /** The last key of a sorted list is the greatest that any list with these bucket sizes has. */
  lemma LastIsGreatest<T>(s: seq<T>, t: seq<T>, key: T -> nat)
    requires t != [] && s != [] && SameSizes(s, t, key) && SortedBy(s, key)
    ensures key(t[|t| - 1]) <= key(s[|s| - 1])
  {
    var b := key(t[|t| - 1]);
    SelectLast(t, key, b);
    assert |Select(s, key, b)| == |Select(t, key, b)|;
    var x := Select(s, key, b)[0];
    SelectHasKey(s, key, b);
    assert x in s;
  }

  lemma {:induction false} SortedAlike<T>(s: seq<T>, t: seq<T>, key: T -> nat)
    requires SortedBy(s, key) && SortedBy(t, key) && SameSizes(s, t, key) && |s| == |t|
    ensures SameKeys(s, t, key)
  {
    if s != [] {
      var s', t' := s[..|s| - 1], t[..|t| - 1];
      LastIsGreatest(s, t, key);
      LastIsGreatest(t, s, key);
      forall b: nat
        ensures |Select(s', key, b)| == |Select(t', key, b)|
      {
        SelectLast(s, key, b);
        SelectLast(t, key, b);
        assert |Select(s, key, b)| == |Select(t, key, b)|;
      }
      SortedAlike(s', t', key);
    }
  }

  lemma {:induction false} SameKeysSizes<T>(s: seq<T>, t: seq<T>, key: T -> nat, b: nat)
    requires SameKeys(s, t, key)
    ensures |Select(s, key, b)| == |Select(t, key, b)|
  {
    if s != [] {
      SameKeysSizes(s[..|s| - 1], t[..|t| - 1], key, b);
      SelectLast(s, key, b);
      SelectLast(t, key, b);
    }
  }
}
