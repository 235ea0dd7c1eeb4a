/** The insertion loop of `hash_order`, refined to one stable sort by bin in the final table. */
module HashInsertion {
  import opened Naturals
  import opened Wrappers
  import opened PowersOfTwo
  import opened BucketSort
  import opened HashTable
  import opened HashBits

  /** The capacity after a long bin, if there is one, doubles a table of `c` bins. */
  function Treeify(binSize: nat, c: nat): nat {
    if binSize > TREEIFY_THRESHOLD && c < MIN_TREEIFY_CAPACITY then 2 * c else c
  }

  /** The capacity after the load of `n` keys, if it is too high, doubles a table of `c` bins. */
  function Reload(n: nat, c: nat): nat {
    if n > Threshold(c) && c < MAXIMUM_CAPACITY then 2 * c else c
  }

  /** How many of `keys` share the bin of the last one. */
  function LastBinSize<T>(keys: seq<T>, hash: T -> int, c: nat): nat
    requires keys != [] && c > 0
  {
    |Select(keys, Bins(hash, c), Bin(hash(keys[|keys| - 1]), c))|
  }

  /** The capacity after all of `keys` went, in order, into a table of `initial` bins. */
  function FinalCapacity<T>(keys: seq<T>, hash: T -> int, initial: nat): (c: nat)
    requires initial > 0
    ensures c > 0
  {
    if keys == [] then initial else
      var c := FinalCapacity(keys[..|keys| - 1], hash, initial);
      Reload(|keys|, Treeify(LastBinSize(keys, hash, c), c))
  }

  lemma {:induction false} InitialCapacityIsPow2(table: Table, n: nat)
    ensures IsPow2(InitialCapacity(table, n)) && InitialCapacity(table, n) <= MAXIMUM_CAPACITY
  {
    SmallPowers();
    MaximumIsPow2();
  }

  // ----- Bins of indices

  function Flatten(bins: seq<seq<nat>>): seq<nat> {
    if bins == [] then [] else Flatten(bins[..|bins| - 1]) + bins[|bins| - 1]
  }

  /** `bins` is a table of `c` bins that holds `s`. */
  ghost predicate AreBins(bins: seq<seq<nat>>, s: seq<nat>, codes: nat -> int, c: nat)
    requires c > 0
  {
    |bins| == c && forall b: nat :: b < c ==> bins[b] == Select<nat>(s, Bins(codes, c), b)
  }

  lemma {:induction false} FlattenBuckets(bins: seq<seq<nat>>, s: seq<nat>, key: nat -> nat, k: nat)
    requires k <= |bins| && forall b: nat :: b < k ==> bins[b] == Select<nat>(s, key, b)
    ensures Flatten(bins[..k]) == FirstBuckets<nat>(s, key, k)
  {
    if k > 0 {
      FlattenBuckets(bins, s, key, k - 1);
      assert bins[..k][..k - 1] == bins[..k - 1];
    }
  }

  predicate Within(s: seq<nat>, n: nat) {
    forall j :: 0 <= j < |s| ==> s[j] < n
  }

  /** The keys at the given indices. */
  function At<T>(keys: seq<T>, indices: seq<nat>): (s: seq<T>)
    requires Within(indices, |keys|)
    ensures |s| == |indices| && forall j :: 0 <= j < |s| ==> s[j] == keys[indices[j]]
  {
    seq(|indices|, j requires 0 <= j < |indices| => keys[indices[j]])
  }

  /** Sort keys by index agree with sort keys by element. */
  ghost predicate Agree<T, K>(keys: seq<T>, key: T -> K, codes: nat -> K) {
    forall i: nat :: i < |keys| ==> codes(i) == key(keys[i])
  }

  lemma {:induction false} SelectAt<T>(keys: seq<T>, key: T -> nat, codes: nat -> nat, s: seq<nat>, b: nat)
    requires Agree(keys, key, codes) && Within(s, |keys|)
    ensures Within(Select<nat>(s, codes, b), |keys|)
    ensures At(keys, Select<nat>(s, codes, b)) == Select(At(keys, s), key, b)
  {
    if s != [] {
      SelectAt(keys, key, codes, s[..|s| - 1], b);
      assert At(keys, s)[..|s| - 1] == At(keys, s[..|s| - 1]);
    }
  }

  lemma {:induction false} FirstBucketsAt<T>(keys: seq<T>, key: T -> nat, codes: nat -> nat, s: seq<nat>, k: nat)
    requires Agree(keys, key, codes) && Within(s, |keys|)
    ensures Within(FirstBuckets<nat>(s, codes, k), |keys|)
    ensures At(keys, FirstBuckets<nat>(s, codes, k)) == FirstBuckets(At(keys, s), key, k)
  {
    if k > 0 {
      FirstBucketsAt(keys, key, codes, s, k - 1);
      SelectAt(keys, key, codes, s, k - 1);
      assert At(keys, FirstBuckets<nat>(s, codes, k - 1) + Select<nat>(s, codes, k - 1))
          == At(keys, FirstBuckets<nat>(s, codes, k - 1)) + At(keys, Select<nat>(s, codes, k - 1));
    }
  }

  lemma {:induction false} FinalCapacityAt<T>(
    keys: seq<T>, hash: T -> int, codes: nat -> int, s: seq<nat>, initial: nat)
    requires initial > 0 && Agree(keys, hash, codes) && Within(s, |keys|)
    ensures FinalCapacity<nat>(s, codes, initial) == FinalCapacity(At(keys, s), hash, initial)
  {
    if s != [] {
      var s' := s[..|s| - 1];
      FinalCapacityAt(keys, hash, codes, s', initial);
      assert At(keys, s)[..|s| - 1] == At(keys, s');
      var c := FinalCapacity<nat>(s', codes, initial);
      SelectAt(keys, Bins(hash, c), Bins<nat>(codes, c), s, Bin(codes(s[|s| - 1]), c));
    }
  }

  // ----- The loops

  ghost predicate AreSpreads(spreads: seq<nat>, codes: nat -> int) {
    forall i: nat :: i < |spreads| ==> spreads[i] == Spread(codes(i))
  }

  /** Appending an index to its bin. */
  lemma InsertedBins(bins: seq<seq<nat>>, s: seq<nat>, index: nat, codes: nat -> int, c: nat, bin: nat)
    requires IsPow2(c) && AreBins(bins, s, codes, c) && bin == Bin(codes(index), c)
    ensures bin < c && AreBins(bins[bin := bins[bin] + [index]], s + [index], codes, c)
  {
    BinBound(codes(index), c);
    assert (s + [index])[..|s|] == s;
    var inserted := bins[bin := bins[bin] + [index]];
    forall b: nat | b < c
      ensures inserted[b] == Select<nat>(s + [index], Bins(codes, c), b)
    {
    }
  }

  /** Redistributes every index over `capacity` bins, in iteration order. */
  method Redistribute(bins: seq<seq<nat>>, spreads: seq<nat>, capacity: nat, ghost codes: nat -> int)
    returns (resized: seq<seq<nat>>)
    requires IsPow2(capacity)
    requires Within(Flatten(bins), |spreads|) && AreSpreads(spreads, codes)
    ensures AreBins(resized, Flatten(bins), codes, capacity)
  {
    resized := seq(capacity, _ => []);
    var flat := Flatten(bins);
    for k := 0 to |flat|
      invariant AreBins(resized, flat[..k], codes, capacity)
    {
      var index := flat[k];
      var bin := And(spreads[index], capacity - 1);
      InsertedBins(resized, flat[..k], index, codes, capacity, bin);
      assert flat[..k + 1] == flat[..k] + [index];
      resized := resized[bin := resized[bin] + [index]];
    }
    assert flat[..|flat|] == flat;
  }

  lemma FlattenedOrder(bins: seq<seq<nat>>, s: seq<nat>, codes: nat -> int, c: nat)
    requires IsPow2(c) && AreBins(bins, s, codes, c)
    ensures Flatten(bins) == OrderInTable<nat>(s, codes, c)
    ensures multiset(Flatten(bins)) == multiset(s)
    ensures forall n: nat :: Within(s, n) ==> Within(Flatten(bins), n)
  {
    FlattenBuckets(bins, s, Bins(codes, c), c);
    assert bins[..c] == bins;
    OrderIsTheStableSort<nat>(s, codes, c);
    assert forall j :: 0 <= j < |Flatten(bins)| ==> Flatten(bins)[j] in multiset(Flatten(bins));
  }

  /** Doubling the table gives the bins that the larger table would have had from the start. */
  method Resize(bins: seq<seq<nat>>, spreads: seq<nat>, capacity: nat, ghost s: seq<nat>, ghost codes: nat -> int)
    returns (resized: seq<seq<nat>>)
    requires IsPow2(capacity) && AreBins(bins, s, codes, capacity)
    requires Within(s, |spreads|) && AreSpreads(spreads, codes)
    ensures IsPow2(2 * capacity) && AreBins(resized, s, codes, 2 * capacity)
  {
    FlattenedOrder(bins, s, codes, capacity);
    DoublePow2(capacity);
    resized := Redistribute(bins, spreads, 2 * capacity, codes);
    ResizedBins(resized, s, codes, capacity, 2 * capacity);
  }

  lemma ResizedBins(resized: seq<seq<nat>>, s: seq<nat>, codes: nat -> int, c: nat, d: nat)
    requires IsPow2(c) && IsPow2(d) && c <= d
    requires AreBins(resized, OrderInTable<nat>(s, codes, c), codes, d)
    ensures AreBins(resized, s, codes, d)
  {
    forall b: nat | b < d
      ensures resized[b] == Select<nat>(s, Bins(codes, d), b)
    {
      OrderKeepsBins<nat>(s, codes, c, d, b);
    }
  }

  /** Takes each key out of its slot in iteration order; no slot is asked for twice. */
  method TakeAll<T>(keys: seq<T>, order: seq<nat>) returns (taken: seq<T>)
    requires multiset(order) == multiset(Iota(|keys|)) && Within(order, |keys|)
    ensures taken == At(keys, order)
  {
    var n := |keys|;
    var slots: seq<Option<T>> := seq(n, i requires 0 <= i < n => Some(keys[i]));
    taken := [];
    for k := 0 to |order|
      invariant |slots| == n && |taken| == k
      invariant forall i: nat :: i < n && i !in order[..k] ==> slots[i] == Some(keys[i])
      invariant forall j :: 0 <= j < k ==> taken[j] == keys[order[j]]
    {
      var index := order[k];
      OnceOnly(order, n, k);
      if slots[index].Some? {
        taken := taken + [slots[index].value];
      }
      slots := slots[index := None];
      assert order[..k + 1] == order[..k] + [index];
    }
  }

  lemma OnceOnly(order: seq<nat>, n: nat, k: nat)
    requires multiset(order) == multiset(Iota(n)) && k < |order| && Within(order, n)
    ensures order[k] !in order[..k]
  {
    var x := order[k];
    IotaOnce(n, x);
    assert order == order[..k] + [x] + order[k + 1..];
    assert multiset(order)[x] == multiset(order[..k])[x] + 1 + multiset(order[k + 1..])[x];
  }

  lemma IotaSnoc(index: nat, codes: nat -> int, c: nat, b: nat)
    requires c > 0
    ensures Select<nat>(Iota(index + 1), Bins(codes, c), b)
            == Select<nat>(Iota(index), Bins(codes, c), b) + if Bin(codes(index), c) == b then [index] else []
  {
    assert Iota(index + 1)[..index] == Iota(index);
  }

  lemma InsertedCapacity(index: nat, codes: nat -> int, initial: nat, c: nat)
    requires initial > 0 && c == FinalCapacity<nat>(Iota(index), codes, initial)
    ensures FinalCapacity<nat>(Iota(index + 1), codes, initial)
            == Reload(index + 1, Treeify(|Select<nat>(Iota(index), Bins(codes, c), Bin(codes(index), c))| + 1, c))
  {
    assert Iota(index + 1)[..index] == Iota(index);
    IotaSnoc(index, codes, c, Bin(codes(index), c));
  }

  lemma InsertedIndex(bins: seq<seq<nat>>, index: nat, codes: nat -> int, c: nat, bin: nat)
    requires IsPow2(c) && AreBins(bins, Iota(index), codes, c) && bin == Bin(codes(index), c)
    ensures bin < c && AreBins(bins[bin := bins[bin] + [index]], Iota(index + 1), codes, c)
    ensures |bins[bin]| == |Select<nat>(Iota(index), Bins(codes, c), bin)|
  {
    InsertedBins(bins, Iota(index), index, codes, c, bin);
    assert Iota(index + 1) == Iota(index) + [index];
  }

  /** Grows the table whose newest key is `index`: for a long bin, then for the load. */
  method Grow(bins: seq<seq<nat>>, spreads: seq<nat>, capacity: nat, index: nat, size: nat, ghost codes: nat -> int)
    returns (grown: seq<seq<nat>>, larger: nat)
    requires IsPow2(capacity) && AreSpreads(spreads, codes) && index < |spreads|
    requires AreBins(bins, Iota(index + 1), codes, capacity)
    ensures IsPow2(larger) && larger == Reload(index + 1, Treeify(size, capacity))
    ensures AreBins(grown, Iota(index + 1), codes, larger)
  {
    grown, larger := bins, capacity;
    if size > TREEIFY_THRESHOLD && larger < MIN_TREEIFY_CAPACITY {
      grown := Resize(grown, spreads, larger, Iota(index + 1), codes);
      larger := larger * 2;
    }
    if index + 1 > Threshold(larger) && larger < MAXIMUM_CAPACITY {
      grown := Resize(grown, spreads, larger, Iota(index + 1), codes);
      larger := larger * 2;
    }
  }

  /** Pushes `index` into its bin. */
  method Push(bins: seq<seq<nat>>, spreads: seq<nat>, capacity: nat, index: nat, ghost codes: nat -> int)
    returns (pushed: seq<seq<nat>>, size: nat)
    requires IsPow2(capacity) && AreSpreads(spreads, codes) && index < |spreads|
    requires AreBins(bins, Iota(index), codes, capacity)
    ensures AreBins(pushed, Iota(index + 1), codes, capacity)
    ensures size == |Select<nat>(Iota(index), Bins(codes, capacity), Bin(codes(index), capacity))| + 1
  {
    var bin := And(spreads[index], capacity - 1);
    InsertedIndex(bins, index, codes, capacity, bin);
    pushed := bins[bin := bins[bin] + [index]];
    size := |pushed[bin]|;
  }

  /** Every insertion, with the resizes that follow it. */
  method InsertAll(spreads: seq<nat>, initial: nat, ghost codes: nat -> int)
    returns (bins: seq<seq<nat>>, capacity: nat)
    requires IsPow2(initial) && initial > 0 && AreSpreads(spreads, codes)
    ensures IsPow2(capacity)
    ensures capacity == FinalCapacity<nat>(Iota(|spreads|), codes, initial)
    ensures AreBins(bins, Iota(|spreads|), codes, capacity)
  {
    capacity := initial;
    bins := seq(capacity, _ => []);
    for index: nat := 0 to |spreads|
      invariant IsPow2(capacity)
      invariant capacity == FinalCapacity<nat>(Iota(index), codes, initial)
      invariant AreBins(bins, Iota(index), codes, capacity)
    {
      InsertedCapacity(index, codes, initial, capacity);
      var pushed, size := Push(bins, spreads, capacity, index, codes);
      bins, capacity := Grow(pushed, spreads, capacity, index, size, codes);
    }
  }

  /**
    `hash_order`: whatever resizes the insertions cause, the result is the given keys in one stable
    sort by bin at the final capacity.
   */
  method HashOrder<T(!new)>(keys: seq<T>, table: Table, hash: T -> int) returns (order: seq<T>)
    ensures var final := FinalCapacity(keys, hash, InitialCapacity(table, |keys|));
            && IsPow2(final)
            && order == OrderInTable(keys, hash, final)
            && multiset(order) == multiset(keys)
            && StableSort(order, keys, Bins(hash, final))
            && forall k: nat :: Pow2(k) == final ==> StableSort(order, keys, FoldedBins(hash, k))
  {
    var n := |keys|;
    var spreads := seq(n, i requires 0 <= i < n => Spread(hash(keys[i])));
    ghost var codes: nat -> int := (i: nat) => if i < n then hash(keys[i]) else 0;
    var initial := InitialCapacity(table, n);
    InitialCapacityIsPow2(table, n);
    var bins, capacity := InsertAll(spreads, initial, codes);
    FlattenedOrder(bins, Iota(n), codes, capacity);
    order := TakeAll(keys, Flatten(bins));
    OrderAt(keys, hash, codes, initial, capacity);
    forall k: nat | Pow2(k) == capacity
      ensures StableSort(order, keys, FoldedBins(hash, k))
    {
      SortedByFolded(order, keys, hash, k);
    }
  }

  /** From the order of the indices to the order of the keys. */
  lemma OrderAt<T(!new)>(keys: seq<T>, hash: T -> int, codes: nat -> int, initial: nat, c: nat)
    requires Agree(keys, hash, codes) && initial > 0 && IsPow2(c)
    ensures FinalCapacity<nat>(Iota(|keys|), codes, initial) == FinalCapacity(keys, hash, initial)
    ensures Within(OrderInTable<nat>(Iota(|keys|), codes, c), |keys|)
    ensures At(keys, OrderInTable<nat>(Iota(|keys|), codes, c)) == OrderInTable(keys, hash, c)
    ensures multiset(OrderInTable(keys, hash, c)) == multiset(keys)
    ensures StableSort(OrderInTable(keys, hash, c), keys, Bins(hash, c))
  {
    var s := Iota(|keys|);
    assert At(keys, s) == keys;
    FinalCapacityAt(keys, hash, codes, s, initial);
    FirstBucketsAt(keys, Bins(hash, c), Bins<nat>(codes, c), s, c);
    OrderIsTheStableSort(keys, hash, c);
  }
}
