/** The capacity that a table of `hash_order` ends with. */
module HashCapacity {
  import opened Naturals
  import opened PowersOfTwo
  import opened BucketSort
  import opened HashTable
  import opened HashInsertion

  /** A table of `c` bins takes `n` keys without a resize for load. */
  predicate Holds(c: nat, n: nat) {
    n <= Threshold(c) || c == MAXIMUM_CAPACITY
  }

  ghost predicate IsTableSize(c: nat) {
    IsPow2(c) && c <= MAXIMUM_CAPACITY
  }

  lemma MaximumIsTableSize()
    ensures IsTableSize(MAXIMUM_CAPACITY)
  {
    MaximumIsPow2();
  }

  /** Doubles `c` until it holds `n` keys. */
  function GrowFrom(c: nat, n: nat): (r: nat)
    requires c > 0
    ensures r >= c
    decreases MAXIMUM_CAPACITY - c
  {
    if n > Threshold(c) && c < MAXIMUM_CAPACITY then GrowFrom(2 * c, n) else c
  }

  const SMALLEST_CAPACITY: nat := 1

  /** The least table size that holds `n` keys. */
  function LoadCapacity(n: nat): nat {
    GrowFrom(SMALLEST_CAPACITY, n)
  }

  lemma DoubleTableSize(c: nat)
    requires IsTableSize(c) && c < MAXIMUM_CAPACITY
    ensures IsTableSize(2 * c)
  {
    MaximumIsTableSize();
    Pow2Gap(c, MAXIMUM_CAPACITY);
    DoublePow2(c);
  }

  lemma {:induction false} GrowFromIsLeast(c: nat, n: nat)
    requires IsTableSize(c)
    ensures IsTableSize(GrowFrom(c, n)) && GrowFrom(c, n) >= c && Holds(GrowFrom(c, n), n)
    ensures forall d: nat :: IsTableSize(d) && c <= d && Holds(d, n) ==> GrowFrom(c, n) <= d
    decreases MAXIMUM_CAPACITY - c
  {
    if n > Threshold(c) && c < MAXIMUM_CAPACITY {
      DoubleTableSize(c);
      GrowFromIsLeast(2 * c, n);
      forall d: nat | IsTableSize(d) && c <= d && Holds(d, n)
        ensures GrowFrom(c, n) <= d
      {
        Pow2Gap(c, d);
      }
    }
  }

  /** `LoadCapacity(n)` is the least table size that holds `n`, said without the doubling. */
  lemma {:induction false} LoadCapacityIsLeast(n: nat)
    ensures IsTableSize(LoadCapacity(n)) && Holds(LoadCapacity(n), n)
    ensures forall c: nat :: IsTableSize(c) ==> (Holds(c, n) <==> LoadCapacity(n) <= c)
  {
    SmallPowers();
    GrowFromIsLeast(SMALLEST_CAPACITY, n);
    var m := LoadCapacity(n);
    forall c: nat | IsTableSize(c) && m <= c
      ensures Holds(c, n)
    {
      assert Threshold(m) <= Threshold(c);
    }
  }

  lemma LoadFits(n: nat, c: nat)
    requires IsTableSize(c)
    ensures Holds(c, n) <==> LoadCapacity(n) <= c
    ensures IsTableSize(LoadCapacity(n)) && Holds(LoadCapacity(n), n)
  {
    LoadCapacityIsLeast(n);
  }

  lemma LoadCapacityOfNone()
    ensures LoadCapacity(0) == 1
  {
  }

  /** The capacity of a table that only load makes grow. */
  function LoadOnly(initial: nat, n: nat): nat {
    Max(initial, LoadCapacity(n))
  }

  lemma LoadCapacityMonotone(n: nat, k: nat)
    requires n <= k
    ensures LoadCapacity(n) <= LoadCapacity(k)
  {
    LoadCapacityIsLeast(n);
    LoadCapacityIsLeast(k);
  }

  lemma ThresholdDoubles(c: nat)
    requires c > 0
    ensures Threshold(2 * c) > Threshold(c)
  {
  }

  /** One check of the load is enough after one more key. */
  lemma {:induction false} ReloadCatchesUp(n: nat, c: nat)
    requires IsTableSize(c) && LoadCapacity(n) <= c
    ensures Reload(n + 1, c) == Max(c, LoadCapacity(n + 1))
    ensures IsTableSize(Reload(n + 1, c))
  {
    LoadFits(n + 1, c);
    if !Holds(c, n + 1) {
      LoadDoubles(n, c);
    }
  }

  /** One key too many asks for a table of exactly twice the size. */
  lemma LoadDoubles(n: nat, c: nat)
    requires IsTableSize(c) && LoadCapacity(n) <= c && !Holds(c, n + 1)
    ensures LoadCapacity(n + 1) == 2 * c && IsTableSize(2 * c)
  {
    LoadFits(n, c);
    LoadFits(n + 1, c);
    DoubleTableSize(c);
    DoubleHolds(n, c);
    LoadFits(n + 1, 2 * c);
    Between(c, LoadCapacity(n + 1));
  }

  lemma DoubleHolds(n: nat, c: nat)
    requires c > 0 && Holds(c, n) && !Holds(c, n + 1)
    ensures Holds(2 * c, n + 1)
  {
    ThresholdDoubles(c);
  }

  lemma Between(c: nat, d: nat)
    requires IsPow2(c) && IsPow2(d) && c < d <= 2 * c
    ensures d == 2 * c
  {
    Pow2Gap(c, d);
  }

  lemma TreeifyBound(size: nat, c: nat)
    requires IsTableSize(c)
    ensures IsTableSize(Treeify(size, c)) && c <= Treeify(size, c) <= Max(c, MIN_TREEIFY_CAPACITY)
  {
    if c < MIN_TREEIFY_CAPACITY {
      SmallPowers();
      Pow2Gap(c, MIN_TREEIFY_CAPACITY);
      DoublePow2(c);
    }
  }

  /** One insertion keeps the capacity between what the load asks for and the treeify limit. */
  lemma StepBounds(n: nat, size: nat, initial: nat, c: nat)
    requires IsTableSize(c)
    requires LoadOnly(initial, n) <= c <= Max(LoadOnly(initial, n), MIN_TREEIFY_CAPACITY)
    ensures var d := Reload(n + 1, Treeify(size, c));
            && IsTableSize(d)
            && LoadOnly(initial, n + 1) <= d <= Max(LoadOnly(initial, n + 1), MIN_TREEIFY_CAPACITY)
  {
    TreeifyBound(size, c);
    ReloadCatchesUp(n, Treeify(size, c));
    LoadCapacityMonotone(n, n + 1);
    BetweenMaxima(initial, LoadCapacity(n), LoadCapacity(n + 1), c, Treeify(size, c));
  }

  lemma BetweenMaxima(initial: nat, load: nat, later: nat, c: nat, t: nat)
    requires Max(initial, load) <= c <= Max(Max(initial, load), MIN_TREEIFY_CAPACITY)
    requires load <= later && c <= t <= Max(c, MIN_TREEIFY_CAPACITY)
    ensures Max(initial, later) <= Max(t, later) <= Max(Max(initial, later), MIN_TREEIFY_CAPACITY)
  {
  }

  /** Every key list: at least what the load asks for, at most that or the treeify limit. */
  lemma {:induction false} CapacityBounds<T>(keys: seq<T>, hash: T -> int, initial: nat)
    requires IsTableSize(initial)
    ensures var c := FinalCapacity(keys, hash, initial);
            && IsTableSize(c)
            && LoadOnly(initial, |keys|) <= c <= Max(LoadOnly(initial, |keys|), MIN_TREEIFY_CAPACITY)
  {
    if keys == [] {
      LoadCapacityOfNone();
    } else {
      var keys' := keys[..|keys| - 1];
      CapacityBounds(keys', hash, initial);
      var c := FinalCapacity(keys', hash, initial);
      StepBounds(|keys'|, LastBinSize(keys, hash, c), initial, c);
    }
  }

  /** An insertion as key `n` makes a bin so long that a table of `c` bins grows although its load allows it. */
  predicate Stretch(n: nat, size: nat, c: nat) {
    size > TREEIFY_THRESHOLD && c < MIN_TREEIFY_CAPACITY && n <= Threshold(c)
  }

  lemma StretchedStep(n: nat, size: nat, c: nat)
    requires IsTableSize(c) && LoadCapacity(n) <= c
    ensures Reload(n + 1, Treeify(size, c)) == Reload(n + 1, c) <==> !Stretch(n + 1, size, c)
  {
    TreeifyBound(size, c);
    ReloadCatchesUp(n, c);
    ReloadCatchesUp(n, Treeify(size, c));
    LoadFits(n + 1, c);
    if Treeify(size, c) != c && !Holds(c, n + 1) {
      Pow2Gap(c, LoadCapacity(n + 1));
    }
  }

  /** The insertion of the last of `keys` stretches a table that followed the load until then. */
  predicate LastStretches<T>(keys: seq<T>, hash: T -> int, initial: nat)
    requires keys != [] && initial > 0
  {
    var c := LoadOnly(initial, |keys| - 1);
    Stretch(|keys|, LastBinSize(keys, hash, c), c)
  }

  /** After every prefix of `keys` the capacity is the one of the load. */
  predicate FollowsLoad<T>(keys: seq<T>, hash: T -> int, initial: nat)
    requires initial > 0
  {
    && (keys == [] || FollowsLoad(keys[..|keys| - 1], hash, initial))
    && FinalCapacity(keys, hash, initial) == LoadOnly(initial, |keys|)
  }

  /** No prefix of `keys` ends in an insertion that stretches the table. */
  predicate NeverStretches<T>(keys: seq<T>, hash: T -> int, initial: nat)
    requires initial > 0
  {
    keys == [] || (NeverStretches(keys[..|keys| - 1], hash, initial) && !LastStretches(keys, hash, initial))
  }

  lemma LastFollows<T>(keys: seq<T>, hash: T -> int, initial: nat)
    requires IsTableSize(initial) && keys != []
    requires FinalCapacity(keys[..|keys| - 1], hash, initial) == LoadOnly(initial, |keys| - 1)
    ensures FinalCapacity(keys, hash, initial) == LoadOnly(initial, |keys|) <==> !LastStretches(keys, hash, initial)
  {
    var n := |keys| - 1;
    CapacityBounds(keys[..n], hash, initial);
    var c := LoadOnly(initial, n);
    StretchedStep(n, LastBinSize(keys, hash, c), c);
    ReloadCatchesUp(n, c);
    LoadCapacityMonotone(n, n + 1);
  }

  /** The capacity follows the load all along exactly when no insertion stretches the table. */
  lemma {:induction false} CapacityIsLoad<T>(keys: seq<T>, hash: T -> int, initial: nat)
    requires IsTableSize(initial)
    ensures FollowsLoad(keys, hash, initial) <==> NeverStretches(keys, hash, initial)
  {
    if keys == [] {
      LoadCapacityOfNone();
    } else {
      var keys' := keys[..|keys| - 1];
      CapacityIsLoad(keys', hash, initial);
      if FollowsLoad(keys', hash, initial) {
        LastFollows(keys, hash, initial);
      }
    }
  }

  lemma {:induction false} SelectSize<T>(s: seq<T>, key: T -> nat, b: nat)
    ensures |Select(s, key, b)| <= |s|
  {
    if s != [] {
      SelectSize(s[..|s| - 1], key, b);
    }
  }

  /** Few keys, or a table that starts large enough, never stretch. */
  lemma {:induction false} SmallOrLargeNeverStretches<T>(keys: seq<T>, hash: T -> int, initial: nat)
    requires initial > 0
    requires |keys| <= TREEIFY_THRESHOLD || initial >= MIN_TREEIFY_CAPACITY
    ensures NeverStretches(keys, hash, initial)
  {
    if keys != [] {
      SmallOrLargeNeverStretches(keys[..|keys| - 1], hash, initial);
      var c := LoadOnly(initial, |keys| - 1);
      SelectSize(keys, Bins(hash, c), Bin(hash(keys[|keys| - 1]), c));
    }
  }

  // ----- The kinds of table

  /** `default_capacity`. */
  method DefaultCapacity(entries: nat) returns (capacity: nat)
    ensures capacity == LoadOnly(InitialCapacity(Default, entries), entries)
    ensures IsTableSize(capacity)
  {
    capacity := 16;
    SmallPowers();
    ghost var half: nat := 0;
    while entries > capacity / 4 * 3 && capacity < MAXIMUM_CAPACITY
      invariant IsTableSize(capacity) && capacity % 4 == 0
      invariant capacity == 16 || (capacity == 2 * half && IsTableSize(half) && half >= 16 && !Holds(half, entries))
      decreases MAXIMUM_CAPACITY - capacity
    {
      DoubleTableSize(capacity);
      half := capacity;
      capacity := capacity * 2;
    }
    LoadFits(entries, capacity);
    if capacity != 16 {
      LoadFits(entries, half);
      Pow2Gap(half, LoadCapacity(entries));
    }
  }

  /** A copied map starts with exactly the table that its load needs. */
  /** Table sizes are the powers of two up to 2^30, and a table is loaded at three quarters. */
  lemma {:induction false} SizesAre(c: nat)
    ensures IsTableSize(c) <==> IsPow2(c) && c <= 1_073_741_824
    ensures Threshold(c) == c * 3 / 4
    ensures Treeify(9, 32) == 64 && Treeify(8, 32) == 32 && Treeify(9, 64) == 64
  {
  }

  /** How small each kind of table may start, by what it was built with and for. */
  lemma {:induction false} InitialExactly(table: Table, n: nat, c: nat)
    requires IsTableSize(c)
    ensures InitialCapacity(table, n) <= c <==>
              match table
              case Default => 16 <= c
              case WithCapacity(initial) => initial <= c || c == 1_073_741_824
              case Copy => n <= c * 3 / 4 || c == 1_073_741_824
              case HashSetCopy => (n <= c * 3 / 4 && 12 <= c * 3 / 4) || c == 1_073_741_824
  {
    SizesAre(c);
    match table
    case Default =>
    case WithCapacity(initial) =>
      assert NextPow2(Max(initial, 1)) <= c <==> initial <= c;
    case Copy =>
      CopyIsLoad(n);
      LoadFits(n, c);
    case HashSetCopy =>
      CopyIsLoad(Max(n, 12));
      LoadFits(Max(n, 12), c);
  }

  lemma {:induction false} CopyIsLoad(n: nat)
    ensures InitialCapacity(Copy, n) == LoadCapacity(n)
  {
    var wanted := Max(CapacityFor(n), 1);
    var p := NextPow2(wanted);
    LoadCapacityIsLeast(n);
    MaximumIsTableSize();
    var m := InitialCapacity(Copy, n);
    assert p > MAXIMUM_CAPACITY || Holds(p, n);
    assert IsPow2(LoadCapacity(n));
    assert Holds(LoadCapacity(n), n) && LoadCapacity(n) < MAXIMUM_CAPACITY ==> LoadCapacity(n) >= wanted;
  }

  /** A map with its key count as capacity starts no larger than its load needs. */
  lemma {:induction false} WithCapacityIsBelowLoad(n: nat)
    ensures InitialCapacity(WithCapacity(n), n) <= LoadCapacity(n)
  {
    LoadCapacityIsLeast(n);
  }

  /** Copied maps and sets never resize for load, at any point of the insertions. */
  lemma {:induction false} CopiesNeverReload(table: Table, n: nat, i: nat, c: nat)
    requires table.Copy? || table.HashSetCopy?
    requires i <= n && IsTableSize(c) && InitialCapacity(table, n) <= c
    ensures Reload(i, c) == c
  {
    CopyIsLoad(n);
    CopyIsLoad(Max(n, 12));
    LoadCapacityMonotone(i, n);
    LoadCapacityMonotone(n, Max(n, 12));
    LoadFits(i, c);
  }
}
