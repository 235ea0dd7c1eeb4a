/** The broker order of the log-directory document: one broker list through three hash tables. */
module LogDirs {
  import opened PowersOfTwo
  import opened BucketSort
  import opened HashTable
  import opened HashInsertion
  import opened HashCapacity

  /** `Integer.hashCode`. */
  function IntegerHash(value: int): int { value }

  /** The capacity of a table built as `table` from `keys`. */
  function CapacityOf(keys: seq<int>, table: Table): (c: nat)
    ensures c > 0
  {
    InitialCapacityIsPow2(table, |keys|);
    FinalCapacity(keys, IntegerHash, InitialCapacity(table, |keys|))
  }

  /** What `hash_order` returns for broker ids, by its contract. */
  function Pass(keys: seq<int>, table: Table): seq<int> {
    OrderInTable(keys, IntegerHash, CapacityOf(keys, table))
  }

  function ThreePasses(brokers: seq<int>): seq<int> {
    var sized := WithCapacity(|brokers|);
    Pass(Pass(Pass(brokers, sized), Copy), sized)
  }

  /** `hash_order` of broker ids. */
  method OnePass(keys: seq<int>, table: Table) returns (order: seq<int>)
    ensures order == Pass(keys, table) && multiset(order) == multiset(keys) && |order| == |keys|
  {
    order := HashOrder(keys, table, IntegerHash);
    assert |order| == |multiset(order)| == |multiset(keys)|;
  }

  /** `document_order`. */
  method DocumentOrder(brokers: seq<int>) returns (order: seq<int>)
    ensures order == ThreePasses(brokers)
    ensures multiset(order) == multiset(brokers)
  {
    var count := |brokers|;
    var once := OnePass(brokers, WithCapacity(count));
    var twice := OnePass(once, Copy);
    order := OnePass(twice, WithCapacity(count));
  }

  lemma CapacityOfIsTableSize(keys: seq<int>, table: Table)
    ensures IsTableSize(CapacityOf(keys, table))
    ensures multiset(Pass(keys, table)) == multiset(keys) && |Pass(keys, table)| == |keys|
  {
    InitialCapacityIsPow2(table, |keys|);
    CapacityBounds(keys, IntegerHash, InitialCapacity(table, |keys|));
    OrderIsTheStableSort(keys, IntegerHash, CapacityOf(keys, table));
    assert |Pass(keys, table)| == |multiset(Pass(keys, table))|;
  }

  /** When the three tables and the copied one end with the same capacity, two passes are redundant. */
  lemma {:induction false} OneCapacityOnePass(brokers: seq<int>)
    requires var sized, once := WithCapacity(|brokers|), Pass(brokers, WithCapacity(|brokers|));
             && CapacityOf(brokers, sized) == CapacityOf(brokers, Copy) == CapacityOf(once, Copy)
             && CapacityOf(once, sized) == CapacityOf(once, Copy)
    ensures ThreePasses(brokers) == Pass(brokers, Copy)
  {
    CapacityOfIsTableSize(brokers, Copy);
    OrderIdempotent(brokers, IntegerHash, CapacityOf(brokers, Copy));
  }

  // ----- When nothing stretches a table

  /** A table that follows its load ends at the same capacity whichever way it was built. */
  lemma UnstretchedCapacity(keys: seq<int>, table: Table)
    requires table == Copy || table == WithCapacity(|keys|)
    requires NeverStretches(keys, IntegerHash, InitialCapacity(table, |keys|))
    ensures CapacityOf(keys, table) == LoadCapacity(|keys|)
  {
    InitialCapacityIsPow2(table, |keys|);
    CapacityIsLoad(keys, IntegerHash, InitialCapacity(table, |keys|));
    CopyIsLoad(|keys|);
    WithCapacityIsBelowLoad(|keys|);
  }

  /** The three passes are one `Copy` pass when no insertion of any of them stretches its table. */
  lemma {:induction false} UnstretchedIsOnePass(brokers: seq<int>)
    requires var sized, once := WithCapacity(|brokers|), Pass(brokers, WithCapacity(|brokers|));
             forall keys, table :: keys in {brokers, once} && table in {Copy, sized}
               ==> NeverStretches(keys, IntegerHash, InitialCapacity(table, |brokers|))
    ensures ThreePasses(brokers) == Pass(brokers, Copy)
  {
    var sized, once := WithCapacity(|brokers|), Pass(brokers, WithCapacity(|brokers|));
    CapacityOfIsTableSize(brokers, sized);
    UnstretchedCapacity(brokers, Copy);
    UnstretchedCapacity(brokers, sized);
    UnstretchedCapacity(once, Copy);
    UnstretchedCapacity(once, sized);
    OneCapacityOnePass(brokers);
  }

  // ----- When the number of brokers alone decides

  /** Some bin of a table with `c` bins gets more than eight of `keys`. */
  ghost predicate Crowded(keys: seq<int>, c: nat)
    requires c > 0
  {
    exists b: nat :: |Select(keys, Bins(IntegerHash, c), b)| > TREEIFY_THRESHOLD
  }

  /** A table that can stretch once only stretches exactly when it is crowded, in whatever order. */
  lemma {:induction false} OneDoubling(keys: seq<int>, c: nat)
    requires IsTableSize(c) && c < MIN_TREEIFY_CAPACITY && |keys| <= Threshold(c)
    requires |keys| <= TREEIFY_THRESHOLD + 1 || 2 * c >= MIN_TREEIFY_CAPACITY
    ensures FinalCapacity(keys, IntegerHash, c) == if Crowded(keys, c) then 2 * c else c
  {
    if keys != [] {
      var keys', x := keys[..|keys| - 1], keys[|keys| - 1];
      OneDoubling(keys', c);
      var key := Bins(IntegerHash, c);
      forall b: nat
        ensures |Select(keys, key, b)| == |Select(keys', key, b)| + if key(x) == b then 1 else 0
        ensures |Select(keys', key, b)| <= |keys'|
      {
        SelectSize(keys', key, b);
      }
      if |Select(keys, key, key(x))| > TREEIFY_THRESHOLD {
        assert Crowded(keys, c);
      }
      if Crowded(keys', c) {
        var b :| |Select(keys', key, b)| > TREEIFY_THRESHOLD;
        assert |Select(keys, key, b)| > TREEIFY_THRESHOLD;
      }
    }
  }

  lemma SelectOneMore(keys: seq<int>, c: nat, b: nat)
    requires c > 0 && keys != []
    ensures var last := keys[|keys| - 1];
            |Select(keys, Bins(IntegerHash, c), b)|
            == |Select(keys[..|keys| - 1], Bins(IntegerHash, c), b)| + if Bins(IntegerHash, c)(last) == b then 1 else 0
  {
  }

  /** A table that its load leaves alone keeps its size exactly when it is not crowded, in whatever order. */
  lemma {:induction false} StaysExactly(keys: seq<int>, c: nat)
    requires IsTableSize(c) && c < MIN_TREEIFY_CAPACITY && |keys| <= Threshold(c)
    ensures FinalCapacity(keys, IntegerHash, c) >= c
    ensures FinalCapacity(keys, IntegerHash, c) == c <==> !Crowded(keys, c)
  {
    if keys != [] {
      var keys', x := keys[..|keys| - 1], keys[|keys| - 1];
      StaysExactly(keys', c);
      var key := Bins(IntegerHash, c);
      SelectOneMore(keys, c, key(x));
      if Crowded(keys', c) {
        var b :| |Select(keys', key, b)| > TREEIFY_THRESHOLD;
        SelectOneMore(keys, c, b);
        assert Crowded(keys, c);
      } else if Crowded(keys, c) {
        var b :| |Select(keys, key, b)| > TREEIFY_THRESHOLD;
        SelectOneMore(keys, c, b);
        assert |Select(keys', key, b)| <= TREEIFY_THRESHOLD;
      }
    }
  }

  lemma CrowdedPermute(keys: seq<int>, other: seq<int>, c: nat)
    requires c > 0 && multiset(keys) == multiset(other) && Crowded(keys, c)
    ensures Crowded(other, c)
  {
    var b :| |Select(keys, Bins(IntegerHash, c), b)| > TREEIFY_THRESHOLD;
    SelectSizePermute(keys, other, Bins(IntegerHash, c), b);
  }

  lemma NextPow2Between(wanted: nat, c: nat)
    requires IsPow2(c) && c < wanted <= 2 * c
    ensures NextPow2(wanted) == 2 * c
  {
    DoublePow2(c);
    Pow2Gap(c, NextPow2(wanted));
  }

  lemma InitialCapacities(n: nat)
    ensures n == 9 ==> InitialCapacity(WithCapacity(n), n) == InitialCapacity(Copy, n) == 16
    ensures 10 <= n <= 12 ==> InitialCapacity(WithCapacity(n), n) == InitialCapacity(Copy, n) == 16
    ensures 13 <= n <= 16 ==> InitialCapacity(WithCapacity(n), n) == 16 && InitialCapacity(Copy, n) == 32
    ensures 17 <= n <= 24 ==> InitialCapacity(WithCapacity(n), n) == InitialCapacity(Copy, n) == 32
    ensures n >= 25 ==> LoadCapacity(n) >= MIN_TREEIFY_CAPACITY
  {
    SmallPowers();
    if 9 <= n <= 16 {
      NextPow2Between(n, 8);
    } else if 17 <= n <= 24 {
      NextPow2Between(n, 16);
    }
    if 9 <= n <= 12 {
      NextPow2Between(CapacityFor(n), 8);
    } else if 13 <= n <= 24 {
      NextPow2Between(CapacityFor(n), 16);
    } else if n >= 25 {
      LoadCapacityIsLeast(n);
      Pow2Gap(32, LoadCapacity(n));
    }
  }

  /** The capacity outside 10 to 16 brokers. */
  ghost function Settled(keys: seq<int>): nat {
    if 9 <= |keys| <= 24 && Crowded(keys, LoadCapacity(|keys|)) then 2 * LoadCapacity(|keys|)
    else LoadCapacity(|keys|)
  }

  lemma FewSettled(keys: seq<int>, table: Table)
    requires |keys| < 9
    requires table == Copy || table == WithCapacity(|keys|)
    ensures CapacityOf(keys, table) == LoadCapacity(|keys|)
  {
    InitialCapacityIsPow2(table, |keys|);
    SmallOrLargeNeverStretches(keys, IntegerHash, InitialCapacity(table, |keys|));
    UnstretchedCapacity(keys, table);
  }

  lemma ManySettled(keys: seq<int>, table: Table)
    requires |keys| > 24
    requires table == Copy || table == WithCapacity(|keys|)
    ensures CapacityOf(keys, table) == LoadCapacity(|keys|)
  {
    InitialCapacities(|keys|);
    InitialCapacityIsPow2(table, |keys|);
    CapacityBounds(keys, IntegerHash, InitialCapacity(table, |keys|));
    CopyIsLoad(|keys|);
    WithCapacityIsBelowLoad(|keys|);
  }

  lemma MiddlingSettled(keys: seq<int>, table: Table, c: nat)
    requires |keys| == 9 || 17 <= |keys| <= 24
    requires table == Copy || table == WithCapacity(|keys|)
    requires c == LoadCapacity(|keys|)
    ensures CapacityOf(keys, table) == if Crowded(keys, c) then 2 * c else c
  {
    InitialCapacityIsPow2(table, |keys|);
    CopyIsLoad(|keys|);
    InitialCapacities(|keys|);
    assert |keys| <= Threshold(c);
    OneDoubling(keys, c);
  }

  /** It depends on neither the order of the brokers nor the kind of table. */
  lemma SettledCapacity(keys: seq<int>, table: Table)
    requires |keys| < 10 || |keys| > 16
    requires table == Copy || table == WithCapacity(|keys|)
    ensures CapacityOf(keys, table) == Settled(keys)
  {
    if |keys| < 9 {
      FewSettled(keys, table);
    } else if |keys| > 24 {
      ManySettled(keys, table);
    } else {
      MiddlingSettled(keys, table, LoadCapacity(|keys|));
    }
  }

  lemma SettledPermute(keys: seq<int>, other: seq<int>)
    requires multiset(keys) == multiset(other) && |keys| == |other|
    ensures Settled(keys) == Settled(other)
  {
    var c := LoadCapacity(|keys|);
    if Crowded(keys, c) {
      CrowdedPermute(keys, other, c);
    } else if Crowded(other, c) {
      CrowdedPermute(other, keys, c);
    }
  }

  /** `document_order` is one `Copy` pass for every list of fewer than 10 or more than 16 brokers. */
  lemma {:induction false} SettledIsOnePass(brokers: seq<int>)
    requires |brokers| < 10 || |brokers| > 16
    ensures ThreePasses(brokers) == Pass(brokers, Copy)
  {
    var sized := WithCapacity(|brokers|);
    CapacityOfIsTableSize(brokers, sized);
    var once := Pass(brokers, sized);
    SettledPermute(brokers, once);
    SettledCapacity(brokers, sized);
    SettledCapacity(brokers, Copy);
    SettledCapacity(once, Copy);
    SettledCapacity(once, sized);
    OneCapacityOnePass(brokers);
  }
}
