/**
  The iteration order of a Java `HashMap` as the tools compute it: keys go one at a time into the
  bins of a table that doubles when it is loaded past three quarters, or when a bin of a small table
  grows past eight keys.
 */
module HashTable {
  import opened Naturals
  import opened PowersOfTwo
  import opened BucketSort

  const MAXIMUM_CAPACITY: nat := 0x4000_0000
  const TREEIFY_THRESHOLD: nat := 8
  const MIN_TREEIFY_CAPACITY: nat := 64

  /** How the map or set was built. */
  datatype Table = Default | WithCapacity(initial: nat) | Copy | HashSetCopy

  /** `HashMap.tableSizeFor`. */
  function TableSizeFor(wanted: nat): (c: nat)
    ensures c > 0
  {
    Min(NextPow2(Max(wanted, 1)), MAXIMUM_CAPACITY)
  }

  /** The table size meant to hold `entries` without a resize, `ceil(entries / 0.75)`. */
  function CapacityFor(entries: nat): nat {
    (entries * 4 + 2) / 3
  }

  /** The table size that the first insertion allocates. */
  function InitialCapacity(table: Table, entries: nat): (c: nat)
    ensures c > 0
  {
    match table
    case Default => 16
    case WithCapacity(initial) => TableSizeFor(initial)
    case Copy => TableSizeFor(CapacityFor(entries))
    case HashSetCopy => TableSizeFor(CapacityFor(Max(entries, 12)))
  }

  /** `HashMap.hash` of a 32-bit hash code: its high half folded into its low half. */
  function Spread(hash: int): nat {
    var unsigned := hash % 0x1_0000_0000;
    Xor(unsigned, unsigned / 0x1_0000)
  }

  /** The bin of a key with hash code `hash` in a table of `capacity` bins. */
  function Bin(hash: int, capacity: nat): nat
    requires capacity > 0
  {
    And(Spread(hash), capacity - 1)
  }

  /** `(int) (capacity * 0.75f)`. */
  function Threshold(capacity: nat): nat {
    capacity / 4 * 3 + capacity % 4 * 3 / 4
  }

  /** The bin of each key, as a sort key. */
  function Bins<T>(hash: T -> int, c: nat): T -> nat
    requires c > 0
  {
    x => Bin(hash(x), c)
  }

  /** `order_in_table`: by bin, and in the given order within a bin. */
  function OrderInTable<T>(s: seq<T>, hash: T -> int, c: nat): seq<T>
    requires c > 0
  {
    FirstBuckets(s, Bins(hash, c), c)
  }

  lemma MaximumIsPow2()
    ensures IsPow2(MAXIMUM_CAPACITY)
  {
    assert Pow2(10) == 1024;
    Pow2Product(10, 10);
    Pow2Product(20, 10);
  }

  lemma BinBound(hash: int, c: nat)
    requires IsPow2(c)
    ensures Bin(hash, c) < c
  {
    MaskIsMod(Spread(hash), c);
  }

  /** A key's bin in a table determines its bin in each smaller one. */
  lemma {:induction false} BinRefines(hash: int, c: nat, d: nat)
    requires IsPow2(c) && IsPow2(d) && c <= d
    ensures Bin(hash, c) == Bin(hash, d) % c
  {
    MaskIsMod(Spread(hash), c);
    MaskIsMod(Spread(hash), d);
    ModRefines(Spread(hash), c, d);
  }

  /** Ordering by the bins of a table keeps every bin of that table, and of each larger one. */
  lemma {:induction false} OrderKeepsBins<T>(s: seq<T>, hash: T -> int, c: nat, d: nat, e: nat)
    requires IsPow2(c) && IsPow2(d) && c <= d
    ensures Select(OrderInTable(s, hash, c), Bins(hash, d), e) == Select(s, Bins(hash, d), e)
  {
    var coarse, fine := Bins(hash, c), Bins(hash, d);
    forall x | x in s && fine(x) == e
      ensures coarse(x) == e % c
    {
      BinRefines(hash(x), c, d);
    }
    SelectFirstBuckets(s, coarse, c, fine, e, e % c);
  }

  /**
    What `order_in_table` promises, without its definition: a permutation sorted by bin that keeps
    the given order inside each bin. It is the only one, so any stable sort computes it.
   */
  lemma {:induction false} OrderIsTheStableSort<T(!new)>(s: seq<T>, hash: T -> int, c: nat)
    requires IsPow2(c)
    ensures multiset(OrderInTable(s, hash, c)) == multiset(s)
    ensures forall r: seq<T> :: StableSort(r, s, Bins(hash, c)) <==> r == OrderInTable(s, hash, c)
  {
    forall x: T
      ensures Bins(hash, c)(x) < c
    {
      BinBound(hash(x), c);
    }
    BucketsAreTheStableSort(s, Bins(hash, c), c);
  }

  /** Ordering by a larger table undoes what ordering by a smaller one did before. */
  lemma {:induction false} OrderAbsorbs<T>(s: seq<T>, hash: T -> int, c: nat, d: nat)
    requires IsPow2(c) && IsPow2(d) && c <= d
    ensures OrderInTable(OrderInTable(s, hash, c), hash, d) == OrderInTable(s, hash, d)
  {
    forall b: nat | b < d
      ensures Select(OrderInTable(s, hash, c), Bins(hash, d), b) == Select(s, Bins(hash, d), b)
    {
      OrderKeepsBins(s, hash, c, d, b);
    }
    SameBuckets(OrderInTable(s, hash, c), s, Bins(hash, d), d);
  }

  lemma {:induction false} OrderIdempotent<T>(s: seq<T>, hash: T -> int, c: nat)
    requires IsPow2(c)
    ensures OrderInTable(OrderInTable(s, hash, c), hash, c) == OrderInTable(s, hash, c)
  {
    OrderAbsorbs(s, hash, c, c);
  }
}
