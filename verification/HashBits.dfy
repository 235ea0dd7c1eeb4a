/** The bin of a key as arithmetic on its hash code: bit by bit, with the high half folded into the low one. */
module HashBits {
  import opened PowersOfTwo
  import opened BucketSort
  import opened HashTable

  /** The number below `2^k` whose bits are the sums, without carry, of the bits of `u` and `v`. */
  function Sums(u: nat, v: nat, k: nat): nat {
    if k == 0 then 0 else (u + v) % 2 + 2 * Sums(u / 2, v / 2, k - 1)
  }

  /** The bin of a hash code in a table of `2^k` bins. */
  function FoldedBin(hash: int, k: nat): nat {
    var u := hash % 0x1_0000_0000;
    Sums(u, u / 0x1_0000, k)
  }

  function FoldedBins<T>(hash: T -> int, k: nat): T -> nat {
    x => FoldedBin(hash(x), k)
  }

  lemma XorHalves(x: nat, y: nat)
    ensures Xor(x, y) % 2 == (x + y) % 2 && Xor(x, y) / 2 == Xor(x / 2, y / 2)
  {
    if x == 0 {
      XorZero(y);
      XorZero(y / 2);
    } else if y == 0 {
      XorZero(x);
      XorZero(x / 2);
    } else {
      LowAndHigh((x + y) % 2, Xor(x / 2, y / 2));
    }
  }

  lemma XorZero(x: nat)
    ensures Xor(0, x) == x && Xor(x, 0) == x
  {
  }

  lemma LowAndHigh(low: nat, high: nat)
    requires low < 2
    ensures (low + 2 * high) % 2 == low && (low + 2 * high) / 2 == high
  {
  }

  lemma {:induction false} XorIsSums(x: nat, y: nat, k: nat)
    ensures Xor(x, y) % Pow2(k) == Sums(x, y, k)
    decreases k
  {
    if k > 0 {
      XorHalves(x, y);
      XorIsSums(x / 2, y / 2, k - 1);
      ModDouble(Xor(x, y), Pow2(k - 1));
      assert Pow2(k) == 2 * Pow2(k - 1);
    }
  }

  lemma {:induction false} BinIsFolded(hash: int, k: nat)
    ensures Bin(hash, Pow2(k)) == FoldedBin(hash, k)
  {
    var u := hash % 0x1_0000_0000;
    MaskIsModPow(Spread(hash), k);
    XorIsSums(u, u / 0x1_0000, k);
  }

  // ----- Each bit

  lemma DivideTwice(x: nat, a: nat, b: nat)
    requires a > 0 && b > 0
    ensures a * b > 0 && x / a / b == x / (a * b)
  {
    var q, r := DivMod(x, a);
    var p, t := DivMod(q, b);
    assert x == p * (a * b) + (t * a + r) by {
      assert q * a == (p * b + t) * a == p * b * a + t * a;
      assert p * b * a == p * (a * b);
    }
    assert t * a + r < a * b by {
      assert t + 1 <= b;
      assert (t + 1) * a <= b * a;
      assert (t + 1) * a == t * a + a;
    }
    ModUnique(x, a * b, p, t * a + r);
    ModUnique(q, b, p, t);
    ModUnique(x, a, q, r);
  }

  lemma {:induction false} SumsBit(u: nat, v: nat, k: nat, i: nat)
    requires i < k
    ensures Sums(u, v, k) / Pow2(i) % 2 == (u / Pow2(i) + v / Pow2(i)) % 2
    decreases i
  {
    SumsHalves(u, v, k);
    if i > 0 {
      SumsBit(u / 2, v / 2, k - 1, i - 1);
      BitStep(Sums(u, v, k), u, v, i);
    }
  }

  lemma SumsHalves(u: nat, v: nat, k: nat)
    requires k > 0
    ensures Sums(u, v, k) % 2 == (u + v) % 2 && Sums(u, v, k) / 2 == Sums(u / 2, v / 2, k - 1)
  {
    LowAndHigh((u + v) % 2, Sums(u / 2, v / 2, k - 1));
  }

  lemma BitStep(s: nat, u: nat, v: nat, i: nat)
    requires i > 0 && s / 2 / Pow2(i - 1) % 2 == (u / 2 / Pow2(i - 1) + v / 2 / Pow2(i - 1)) % 2
    ensures s / Pow2(i) % 2 == (u / Pow2(i) + v / Pow2(i)) % 2
  {
    HalfFirst(s, i);
    HalfFirst(u, i);
    HalfFirst(v, i);
  }

  lemma HalfFirst(x: nat, i: nat)
    requires i > 0
    ensures x / Pow2(i) == x / 2 / Pow2(i - 1)
  {
    DivideTwice(x, 2, Pow2(i - 1));
  }

  lemma HighHalf(u: nat, i: nat)
    ensures u / 0x1_0000 / Pow2(i) == u / Pow2(i + 16)
  {
    Pow2Sixteen();
    Pow2Product(i, 16);
    DivideTwice(u, 0x1_0000, Pow2(i));
  }

  /** Bit `i` of a bin is the sum, without carry, of bits `i` and `i + 16` of the hash code. */
  lemma {:induction false} BinBits(hash: int, k: nat, i: nat)
    requires i < k
    ensures var u := hash % 0x1_0000_0000;
            Bin(hash, Pow2(k)) / Pow2(i) % 2 == (u / Pow2(i) + u / Pow2(i + 16)) % 2
  {
    var u := hash % 0x1_0000_0000;
    BinIsFolded(hash, k);
    SumsBit(u, u / 0x1_0000, k, i);
    HighHalf(u, i);
  }

  lemma Pow2Sixteen()
    ensures Pow2(16) == 0x1_0000
  {
    assert Pow2(8) == 256;
    Pow2Product(8, 8);
  }

  // ----- Sorting by it

  lemma {:induction false} SelectSameKey<T>(s: seq<T>, key: T -> nat, other: T -> nat, b: nat)
    requires forall x :: x in s ==> key(x) == other(x)
    ensures Select(s, key, b) == Select(s, other, b)
  {
    if s != [] {
      SelectSameKey(s[..|s| - 1], key, other, b);
    }
  }

  /** A stable sort by bin is one by the folded bits. */
  lemma SortedByFolded<T>(order: seq<T>, keys: seq<T>, hash: T -> int, k: nat)
    requires StableSort(order, keys, Bins(hash, Pow2(k)))
    ensures StableSort(order, keys, FoldedBins(hash, k))
  {
    var key, other := Bins(hash, Pow2(k)), FoldedBins(hash, k);
    forall x: T
      ensures key(x) == other(x)
    {
      BinIsFolded(hash(x), k);
    }
    forall b: nat
      ensures Select(order, other, b) == Select(keys, other, b)
    {
      SelectSameKey(order, key, other, b);
      SelectSameKey(keys, key, other, b);
    }
  }
}
