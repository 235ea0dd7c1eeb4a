/**
  For 10 to 16 brokers the three tables of the document can disagree: answers of each such length, and
  exactly when a listing can meet them.
 */
module LogDirsCases {
  import opened Wrappers
  import opened PowersOfTwo
  import opened BucketSort
  import opened HashTable
  import opened HashInsertion
  import opened HashCapacity
  import opened LogDirs
  import opened LogDirsQuery

  /** Broker ids below 2^16 that all have remainder `r` by 64. */
  predicate Block(s: seq<int>, r: nat) {
    forall i :: 0 <= i < |s| ==> 0 <= s[i] < 0x1_0000 && s[i] % 64 == r
  }

  lemma SmallBin(x: int, c: nat)
    requires 0 <= x < 0x1_0000 && IsPow2(c)
    ensures Bin(x, c) == x % c
  {
    SmallSpread(x);
    MaskIsMod(x, c);
  }

  lemma SmallSpread(x: int)
    requires 0 <= x < 0x1_0000
    ensures Spread(x) == x
  {
  }

  lemma TableSizes(c: nat)
    requires c in {16, 32, 64}
    ensures IsPow2(c) && IsPow2(64)
  {
    SmallPowers();
  }

  lemma SmallKey(x: int, c: nat)
    requires 0 <= x < 0x1_0000 && c in {16, 32, 64}
    ensures Bins(IntegerHash, c)(x) == x % 64 % c
  {
    TableSizes(c);
    SmallBin(x, c);
    ModRefines(x, c, 64);
    assert Bins(IntegerHash, c)(x) == Bin(IntegerHash(x), c);
  }

  lemma {:induction false} SelectBlock(s: seq<int>, r: nat, c: nat, b: nat)
    requires Block(s, r) && c in {16, 32, 64}
    ensures Select(s, Bins(IntegerHash, c), b) == if r % c == b then s else []
  {
    if s != [] {
      SelectBlock(s[..|s| - 1], r, c, b);
      SmallKey(s[|s| - 1], c);
      assert s == s[..|s| - 1] + [s[|s| - 1]];
    }
  }

  /** Four blocks of ids, each with its remainder by 64. */
  datatype Blocks = Blocks(a: seq<int>, ra: nat, b: seq<int>, rb: nat, c: seq<int>, rc: nat, d: seq<int>, rd: nat)

  function Ids(bs: Blocks): seq<int> {
    bs.a + bs.b + bs.c + bs.d
  }

  predicate Valid(bs: Blocks) {
    Block(bs.a, bs.ra) && Block(bs.b, bs.rb) && Block(bs.c, bs.rc) && Block(bs.d, bs.rd)
  }

  /** The ids of bin `b` in a table of `c` bins. */
  function Selected(bs: Blocks, c: nat, b: nat): seq<int>
    requires c > 0
  {
    (if bs.ra % c == b then bs.a else []) + (if bs.rb % c == b then bs.b else [])
    + (if bs.rc % c == b then bs.c else []) + (if bs.rd % c == b then bs.d else [])
  }

  lemma SelectBlocks(bs: Blocks, c: nat, b: nat)
    requires Valid(bs) && c in {16, 32, 64}
    ensures Select(Ids(bs), Bins(IntegerHash, c), b) == Selected(bs, c, b)
  {
    SelectBlock(bs.a, bs.ra, c, b);
    SelectBlock(bs.b, bs.rb, c, b);
    SelectBlock(bs.c, bs.rc, c, b);
    SelectBlock(bs.d, bs.rd, c, b);
    SelectConcat(bs.a, bs.b, Bins(IntegerHash, c), b);
    SelectConcat(bs.a + bs.b, bs.c, Bins(IntegerHash, c), b);
    SelectConcat(bs.a + bs.b + bs.c, bs.d, Bins(IntegerHash, c), b);
  }

  lemma BlockKeys(s: seq<int>, r: nat, c: nat)
    requires Block(s, r) && c in {16, 32, 64}
    ensures forall i :: 0 <= i < |s| ==> Bins(IntegerHash, c)(s[i]) == r % c
  {
    forall i | 0 <= i < |s|
      ensures Bins(IntegerHash, c)(s[i]) == r % c
    {
      SmallKey(s[i], c);
    }
  }

  /** Blocks in the order of their bins, with the same bins as `bs`, are the order of `bs`. */
  lemma OrderedBlocks(bs: Blocks, sorted: Blocks, c: nat)
    requires Valid(bs) && Valid(sorted) && c in {16, 32, 64}
    requires sorted.ra % c <= sorted.rb % c <= sorted.rc % c <= sorted.rd % c
    requires forall b: nat :: Selected(bs, c, b) == Selected(sorted, c, b)
    ensures OrderInTable(Ids(bs), IntegerHash, c) == Ids(sorted)
  {
    TableSizes(c);
    BlockKeys(sorted.a, sorted.ra, c);
    BlockKeys(sorted.b, sorted.rb, c);
    BlockKeys(sorted.c, sorted.rc, c);
    BlockKeys(sorted.d, sorted.rd, c);
    forall b: nat
      ensures Select(Ids(sorted), Bins(IntegerHash, c), b) == Select(Ids(bs), Bins(IntegerHash, c), b)
    {
      SelectBlocks(bs, c, b);
      SelectBlocks(sorted, c, b);
    }
    OrderIsTheStableSort(Ids(bs), IntegerHash, c);
    assert StableSort(Ids(sorted), Ids(bs), Bins(IntegerHash, c));
  }

  // ----- How the capacity goes on

  function Capacity(keys: seq<int>, initial: nat): nat
    requires initial > 0
  {
    FinalCapacity(keys, IntegerHash, initial)
  }

  /** More keys leave a table of 32 bins alone while none of their bins gets past eight. */
  lemma {:induction false} Stays32(head: seq<int>, tail: seq<int>, initial: nat)
    requires initial > 0 && Capacity(head, initial) == 32 && |head + tail| <= 24
    requires forall x :: x in tail ==> |Select(head + tail, Bins(IntegerHash, 32), Bins(IntegerHash, 32)(x))| <= 8
    ensures Capacity(head + tail, initial) == 32
  {
    if tail == [] {
      assert head + tail == head;
    } else {
      var tail', x := tail[..|tail| - 1], tail[|tail| - 1];
      assert (head + tail)[..|head + tail| - 1] == head + tail';
      var key := Bins(IntegerHash, 32);
      assert forall b: nat :: |Select(head + tail', key, b)| <= |Select(head + tail, key, b)|;
      Stays32(head, tail', initial);
      assert x in tail;
    }
  }

  lemma {:induction false} Stays64(head: seq<int>, tail: seq<int>, initial: nat)
    requires initial > 0 && Capacity(head, initial) == 64 && |head + tail| <= 48
    ensures Capacity(head + tail, initial) == 64
  {
    if tail == [] {
      assert head + tail == head;
    } else {
      assert (head + tail)[..|head + tail| - 1] == head + tail[..|tail| - 1];
      Stays64(head, tail[..|tail| - 1], initial);
    }
  }

  /** The key that makes a bin pass eight doubles the table. */
  lemma Doubles(head: seq<int>, x: int, initial: nat, c: nat)
    requires initial > 0 && Capacity(head, initial) == c && 16 <= c <= 32
    requires |head| < Threshold(c) && |Select(head + [x], Bins(IntegerHash, c), Bins(IntegerHash, c)(x))| > 8
    ensures Capacity(head + [x], initial) == 2 * c
  {
    assert (head + [x])[..|head|] == head;
  }

  /** Nine keys of one bin of a table with 16 bins double it. */
  lemma NineOfOneBin(keys: seq<int>)
    requires |keys| == 9
    requires exists b: nat :: Select(keys, Bins(IntegerHash, 16), b) == keys
    ensures Capacity(keys, 16) == 32
  {
    SmallPowers();
    OneDoubling(keys, 16);
  }

  lemma NineOfTwoBlocks(u: seq<int>, ru: nat, v: seq<int>, rv: nat)
    requires Block(u, ru) && Block(v, rv) && ru % 16 == rv % 16 && |u| + |v| == 9
    ensures Capacity(u + v, 16) == 32
  {
    SelectBlock(u, ru, 16, ru % 16);
    SelectBlock(v, rv, 16, ru % 16);
    SelectConcat(u, v, Bins(IntegerHash, 16), ru % 16);
    NineOfOneBin(u + v);
  }

  lemma KnownPass(keys: seq<int>, table: Table, initial: nat, c: nat)
    requires initial > 0 && InitialCapacity(table, |keys|) == initial && Capacity(keys, initial) == c
    ensures c > 0 && Pass(keys, table) == OrderInTable(keys, IntegerHash, c)
  {
  }

  // ----- Ten to twelve brokers: the first table ends with 32 bins, the later ones with 64

  /** One id with remainder 48, eight with 16, one with 32, and `last`, with remainder 63. */
  function Ten(u: seq<int>, v: seq<int>, w: seq<int>, last: seq<int>): Blocks {
    Blocks(u, 48, v, 16, w, 32, last, 63)
  }

  function TenOnce(u: seq<int>, v: seq<int>, w: seq<int>, last: seq<int>): Blocks {
    Blocks(w, 32, u, 48, v, 16, last, 63)
  }

  function TenTwice(u: seq<int>, v: seq<int>, w: seq<int>, last: seq<int>): Blocks {
    Blocks(v, 16, w, 32, u, 48, last, 63)
  }

  predicate TenShape(u: seq<int>, v: seq<int>, w: seq<int>, last: seq<int>) {
    && Block(u, 48) && Block(v, 16) && Block(w, 32) && Block(last, 63)
    && |u| == 1 && |v| == 8 && |w| == 1 && |last| <= 2
  }

  lemma TenFirstPass(u: seq<int>, v: seq<int>, w: seq<int>, last: seq<int>)
    requires TenShape(u, v, w, last)
    ensures OrderInTable(Ids(Ten(u, v, w, last)), IntegerHash, 32) == Ids(TenOnce(u, v, w, last))
  {
    var before, after := Ten(u, v, w, last), TenOnce(u, v, w, last);
    forall b: nat
      ensures Selected(before, 32, b) == Selected(after, 32, b)
    {
    }
    OrderedBlocks(before, after, 32);
  }

  lemma TenLaterPass(u: seq<int>, v: seq<int>, w: seq<int>, last: seq<int>)
    requires TenShape(u, v, w, last)
    ensures OrderInTable(Ids(TenOnce(u, v, w, last)), IntegerHash, 64) == Ids(TenTwice(u, v, w, last))
    ensures OrderInTable(Ids(TenTwice(u, v, w, last)), IntegerHash, 64) == Ids(TenTwice(u, v, w, last))
  {
    var before, after := TenOnce(u, v, w, last), TenTwice(u, v, w, last);
    forall b: nat
      ensures Selected(before, 64, b) == Selected(after, 64, b)
    {
    }
    OrderedBlocks(before, after, 64);
    OrderedBlocks(after, after, 64);
  }

  lemma TenCapacity(u: seq<int>, v: seq<int>, w: seq<int>, last: seq<int>)
    requires TenShape(u, v, w, last)
    ensures Capacity(Ids(Ten(u, v, w, last)), 16) == 32
  {
    var bs := Ten(u, v, w, last);
    NineOfTwoBlocks(u, 48, v, 16);
    BlockKeys(w, 32, 32);
    BlockKeys(last, 63, 32);
    SelectBlocks(bs, 32, 0);
    SelectBlocks(bs, 32, 31);
    assert Ids(bs) == (u + v) + (w + last);
    Stays32(u + v, w + last, 16);
  }

  lemma TenOnceCapacity(u: seq<int>, v: seq<int>, w: seq<int>, last: seq<int>)
    requires TenShape(u, v, w, last)
    ensures Capacity(Ids(TenOnce(u, v, w, last)), 16) == 64
  {
    TenOnceTen(u, v, w);
    Stays64(w + u + v, last, 16);
  }

  lemma TenOnceTen(u: seq<int>, v: seq<int>, w: seq<int>)
    requires TenShape(u, v, w, [])
    ensures Capacity(w + u + v, 16) == 64
  {
    var head, x := w + u + v[..7], v[7];
    TenOnceHead(u, v, w);
    assert w + u + v == head + [x];
    NinthOfBin(Blocks(w, 32, u, 48, v, 16, [], 0), head, x, 16);
  }

  /** The ninth key of bin 16 in a table of 32 bins doubles it. */
  lemma NinthOfBin(bs: Blocks, head: seq<int>, x: int, r: nat)
    requires Valid(bs) && Ids(bs) == head + [x] && |head| <= 12 && Capacity(head, 16) == 32
    requires |Selected(bs, 32, 16)| == 9 && Block([x], r) && r % 32 == 16
    ensures Capacity(head + [x], 16) == 64
  {
    SelectBlocks(bs, 32, 16);
    BlockKeys([x], r, 32);
    assert [x][0] == x;
    Doubles(head, x, 16, 32);
  }

  lemma TenOnceHead(u: seq<int>, v: seq<int>, w: seq<int>)
    requires TenShape(u, v, w, [])
    ensures Capacity(w + u + v[..7], 16) == 32
  {
    var bs := Blocks(w, 32, u, 48, v[..7], 16, [], 0);
    assert Block(v[..7], 16);
    SelectBlocks(bs, 16, 0);
    assert Ids(bs) == w + u + v[..7];
    NineOfOneBin(Ids(bs));
  }

  lemma TenTwiceCapacity(u: seq<int>, v: seq<int>, w: seq<int>, last: seq<int>)
    requires TenShape(u, v, w, last)
    ensures Capacity(Ids(TenTwice(u, v, w, last)), 16) == 64
  {
    TenTwiceTen(u, v, w);
    Stays64(v + w + u, last, 16);
  }

  lemma TenTwiceTen(u: seq<int>, v: seq<int>, w: seq<int>)
    requires TenShape(u, v, w, [])
    ensures Capacity(v + w + u, 16) == 64
  {
    var bs := Blocks(v, 16, w, 32, u, 48, [], 0);
    NineOfTwoBlocks(v, 16, w, 32);
    assert v + w + u == (v + w) + [u[0]];
    assert Ids(bs) == v + w + u;
    NinthOfBin(bs, v + w, u[0], 48);
  }

  lemma TenDisagrees(u: seq<int>, v: seq<int>, w: seq<int>, last: seq<int>)
    requires TenShape(u, v, w, last)
    ensures var brokers := Ids(Ten(u, v, w, last)); ThreePasses(brokers) != Pass(brokers, Copy)
  {
    TenKnown(u, v, w, last);
    assert Ids(TenOnce(u, v, w, last))[0] == w[0];
    assert Ids(TenTwice(u, v, w, last))[0] == v[0];
  }

  lemma TenKnown(u: seq<int>, v: seq<int>, w: seq<int>, last: seq<int>)
    requires TenShape(u, v, w, last)
    ensures var brokers := Ids(Ten(u, v, w, last));
            && Pass(brokers, Copy) == Ids(TenOnce(u, v, w, last))
            && ThreePasses(brokers) == Ids(TenTwice(u, v, w, last))
  {
    var brokers, once, twice := Ids(Ten(u, v, w, last)), Ids(TenOnce(u, v, w, last)), Ids(TenTwice(u, v, w, last));
    var sized := WithCapacity(|brokers|);
    InitialCapacities(|brokers|);
    TenFirstPass(u, v, w, last);
    TenLaterPass(u, v, w, last);
    TenCapacity(u, v, w, last);
    KnownPass(brokers, sized, 16, 32);
    KnownPass(brokers, Copy, 16, 32);
    TenOnceCapacity(u, v, w, last);
    KnownPass(once, Copy, 16, 64);
    TenTwiceCapacity(u, v, w, last);
    KnownPass(twice, sized, 16, 64);
  }

  // ----- Thirteen to sixteen brokers: the last table ends with 32 bins, the copied one with 64

  /** Five ids with remainder 0, four with 32, one with 5, and `last`, with remainder 40. */
  function Thirteen(u: seq<int>, v: seq<int>, w: seq<int>, last: seq<int>): Blocks {
    Blocks(u, 0, v, 32, w, 5, last, 40)
  }

  function ThirteenCopied(u: seq<int>, v: seq<int>, w: seq<int>, last: seq<int>): Blocks {
    Blocks(u, 0, w, 5, v, 32, last, 40)
  }

  predicate ThirteenShape(u: seq<int>, v: seq<int>, w: seq<int>, last: seq<int>) {
    && Block(u, 0) && Block(v, 32) && Block(w, 5) && Block(last, 40)
    && |u| == 5 && |v| == 4 && |w| == 1 && 3 <= |last| <= 6
  }

  lemma ThirteenPasses(u: seq<int>, v: seq<int>, w: seq<int>, last: seq<int>)
    requires ThirteenShape(u, v, w, last)
    ensures var once, copied := Thirteen(u, v, w, last), ThirteenCopied(u, v, w, last);
            && OrderInTable(Ids(once), IntegerHash, 32) == Ids(once)
            && OrderInTable(Ids(once), IntegerHash, 64) == Ids(copied)
            && OrderInTable(Ids(copied), IntegerHash, 32) == Ids(once)
  {
    var once, copied := Thirteen(u, v, w, last), ThirteenCopied(u, v, w, last);
    forall b: nat
      ensures Selected(once, 64, b) == Selected(copied, 64, b)
      ensures Selected(once, 32, b) == Selected(copied, 32, b)
    {
    }
    OrderedBlocks(once, once, 32);
    OrderedBlocks(once, copied, 64);
    OrderedBlocks(copied, once, 32);
  }

  lemma ThirteenCapacity(u: seq<int>, v: seq<int>, w: seq<int>, last: seq<int>)
    requires ThirteenShape(u, v, w, last)
    ensures Capacity(Ids(Thirteen(u, v, w, last)), 16) == 32
    ensures Capacity(Ids(Thirteen(u, v, w, last)), 32) == 64
  {
    var bs := Thirteen(u, v, w, last);
    NineOfTwoBlocks(u, 0, v, 32);
    BlockKeys(w, 5, 32);
    BlockKeys(last, 40, 32);
    SelectBlocks(bs, 32, 5);
    SelectBlocks(bs, 32, 8);
    assert Ids(bs) == (u + v) + (w + last);
    Stays32(u + v, w + last, 16);
    SelectBlocks(bs, 32, 0);
    TableSizes(32);
    OneDoubling(Ids(bs), 32);
  }

  lemma ThirteenCopiedCapacity(u: seq<int>, v: seq<int>, w: seq<int>, last: seq<int>)
    requires ThirteenShape(u, v, w, last)
    ensures Capacity(Ids(ThirteenCopied(u, v, w, last)), 16) == 32
  {
    ThirteenCopiedTen(u, v, w);
    BlockKeys(last, 40, 32);
    SelectBlocks(ThirteenCopied(u, v, w, last), 32, 8);
    Stays32(u + w + v, last, 16);
  }

  lemma ThirteenCopiedHead(u: seq<int>, v: seq<int>, w: seq<int>)
    requires Block(u, 0) && Block(v, 32) && Block(w, 5) && |u| == 5 && |v| == 4 && |w| == 1
    ensures Capacity(u + w + v[..3], 16) == 16
  {
    var bs := Blocks(u, 0, w, 5, v[..3], 32, [], 0);
    assert Block(v[..3], 32);
    assert Ids(bs) == u + w + v[..3];
    forall b: nat
      ensures |Select(Ids(bs), Bins(IntegerHash, 16), b)| <= 8
    {
      SelectBlocks(bs, 16, b);
    }
    TableSizes(16);
    OneDoubling(Ids(bs), 16);
  }

  lemma ThirteenCopiedTen(u: seq<int>, v: seq<int>, w: seq<int>)
    requires Block(u, 0) && Block(v, 32) && Block(w, 5) && |u| == 5 && |v| == 4 && |w| == 1
    ensures Capacity(u + w + v, 16) == 32
  {
    var head, x := u + w + v[..3], v[3];
    ThirteenCopiedHead(u, v, w);
    var bs := Blocks(u, 0, w, 5, v, 32, [], 0);
    SelectBlocks(bs, 16, 0);
    assert Ids(bs) == head + [x];
    assert u + w + v == head + [x];
    SmallKey(x, 16);
    Doubles(head, x, 16, 16);
  }

  lemma ThirteenKnown(u: seq<int>, v: seq<int>, w: seq<int>, last: seq<int>)
    requires ThirteenShape(u, v, w, last)
    ensures var once, copied := Ids(Thirteen(u, v, w, last)), Ids(ThirteenCopied(u, v, w, last));
            && Pass(copied, WithCapacity(|copied|)) == once
            && Pass(once, Copy) == copied
  {
    var once, copied := Ids(Thirteen(u, v, w, last)), Ids(ThirteenCopied(u, v, w, last));
    InitialCapacities(|once|);
    ThirteenPasses(u, v, w, last);
    ThirteenCapacity(u, v, w, last);
    KnownPass(once, Copy, 32, 64);
    ThirteenCopiedCapacity(u, v, w, last);
    KnownPass(copied, WithCapacity(|copied|), 16, 32);
  }

  /** The copied list is already in the order of a table copied from it. */
  lemma ThirteenCopiedPass(u: seq<int>, v: seq<int>, w: seq<int>, last: seq<int>, table: Table)
    requires ThirteenShape(u, v, w, last) && table in {Copy, HashSetCopy}
    ensures Pass(Ids(ThirteenCopied(u, v, w, last)), table) == Ids(ThirteenCopied(u, v, w, last))
  {
    var bs := ThirteenCopied(u, v, w, last);
    InitialCapacities(|Ids(bs)|);
    SelectBlocks(bs, 32, 0);
    TableSizes(32);
    OneDoubling(Ids(bs), 32);
    OrderedBlocks(bs, bs, 64);
    KnownPass(Ids(bs), table, 32, 64);
  }

  lemma ThirteenDiffer(u: seq<int>, v: seq<int>, w: seq<int>, last: seq<int>)
    requires ThirteenShape(u, v, w, last)
    ensures Ids(Thirteen(u, v, w, last)) != Ids(ThirteenCopied(u, v, w, last))
    ensures |Ids(Thirteen(u, v, w, last))| == |Ids(ThirteenCopied(u, v, w, last))|
  {
    assert Ids(Thirteen(u, v, w, last))[5] == v[0] && Ids(ThirteenCopied(u, v, w, last))[5] == w[0];
  }

  lemma ThirteenDisagrees(u: seq<int>, v: seq<int>, w: seq<int>, last: seq<int>)
    requires ThirteenShape(u, v, w, last)
    ensures var brokers := Ids(ThirteenCopied(u, v, w, last));
            Pass(brokers, HashSetCopy) == brokers && ThreePasses(brokers) != Pass(brokers, Copy)
  {
    ThirteenKnown(u, v, w, last);
    ThirteenCopiedPass(u, v, w, last, Copy);
    ThirteenCopiedPass(u, v, w, last, HashSetCopy);
    ThirteenDiffer(u, v, w, last);
  }

  // ----- Brokers that a query can hold

  /** Distinct 32-bit ids, as a broker list and a cluster's metadata give them. */
  predicate BrokerIds(s: seq<int>) {
    && (forall i, j :: 0 <= i < j < |s| ==> s[i] != s[j])
    && (forall i :: 0 <= i < |s| ==> -0x8000_0000 <= s[i] < 0x8000_0000)
  }

  /** `k` ids with remainder `r` by 128. */
  function Spaced(r: nat, k: nat): (s: seq<int>)
    ensures |s| == k
  {
    seq(k, i => 128 * i + r)
  }

  /** Distinct small ids in the order of their remainders by 128, which stay below `r`. */
  ghost predicate Rising(s: seq<int>, r: nat) {
    && BrokerIds(s)
    && (forall i :: 0 <= i < |s| ==> 0 <= s[i] < 0x1_0000 && s[i] % 128 < r)
    && (forall i, j :: 0 <= i < j < |s| ==> s[i] % 128 <= s[j] % 128)
  }

  lemma SpacedIs(r: nat, k: nat)
    requires r < 128 && k <= 64
    ensures forall i :: 0 <= i < k ==> 0 <= Spaced(r, k)[i] < 0x1_0000 && Spaced(r, k)[i] % 128 == r
    ensures Block(Spaced(r, k), r % 64) && Rising(Spaced(r, k), r + 1)
  {
  }

  lemma RisingConcat(s: seq<int>, r: nat, k: nat, bound: nat)
    requires Rising(s, bound) && bound <= r < 128 && k <= 64
    ensures Rising(s + Spaced(r, k), r + 1)
  {
    SpacedIs(r, k);
    var t := s + Spaced(r, k);
    forall i, j | 0 <= i < j < |t|
      ensures t[i] != t[j] && t[i] % 128 <= t[j] % 128
    {
      if i < |s| <= j {
        assert t[i] == s[i] && t[j] == Spaced(r, k)[j - |s|];
      }
    }
  }

  datatype Spacing = Spacing(r: nat, k: nat)

  function BlockOf(p: Spacing): seq<int> {
    Spaced(p.r, p.k)
  }

  lemma RisingBlocks(s: seq<int>, bound: nat, p: Spacing, q: Spacing, v: Spacing, w: Spacing)
    requires Rising(s, bound) && bound <= p.r < q.r < v.r < w.r < 128
    requires p.k <= 64 && q.k <= 64 && v.k <= 64 && w.k <= 64
    ensures Rising(s + (BlockOf(p) + BlockOf(q) + BlockOf(v) + BlockOf(w)), w.r + 1)
  {
    RisingConcat(s, p.r, p.k, bound);
    RisingConcat(s + BlockOf(p), q.r, q.k, p.r + 1);
    RisingConcat(s + BlockOf(p) + BlockOf(q), v.r, v.k, q.r + 1);
    RisingConcat(s + BlockOf(p) + BlockOf(q) + BlockOf(v), w.r, w.k, v.r + 1);
    assert s + (BlockOf(p) + BlockOf(q) + BlockOf(v) + BlockOf(w))
        == s + BlockOf(p) + BlockOf(q) + BlockOf(v) + BlockOf(w);
  }

  lemma BlockOfIs(p: Spacing)
    requires p.r < 128 && p.k <= 64
    ensures Block(BlockOf(p), p.r % 64) && Rising(BlockOf(p), p.r + 1) && |BlockOf(p)| == p.k
  {
    SpacedIs(p.r, p.k);
  }

  /** Answers of ten to twelve brokers. */
  function TenBrokers(last: nat): Blocks {
    Ten(Spaced(48, 1), Spaced(80, 8), Spaced(96, 1), Spaced(127, last))
  }

  lemma TenSpaced(u: Spacing, v: Spacing, w: Spacing, last: Spacing)
    requires u == Spacing(48, 1) && v == Spacing(80, 8) && w == Spacing(96, 1) && last.r == 127 && last.k <= 2
    ensures TenShape(BlockOf(u), BlockOf(v), BlockOf(w), BlockOf(last))
  {
    BlockOfIs(u);
    BlockOfIs(v);
    BlockOfIs(w);
    BlockOfIs(last);
  }

  lemma TenBrokersDisagree(n: nat)
    requires 10 <= n <= 12
    ensures |Ids(TenBrokers(n - 10))| == n
    ensures ThreePasses(Ids(TenBrokers(n - 10))) != Pass(Ids(TenBrokers(n - 10)), Copy)
  {
    TenSpaced(Spacing(48, 1), Spacing(80, 8), Spacing(96, 1), Spacing(127, n - 10));
    TenDisagrees(Spaced(48, 1), Spaced(80, 8), Spaced(96, 1), Spaced(127, n - 10));
  }

  /** Thirteen to sixteen brokers in the order in which they are queried. */
  function ThirteenBrokers(last: nat): Blocks {
    ThirteenCopied(Spaced(0, 5), Spaced(32, 4), Spaced(5, 1), Spaced(40, last))
  }

  lemma ThirteenSpaced(u: Spacing, v: Spacing, w: Spacing, last: Spacing)
    requires u == Spacing(0, 5) && v == Spacing(32, 4) && w == Spacing(5, 1) && last.r == 40 && 3 <= last.k <= 6
    ensures ThirteenShape(BlockOf(u), BlockOf(v), BlockOf(w), BlockOf(last))
    ensures BrokerIds(BlockOf(u) + BlockOf(w) + BlockOf(v) + BlockOf(last))
  {
    BlockOfIs(u);
    BlockOfIs(v);
    BlockOfIs(w);
    BlockOfIs(last);
    RisingBlocks([], 0, u, w, v, last);
    var all := BlockOf(u) + BlockOf(w) + BlockOf(v) + BlockOf(last);
    assert [] + all == all;
  }

  lemma ThirteenBrokersDisagree(n: nat)
    requires 13 <= n <= 16
    ensures var brokers := Ids(ThirteenBrokers(n - 10));
            && |brokers| == n && BrokerIds(brokers)
            && Pass(brokers, HashSetCopy) == brokers && ThreePasses(brokers) != Pass(brokers, Copy)
  {
    ThirteenSpaced(Spacing(0, 5), Spacing(32, 4), Spacing(5, 1), Spacing(40, n - 10));
    ThirteenDisagrees(Spaced(0, 5), Spaced(32, 4), Spaced(5, 1), Spaced(40, n - 10));
  }

  /** A query of 49 to 51 brokers, the last of which are the ten to twelve. */
  function TenQueried(last: nat): seq<int> {
    Spaced(0, 39) + Ids(TenBrokers(last))
  }

  lemma TenQueriedRises(last: nat)
    requires last <= 2
    ensures Rising(TenQueried(last), 128) && |TenQueried(last)| == 49 + last
  {
    SpacedIs(0, 39);
    RisingBlocks(Spaced(0, 39), 1, Spacing(48, 1), Spacing(80, 8), Spacing(96, 1), Spacing(127, last));
  }

  /** Between 49 and 96 brokers in the order of a table with 128 bins are queried in that order. */
  lemma RisingIsQueried(s: seq<int>)
    requires Rising(s, 128) && 49 <= |s| <= 96
    ensures Pass(s, HashSetCopy) == s
  {
    SmallPowers();
    DoublePow2(64);
    NextPow2Between(CapacityFor(|s|), 64);
    CopyIsLoad(|s|);
    assert InitialCapacity(HashSetCopy, |s|) == 128;
    CapacityBounds(s, IntegerHash, 128);
    assert CapacityOf(s, HashSetCopy) == 128;
    RisingIsOrdered(s);
  }

  lemma RisingIsOrdered(s: seq<int>)
    requires Rising(s, 128) && IsPow2(128)
    ensures OrderInTable(s, IntegerHash, 128) == s
  {
    var key := Bins(IntegerHash, 128);
    forall i | 0 <= i < |s|
      ensures key(s[i]) == s[i] % 128
    {
      SmallBin(s[i], 128);
      assert key(s[i]) == Bin(IntegerHash(s[i]), 128);
    }
    SortedIsFixed(s, key, 128);
  }

  lemma {:induction false} FilterConcat(s: seq<int>, t: seq<int>, keep: int -> bool)
    ensures Filter(s + t, keep) == Filter(s, keep) + Filter(t, keep)
  {
    if t == [] {
      assert s + t == s;
    } else {
      FilterConcat(s, t[..|t| - 1], keep);
      assert (s + t)[..|s + t| - 1] == s + t[..|t| - 1];
    }
  }

  lemma {:induction false} FilterUniform(s: seq<int>, keep: int -> bool, all: bool)
    requires forall i :: 0 <= i < |s| ==> keep(s[i]) == all
    ensures Filter(s, keep) == if all then s else []
  {
    if s != [] {
      var s', x := s[..|s| - 1], s[|s| - 1];
      FilterUniform(s', keep, all);
      assert s == s' + [x] && keep(x) == all;
    }
  }

  lemma OthersApart(others: seq<int>, brokers: seq<int>)
    requires BrokerIds(others + brokers)
    ensures forall i :: 0 <= i < |others| ==> others[i] !in brokers
  {
    var all := others + brokers;
    assert forall j :: 0 <= j < |brokers| ==> all[|others| + j] == brokers[j];
    forall i | 0 <= i < |others|
      ensures others[i] !in brokers
    {
      assert all[i] == others[i];
    }
  }

  /** When exactly the last ones of distinct brokers answer, those are the ones that respond. */
  lemma LastOnesRespond(others: seq<int>, brokers: seq<int>)
    requires BrokerIds(others + brokers)
    ensures Responding(others + brokers, set x | x in brokers) == brokers
  {
    var answered := set x | x in brokers;
    OthersApart(others, brokers);
    FilterConcat(others, brokers, Among(answered));
    FilterUniform(others, Among(answered), false);
    FilterUniform(brokers, Among(answered), true);
  }

  // ----- Exactly when three passes are one

  /** Lists that `describe_result` passes to `document_order`: what responds of what was queried. */
  ghost predicate Received(cluster: seq<int>, requested: seq<int>, answered: set<int>, brokers: seq<int>) {
    && BrokerIds(cluster) && BrokerIds(requested)
    && QueryOf(cluster, requested).Ok?
    && brokers == Responding(QueryOf(cluster, requested).value, answered)
  }

  lemma QueryOfAll(wanted: seq<int>)
    requires wanted != [] && Pass(wanted, HashSetCopy) == wanted
    ensures QueryOf(wanted, wanted) == Ok(wanted)
  {
    NoneMissing(wanted, wanted);
  }

  /** For every length from 10 to 16, answers for which three passes are not one. */
  lemma {:induction false} DisagreeingAnswers(n: nat) returns (cluster: seq<int>, answered: set<int>, brokers: seq<int>)
    requires 10 <= n <= 16
    ensures |brokers| == n && Received(cluster, cluster, answered, brokers)
    ensures ThreePasses(brokers) != Pass(brokers, Copy)
  {
    var others: seq<int>;
    if n <= 12 {
      TenBrokersDisagree(n);
      TenQueriedRises(n - 10);
      RisingIsQueried(TenQueried(n - 10));
      others, brokers := Spaced(0, 39), Ids(TenBrokers(n - 10));
    } else {
      ThirteenBrokersDisagree(n);
      others, brokers := [], Ids(ThirteenBrokers(n - 10));
      assert others + brokers == brokers;
    }
    cluster, answered := others + brokers, set x | x in brokers;
    QueryOfAll(cluster);
    LastOnesRespond(others, brokers);
  }

  /** Whichever brokers answer: `n` answers always give one `Copy` pass exactly when `n` is outside 10 to 16. */
  lemma {:induction false} SomeAnswerExactly(n: nat)
    ensures (forall cluster, requested, answered, brokers ::
               Received(cluster, requested, answered, brokers) && |brokers| == n ==>
                 ThreePasses(brokers) == Pass(brokers, Copy))
            <==> (n < 10 || n > 16)
  {
    if n < 10 || n > 16 {
      forall brokers: seq<int> | |brokers| == n
        ensures ThreePasses(brokers) == Pass(brokers, Copy)
      {
        SettledIsOnePass(brokers);
      }
    } else {
      var cluster, answered, brokers := DisagreeingAnswers(n);
    }
  }

  /** As a function of any list: three passes are one for all lists of a length outside 10 to 16 only. */
  lemma {:induction false} OnePassExactly(n: nat)
    ensures (forall brokers: seq<int> :: |brokers| == n ==> ThreePasses(brokers) == Pass(brokers, Copy))
            <==> (n < 10 || n > 16)
  {
    if n < 10 || n > 16 {
      forall brokers: seq<int> | |brokers| == n
        ensures ThreePasses(brokers) == Pass(brokers, Copy)
      {
        SettledIsOnePass(brokers);
      }
    } else {
      var _, _, brokers := DisagreeingAnswers(n);
      assert |brokers| == n;
    }
  }

  /** A query of `n` brokers: with all of their answers the document is one `Copy` pass. */
  ghost predicate AllAnswersAgree(n: nat) {
    forall cluster, requested ::
      && BrokerIds(cluster) && BrokerIds(requested)
      && QueryOf(cluster, requested).Ok? && |QueryOf(cluster, requested).value| == n ==>
        ThreePasses(QueryOf(cluster, requested).value) == Pass(QueryOf(cluster, requested).value, Copy)
  }

  lemma QueriedAgree(cluster: seq<int>, requested: seq<int>)
    requires QueryOf(cluster, requested).Ok?
    requires var n := |QueryOf(cluster, requested).value|; n < 13 || n > 16
    ensures var queried := QueryOf(cluster, requested).value; ThreePasses(queried) == Pass(queried, Copy)
  {
    var wanted := Wanted(cluster, requested);
    CapacityOfIsTableSize(wanted, HashSetCopy);
    if 10 <= |wanted| <= 12 {
      AllAnswerOnePass(wanted);
    } else {
      SettledIsOnePass(QueryOf(cluster, requested).value);
    }
  }

  /** When every queried broker answers, the failing lengths are exactly 13 to 16. */
  lemma {:induction false} AllAnswerExactly(n: nat)
    ensures AllAnswersAgree(n) <==> n < 13 || n > 16
  {
    if n < 13 || n > 16 {
      forall cluster, requested |
        QueryOf(cluster, requested).Ok? && |QueryOf(cluster, requested).value| == n
        ensures ThreePasses(QueryOf(cluster, requested).value) == Pass(QueryOf(cluster, requested).value, Copy)
      {
        QueriedAgree(cluster, requested);
      }
    } else {
      var brokers := Ids(ThirteenBrokers(n - 10));
      ThirteenBrokersDisagree(n);
      QueryOfAll(brokers);
      assert !AllAnswersAgree(n);
    }
  }
}
