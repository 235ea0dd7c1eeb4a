/** Which brokers a log-directory listing queries, and its document when all of them answer. */
module LogDirsQuery {
  import opened Wrappers
  import opened PowersOfTwo
  import opened BucketSort
  import opened HashTable
  import opened HashInsertion
  import opened HashCapacity
  import opened LogDirs

  /** Requested brokers that the cluster does not have, and those that it has. */
  datatype Unknown = Unknown(missing: seq<int>, existing: seq<int>)

  function Filter(s: seq<int>, keep: int -> bool): seq<int> {
    if s == [] then []
    else Filter(s[..|s| - 1], keep) + if keep(s[|s| - 1]) then [s[|s| - 1]] else []
  }

  function OutsideOf(cluster: seq<int>): int -> bool {
    broker => broker !in cluster
  }

  function Among(answered: set<int>): int -> bool {
    broker => broker in answered
  }

  /** The brokers that were asked for: those requested, or the whole cluster. */
  function Wanted(cluster: seq<int>, requested: seq<int>): seq<int> {
    if requested == [] then Pass(cluster, Default) else requested
  }

  function QueryOf(cluster: seq<int>, requested: seq<int>): Result<seq<int>, Unknown> {
    var missing := Filter(requested, OutsideOf(cluster));
    if missing != [] then Err(Unknown(Pass(missing, HashSetCopy), Pass(cluster, Default)))
    else Ok(Pass(Wanted(cluster, requested), HashSetCopy))
  }

  /** The brokers whose answer arrived, in the order of the query. */
  function Responding(queried: seq<int>, answered: set<int>): seq<int> {
    Filter(queried, Among(answered))
  }

  lemma {:induction false} FilterHas(s: seq<int>, keep: int -> bool)
    ensures forall x :: x in Filter(s, keep) <==> x in s && keep(x)
  {
    if s != [] {
      var s', x := s[..|s| - 1], s[|s| - 1];
      FilterHas(s', keep);
      assert s == s' + [x];
    }
  }

  lemma NoneMissing(cluster: seq<int>, requested: seq<int>)
    ensures Filter(requested, OutsideOf(cluster)) == [] <==> forall broker :: broker in requested ==> broker in cluster
  {
    var missing := Filter(requested, OutsideOf(cluster));
    FilterHas(requested, OutsideOf(cluster));
    if missing != [] {
      var broker := missing[0];
      assert broker in missing;
      assert broker in requested && broker !in cluster;
    }
    forall broker | broker in requested && missing == []
      ensures broker in cluster
    {
      assert broker !in missing;
      assert OutsideOf(cluster)(broker) <==> broker !in cluster;
    }
  }

  /** `brokers_to_query`: refused exactly for an unknown broker, else the wanted ones in some order. */
  method BrokersToQuery(cluster: seq<int>, requested: seq<int>) returns (r: Result<seq<int>, Unknown>)
    ensures r == QueryOf(cluster, requested)
    ensures r.Ok? <==> forall broker :: broker in requested ==> broker in cluster
    ensures r.Ok? ==> multiset(r.value) == multiset(if requested == [] then cluster else requested)
    ensures r.Ok? ==> r.value == Pass(if requested == [] then Pass(cluster, Default) else requested, HashSetCopy)
    ensures r.Err? ==> r.error.existing == Pass(cluster, Default)
    ensures r.Err? ==> forall broker :: broker in r.error.missing <==> broker in requested && broker !in cluster
  {
    var existing := OnePass(cluster, Default);
    var missing := Filter(requested, OutsideOf(cluster));
    NoneMissing(cluster, requested);
    if missing != [] {
      FilterHas(requested, OutsideOf(cluster));
      var ordered := OnePass(missing, HashSetCopy);
      assert forall broker :: broker in ordered <==> broker in multiset(ordered);
      assert forall broker :: broker in missing <==> broker in multiset(missing);
      return Err(Unknown(ordered, existing));
    }
    var wanted := if requested == [] then existing else requested;
    var queried := OnePass(wanted, HashSetCopy);
    return Ok(queried);
  }

  /** The order of the brokers in `describe_result`'s document. */
  method DescribeOrder(queried: seq<int>, answered: set<int>) returns (order: seq<int>)
    ensures order == ThreePasses(Responding(queried, answered))
    ensures forall broker :: broker in order <==> broker in queried && broker in answered
  {
    var responded := Responding(queried, answered);
    FilterHas(queried, Among(answered));
    order := DocumentOrder(responded);
    assert forall broker :: broker in order <==> broker in multiset(order);
    assert forall broker :: broker in responded <==> broker in multiset(responded);
  }

  // ----- Ten to twelve brokers that all answer

  /** Lists with the same bins of 32, place by place, give tables of the same size. */
  lemma {:induction false} SameBinsCapacity(s: seq<int>, t: seq<int>)
    requires |s| <= 12 && SameKeys(s, t, Bins(IntegerHash, 32))
    ensures FinalCapacity(s, IntegerHash, 16) == FinalCapacity(t, IntegerHash, 16)
  {
    if s != [] {
      var s', t' := s[..|s| - 1], t[..|t| - 1];
      SameBinsCapacity(s', t');
      var c := FinalCapacity(s', IntegerHash, 16);
      SmallCapacity(s');
      if c != 64 {
        CoarserKeys(s, t, c);
        var b := Bins(IntegerHash, c)(s[|s| - 1]);
        SameKeysSizes(s, t, Bins(IntegerHash, c), b);
        assert b == Bins(IntegerHash, c)(t[|t| - 1]);
      }
    }
  }

  lemma CoarserKeys(s: seq<int>, t: seq<int>, c: nat)
    requires SameKeys(s, t, Bins(IntegerHash, 32)) && c in {16, 32}
    ensures SameKeys(s, t, Bins(IntegerHash, c))
  {
    SmallPowers();
    forall i | 0 <= i < |s|
      ensures Bins(IntegerHash, c)(s[i]) == Bins(IntegerHash, c)(t[i])
    {
      BinRefines(IntegerHash(s[i]), c, 32);
      BinRefines(IntegerHash(t[i]), c, 32);
      assert Bins(IntegerHash, 32)(s[i]) == Bins(IntegerHash, 32)(t[i]);
    }
  }

  lemma SizeBetween(c: nat)
    requires IsPow2(c) && 16 <= c <= 64
    ensures c in {16, 32, 64}
  {
    SmallPowers();
    if 16 < c {
      Pow2Gap(16, c);
    }
    if 32 < c {
      Pow2Gap(32, c);
    }
  }

  lemma SmallCapacity(keys: seq<int>)
    requires |keys| <= 12
    ensures FinalCapacity(keys, IntegerHash, 16) in {16, 32, 64}
  {
    SmallPowers();
    CapacityBounds(keys, IntegerHash, 16);
    LoadFits(|keys|, 16);
    SizeBetween(FinalCapacity(keys, IntegerHash, 16));
  }

  lemma StartsWith16(n: nat, table: Table)
    requires 10 <= n <= 12 && table in {Copy, HashSetCopy, WithCapacity(n)}
    ensures InitialCapacity(table, n) == 16
  {
    InitialCapacities(n);
    InitialCapacities(12);
    assert InitialCapacity(HashSetCopy, n) == InitialCapacity(Copy, 12);
  }

  /** All three kinds of table start with 16 bins, and end with 16, 32 or 64. */
  lemma TenToTwelve(keys: seq<int>, table: Table)
    requires 10 <= |keys| <= 12
    requires table in {Copy, HashSetCopy, WithCapacity(|keys|)}
    ensures CapacityOf(keys, table) == FinalCapacity(keys, IntegerHash, 16)
    ensures CapacityOf(keys, table) in {16, 32, 64}
    ensures CapacityOf(keys, table) == 16 <==> !Crowded(keys, 16)
  {
    StartsWith16(|keys|, table);
    SmallCapacity(keys);
    SmallPowers();
    StaysExactly(keys, 16);
  }

  lemma CrowdedAlike(s: seq<int>, t: seq<int>, c: nat)
    requires c > 0 && multiset(s) == multiset(t)
    ensures Crowded(s, c) <==> Crowded(t, c)
  {
    if Crowded(s, c) {
      CrowdedPermute(s, t, c);
    }
    if Crowded(t, c) {
      CrowdedPermute(t, s, c);
    }
  }

  /** Two orders by 32 bins of the same brokers give tables of the same size. */
  lemma OrderedCapacity(s: seq<int>, t: seq<int>)
    requires |s| == |t| <= 12 && multiset(s) == multiset(t)
    ensures FinalCapacity(OrderInTable(s, IntegerHash, 32), IntegerHash, 16)
            == FinalCapacity(OrderInTable(t, IntegerHash, 32), IntegerHash, 16)
  {
    SmallPowers();
    var key := Bins(IntegerHash, 32);
    var a, b := OrderInTable(s, IntegerHash, 32), OrderInTable(t, IntegerHash, 32);
    OrderIsTheStableSort(s, IntegerHash, 32);
    OrderIsTheStableSort(t, IntegerHash, 32);
    assert StableSort(a, s, key) && StableSort(b, t, key);
    assert |a| == |multiset(a)| == |multiset(b)| == |b|;
    forall e: nat
      ensures |Select(a, key, e)| == |Select(b, key, e)|
    {
      SelectSizePermute(a, b, key, e);
    }
    SortedAlike(a, b, key);
    SameBinsCapacity(a, b);
  }

  /** One pass over ten to twelve brokers, whatever the kind of table. */
  function Once(keys: seq<int>): seq<int> {
    OrderInTable(keys, IntegerHash, Size(keys))
  }

  function Size(keys: seq<int>): (c: nat)
    ensures c > 0
  {
    FinalCapacity(keys, IntegerHash, 16)
  }

  /** One more pass gives a list of the same brokers, with a table of 16 bins before and after or not. */
  lemma OnceIs(keys: seq<int>)
    requires 10 <= |keys| <= 12
    ensures multiset(Once(keys)) == multiset(keys) && |Once(keys)| == |keys|
    ensures Size(keys) in {16, 32, 64} && Size(Once(keys)) in {16, 32, 64}
    ensures Size(keys) == 16 <==> Size(Once(keys)) == 16
    ensures forall table :: table in {Copy, HashSetCopy, WithCapacity(|keys|)} ==> Pass(keys, table) == Once(keys)
  {
    forall table | table in {Copy, HashSetCopy, WithCapacity(|keys|)}
      ensures Pass(keys, table) == Once(keys)
    {
      TenToTwelve(keys, table);
    }
    TenToTwelve(keys, Copy);
    CapacityOfIsTableSize(keys, Copy);
    TenToTwelve(Once(keys), Copy);
    CrowdedAlike(keys, Once(keys), 16);
  }

  lemma Absorbed(keys: seq<int>, c: nat, d: nat)
    requires c in {16, 32, 64} && d in {16, 32, 64} && c <= d
    ensures OrderInTable(OrderInTable(keys, IntegerHash, c), IntegerHash, d) == OrderInTable(keys, IntegerHash, d)
  {
    SmallPowers();
    OrderAbsorbs(keys, IntegerHash, c, d);
  }

  /** A pass repeats after at most two more passes, from a list that a pass gave. */
  lemma {:induction false} PassesRepeat(list: seq<int>)
    requires 10 <= |list| <= 12
    ensures Once(Once(Once(Once(list)))) == Once(Once(list))
  {
    var b := Once(list);
    var b1 := Once(b);
    var b2 := Once(b1);
    OnceIs(list);
    OnceIs(b);
    OnceIs(b1);
    var c0, c1, c2 := Size(list), Size(b), Size(b1);
    Absorbed(b, c1, c1);
    if c1 == 32 && c2 == 64 {
      Absorbed(list, c0, c0);
      Absorbed(b, 32, 64);
      assert c0 == 64;
      assert b2 == b;
    } else if c1 == 64 && c2 == 32 {
      Absorbed(list, c0, c0);
      assert c0 == 32;
      OrderedCapacity(list, b1);
      Absorbed(b1, 32, 64);
    }
  }

  /** Ten to twelve brokers that all answer: the document is one `Copy` pass over the query. */
  lemma {:induction false} AllAnswerOnePass(wanted: seq<int>)
    requires 10 <= |wanted| <= 12
    ensures var queried := Pass(wanted, HashSetCopy); ThreePasses(queried) == Pass(queried, Copy)
  {
    OnceIs(wanted);
    var b := Once(wanted);
    OnceIs(b);
    OnceIs(Once(b));
    OnceIs(Once(Once(b)));
    PassesRepeat(wanted);
  }
}
