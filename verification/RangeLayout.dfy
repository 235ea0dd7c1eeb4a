/** A tenant's key ranges: routing, moves and splits. */
module RangeLayout {
  import opened Wrappers
  import opened Naturals
  import opened Decimals

  const U32_MAX: nat := 0xFFFF_FFFF

  /** A position in the key space; a boundary without a bucket is one at bucket 0. */
  datatype Boundary = Boundary(table: nat, bucket: Option<nat>, rowid: nat)

  function BucketOf(b: Boundary): nat {
    if b.bucket.Some? then b.bucket.value else 0
  }

  /** The order of `range_boundary_key`: by table, then bucket, then rowid. */
  predicate Less(a: Boundary, b: Boundary) {
    || a.table < b.table
    || (a.table == b.table && (BucketOf(a) < BucketOf(b) || (BucketOf(a) == BucketOf(b) && a.rowid < b.rowid)))
  }

  /** A boundary as one number: its table, its bucket in 32 bits and its rowid in 64. */
  function CodeOf(b: Boundary): nat {
    var bucket := if b.bucket.None? then 0 else b.bucket.value;
    (b.table * 0x1_0000_0000 + bucket) * 0x1_0000_0000_0000_0000 + b.rowid
  }

  /** Boundaries are ordered as their numbers. */
  lemma {:induction false} LessIsNumeric(a: Boundary, b: Boundary)
    requires BucketOf(a) < 0x1_0000_0000 && BucketOf(b) < 0x1_0000_0000
    requires a.rowid < 0x1_0000_0000_0000_0000 && b.rowid < 0x1_0000_0000_0000_0000
    ensures Less(a, b) <==> CodeOf(a) < CodeOf(b)
  {
  }

  /** `RangeBoundary::table_start(0)`. */
  const START: Boundary := Boundary(0, None, 0)

  /** One range: its keys end before `end`, or never. */
  datatype Entry = Entry(id: nat, end: Option<Boundary>, generation: nat, endpoint: string, lifecycle: Lifecycle,
                         retirement: Option<string>)

  datatype Lifecycle = Serving | OtherLifecycle(name: string)

  type Layout = seq<Entry>

  // ----- A partition of the key space

  function StartOf(layout: Layout, i: nat): Boundary
    requires i < |layout| && (i > 0 ==> layout[i - 1].end.Some?)
  {
    if i == 0 then START else layout[i - 1].end.value
  }

  /** Only the last range is unbounded, and the ends increase from the start of the key space. */
  ghost predicate WellFormed(layout: Layout) {
    && layout != []
    && (forall i :: 0 <= i < |layout| ==> (layout[i].end.None? <==> i == |layout| - 1))
    && (forall i :: 0 <= i < |layout| - 1 ==> Less(StartOf(layout, i), layout[i].end.value))
  }

  ghost predicate Contains(layout: Layout, i: nat, key: Boundary)
    requires WellFormed(layout) && i < |layout|
  {
    !Less(key, StartOf(layout, i)) && (layout[i].end.Some? ==> Less(key, layout[i].end.value))
  }

  /** The first range from `from` on that takes `key`, where `previous` is the last end seen. */
  function Find(layout: Layout, key: Boundary, from: nat, previous: Boundary): Option<nat>
    requires from <= |layout|
    decreases |layout| - from
  {
    if from == |layout| then None
    else if !Less(key, previous) && (layout[from].end.None? || Less(key, layout[from].end.value)) then Some(from)
    else Find(layout, key, from + 1, if layout[from].end.Some? then layout[from].end.value else previous)
  }

  function Route(layout: Layout, key: Boundary): Option<nat> {
    Find(layout, key, 0, START)
  }

  /** `source_range_for_key`. */
  method SourceRangeForKey(layout: Layout, key: Boundary) returns (r: Option<nat>)
    ensures r == Route(layout, key)
    ensures WellFormed(layout) ==> r.Some? && r.value < |layout| && Contains(layout, r.value, key)
  {
    var previous := START;
    var i := 0;
    while i < |layout|
      invariant 0 <= i <= |layout|
      invariant Find(layout, key, i, previous) == Route(layout, key)
    {
      if !Less(key, previous) && (layout[i].end.None? || Less(key, layout[i].end.value)) {
        break;
      }
      if layout[i].end.Some? {
        previous := layout[i].end.value;
      }
      i := i + 1;
    }
    if WellFormed(layout) {
      RouteFinds(layout, key);
    }
    return if i < |layout| then Some(i) else None;
  }

  lemma {:induction false} StartsIncrease(layout: Layout, i: nat, j: nat)
    requires WellFormed(layout) && i < j < |layout|
    ensures Less(StartOf(layout, i), StartOf(layout, j))
    ensures layout[i].end.Some? && !Less(StartOf(layout, j), layout[i].end.value)
    decreases j - i
  {
    assert Less(StartOf(layout, j - 1), StartOf(layout, j));
    if i + 1 < j {
      StartsIncrease(layout, i, j - 1);
    }
  }

  lemma ContainsOnce(layout: Layout, key: Boundary, i: nat, j: nat)
    requires WellFormed(layout) && i < |layout| && j < |layout|
    requires Contains(layout, i, key) && Contains(layout, j, key)
    ensures i == j
  {
    if i < j {
      StartsIncrease(layout, i, j);
    } else if j < i {
      StartsIncrease(layout, j, i);
    }
  }

  lemma {:induction false} FindFrom(layout: Layout, key: Boundary, from: nat)
    requires WellFormed(layout) && from < |layout| && !Less(key, StartOf(layout, from))
    ensures var r := Find(layout, key, from, StartOf(layout, from));
            r.Some? && r.value < |layout| && Contains(layout, r.value, key)
    decreases |layout| - from
  {
    if layout[from].end.Some? && !Less(key, layout[from].end.value) {
      FindFrom(layout, key, from + 1);
    }
  }

  /** In a partition every key is routed, to the one range that contains it. */
  lemma {:induction false} RouteFinds(layout: Layout, key: Boundary)
    requires WellFormed(layout)
    ensures Route(layout, key).Some? && Route(layout, key).value < |layout|
    ensures forall i: nat :: i < |layout| ==> (Contains(layout, i, key) <==> i == Route(layout, key).value)
  {
    FindFrom(layout, key, 0);
    forall i: nat | i < |layout| && Contains(layout, i, key)
      ensures i == Route(layout, key).value
    {
      ContainsOnce(layout, key, i, Route(layout, key).value);
    }
  }

  lemma RouteIs(layout: Layout, key: Boundary, i: nat)
    requires WellFormed(layout) && i < |layout| && Contains(layout, i, key)
    ensures Route(layout, key) == Some(i)
  {
    RouteFinds(layout, key);
  }

  // ----- Ids

  ghost predicate UniqueIds(layout: Layout) {
    forall i, j :: 0 <= i < j < |layout| ==> layout[i].id != layout[j].id
  }

  function MaxId(layout: Layout): nat {
    if layout == [] then 0
    else
      var rest, last := MaxId(layout[..|layout| - 1]), layout[|layout| - 1].id;
      if last > rest then last else rest
  }

  lemma {:induction false} MaxIdIs(layout: Layout)
    ensures forall i :: 0 <= i < |layout| ==> layout[i].id <= MaxId(layout)
    ensures layout != [] ==> exists i :: 0 <= i < |layout| && layout[i].id == MaxId(layout)
  {
    if layout != [] {
      var n := |layout| - 1;
      MaxIdIs(layout[..n]);
      if layout[n].id < MaxId(layout[..n]) {
        var i :| 0 <= i < n && layout[..n][i].id == MaxId(layout[..n]);
        assert layout[i].id == MaxId(layout);
      } else {
        assert layout[n].id == MaxId(layout);
      }
    }
  }

  const U64_MAX: nat := 0xFFFF_FFFF_FFFF_FFFF

  /** `u64::saturating_add(1)`, for generations. */
  function NextGeneration(generation: nat): nat {
    if generation < U64_MAX then generation + 1 else U64_MAX
  }

  /** `u32::saturating_add(1)`. */
  function NextU32(id: nat): nat {
    if id < U32_MAX then id + 1 else U32_MAX
  }

  /** `next_range_id`. */
  function NextRangeId(layout: Layout): nat {
    NextU32(MaxId(layout))
  }

  // ----- Moves

  /** `range_endpoint`: where a range is served unless the command says otherwise. */
  function RangeEndpoint(tenant: string, id: nat): string {
    tenant + "-gres-r" + Decimal(id) + ".gres.svc:5432"
  }

  function Given<T>(option: Option<T>, otherwise: T): T {
    if option.Some? then option.value else otherwise
  }

  /** What the command line of a move says about the replacement. */
  datatype MoveArgs = MoveArgs(source: nat, replacement: nat, endpoint: Option<string>, generation: Option<nat>)

  /** The entry that a move puts in place of `source`. */
  function ReplacementOf(tenant: string, source: Entry, args: MoveArgs): (e: Entry)
    ensures e.id == args.replacement && e.end == source.end && e.lifecycle == Serving && e.retirement == None
    ensures e.generation
            == if args.generation.Some? then args.generation.value
               else if source.generation < 0xFFFF_FFFF_FFFF_FFFF then source.generation + 1 else 0xFFFF_FFFF_FFFF_FFFF
    ensures e.endpoint == if args.endpoint.Some? then args.endpoint.value else RangeEndpoint(tenant, args.replacement)
  {
    Entry(args.replacement, source.end, Given(args.generation, NextGeneration(source.generation)),
          Given(args.endpoint, RangeEndpoint(tenant, args.replacement)), Serving, None)
  }

  function Moved(layout: Layout, at: nat, replacement: Entry): Layout
    requires at < |layout|
  {
    layout[at := replacement]
  }

  /** A move changes no key's range position, and keeps the partition and the ids unique. */
  lemma {:induction false} MoveKeeps(layout: Layout, at: nat, replacement: Entry)
    requires WellFormed(layout) && UniqueIds(layout) && at < |layout|
    requires replacement.end == layout[at].end && Fresh(layout, replacement.id)
    ensures WellFormed(Moved(layout, at, replacement)) && UniqueIds(Moved(layout, at, replacement))
    ensures forall key :: Route(Moved(layout, at, replacement), key) == Route(layout, key)
  {
    var target := Moved(layout, at, replacement);
    SameEndsWellFormed(layout, target);
    forall key
      ensures Route(target, key) == Route(layout, key)
    {
      SameEndsRoute(layout, target, key);
    }
  }

  /** An id that no range has. */
  ghost predicate Fresh(layout: Layout, id: nat) {
    forall i :: 0 <= i < |layout| ==> layout[i].id != id
  }

  predicate SameEnds(layout: Layout, target: Layout) {
    |target| == |layout| && forall i :: 0 <= i < |layout| ==> target[i].end == layout[i].end
  }

  lemma SameEndsWellFormed(layout: Layout, target: Layout)
    requires WellFormed(layout) && SameEnds(layout, target)
    ensures WellFormed(target)
  {
    forall i | 0 <= i < |target| - 1
      ensures target[i].end.Some? && Less(StartOf(target, i), target[i].end.value)
    {
      assert Less(StartOf(layout, i), layout[i].end.value);
    }
  }

  lemma SameEndsRoute(layout: Layout, target: Layout, key: Boundary)
    requires WellFormed(layout) && WellFormed(target) && SameEnds(layout, target)
    ensures Route(target, key) == Route(layout, key)
  {
    RouteFinds(layout, key);
    var i := Route(layout, key).value;
    assert Contains(layout, i, key);
    assert StartOf(target, i) == StartOf(layout, i);
    RouteIs(target, key, i);
  }

  // ----- Splits

  /** The source range replaced in place by its two successors. */
  function Halved(layout: Layout, at: nat, left: Entry, right: Entry): Layout
    requires at < |layout|
  {
    layout[..at] + [left, right] + layout[at + 1..]
  }

  /** `left` and `right` are successors of a range, which meet at `boundary`. */
  predicate Halves(source: Entry, boundary: Boundary, left: Entry, right: Entry) {
    left.end == Some(boundary) && right.end == source.end
  }

  /** The boundary lies strictly inside a range. */
  ghost predicate Interior(layout: Layout, at: nat, boundary: Boundary)
    requires WellFormed(layout)
  {
    at < |layout| && Contains(layout, at, boundary) && Less(StartOf(layout, at), boundary)
  }

  lemma HalvedParts(layout: Layout, at: nat, left: Entry, right: Entry)
    requires at < |layout|
    ensures var target := Halved(layout, at, left, right);
            && |target| == |layout| + 1
            && (forall i :: 0 <= i < at ==> target[i] == layout[i])
            && target[at] == left && target[at + 1] == right
            && (forall i :: at + 1 < i < |target| ==> target[i] == layout[i - 1])
  {
  }

  lemma HalvedStarts(layout: Layout, at: nat, boundary: Boundary, left: Entry, right: Entry)
    requires WellFormed(layout) && at < |layout| && Halves(layout[at], boundary, left, right)
    ensures var target := Halved(layout, at, left, right);
            && (forall i :: 0 <= i < |target| ==> (target[i].end.None? <==> i == |target| - 1))
            && (forall i: nat :: i <= at ==> StartOf(target, i) == StartOf(layout, i))
            && StartOf(target, at + 1) == boundary
            && (forall i: nat :: at + 1 < i < |target| ==> StartOf(target, i) == StartOf(layout, i - 1))
  {
    HalvedParts(layout, at, left, right);
    HalvedEnds(layout, at, boundary, left, right);
  }

  lemma HalvedEnds(layout: Layout, at: nat, boundary: Boundary, left: Entry, right: Entry)
    requires WellFormed(layout) && at < |layout| && Halves(layout[at], boundary, left, right)
    ensures var target := Halved(layout, at, left, right);
            && |target| == |layout| + 1
            && forall i :: 0 <= i < |target| ==>
                 target[i].end
                 == if i < at then layout[i].end else if i == at then Some(boundary) else layout[i - 1].end
  {
    HalvedParts(layout, at, left, right);
  }

  lemma {:induction false} HalvedIsWellFormed(layout: Layout, at: nat, boundary: Boundary, left: Entry, right: Entry)
    requires WellFormed(layout) && Interior(layout, at, boundary) && Halves(layout[at], boundary, left, right)
    ensures WellFormed(Halved(layout, at, left, right))
    ensures StartOf(Halved(layout, at, left, right), at + 1) == boundary
  {
    var target := Halved(layout, at, left, right);
    HalvedParts(layout, at, left, right);
    HalvedStarts(layout, at, boundary, left, right);
    forall i | 0 <= i < |target| - 1
      ensures Less(StartOf(target, i), target[i].end.value)
    {
      HalvedRises(layout, at, boundary, left, right, i);
    }
  }

  /** The end of each range of the halved layout is above its start. */
  lemma HalvedRises(layout: Layout, at: nat, boundary: Boundary, left: Entry, right: Entry, i: nat)
    requires WellFormed(layout) && Interior(layout, at, boundary) && Halves(layout[at], boundary, left, right)
    requires i < |layout|
    ensures var target := Halved(layout, at, left, right);
            && |target| == |layout| + 1 && target[i].end.Some? && (i > 0 ==> target[i - 1].end.Some?)
            && Less(StartOf(target, i), target[i].end.value)
  {
    HalvedParts(layout, at, left, right);
    HalvedStarts(layout, at, boundary, left, right);
    if i < at {
      assert Less(StartOf(layout, i), layout[i].end.value);
    } else if i == at + 1 {
      assert layout[at].end.Some?;
    } else if i > at + 1 {
      assert Less(StartOf(layout, i - 1), layout[i - 1].end.value);
    }
  }

  /** Where a split sends a key that was routed to `i` before. */
  function Shifted(i: nat, at: nat, key: Boundary, boundary: Boundary): nat {
    if i < at || (i == at && Less(key, boundary)) then i else i + 1
  }

  /** A split inside a range routes its keys left or right of the boundary, and no other key anew. */
  lemma {:induction false} SplitRoutes(
    layout: Layout, at: nat, boundary: Boundary, left: Entry, right: Entry, key: Boundary)
    requires WellFormed(layout) && Interior(layout, at, boundary) && Halves(layout[at], boundary, left, right)
    ensures Route(layout, key).Some?
    ensures Route(Halved(layout, at, left, right), key) == Some(Shifted(Route(layout, key).value, at, key, boundary))
  {
    var target := Halved(layout, at, left, right);
    HalvedParts(layout, at, left, right);
    HalvedIsWellFormed(layout, at, boundary, left, right);
    HalvedStarts(layout, at, boundary, left, right);
    RouteFinds(layout, key);
    var i := Route(layout, key).value;
    assert Contains(layout, i, key);
    if i < at || (i == at && Less(key, boundary)) {
      assert StartOf(target, i) == StartOf(layout, i);
      RouteIs(target, key, i);
    } else {
      assert StartOf(target, i + 1) == if i == at then boundary else StartOf(layout, i);
      RouteIs(target, key, i + 1);
    }
  }

  /** An id that no other range has. */
  ghost predicate FreshFor(layout: Layout, at: nat, id: nat) {
    forall i :: 0 <= i < |layout| && i != at ==> layout[i].id != id
  }

  /** The ids of a split stay unique exactly when its two are distinct and no other range has them. */
  lemma {:induction false} HalvedIds(layout: Layout, at: nat, left: Entry, right: Entry)
    requires at < |layout| && UniqueIds(layout)
    ensures UniqueIds(Halved(layout, at, left, right))
            <==> left.id != right.id && FreshFor(layout, at, left.id) && FreshFor(layout, at, right.id)
  {
    var target := Halved(layout, at, left, right);
    HalvedParts(layout, at, left, right);
    if left.id != right.id && FreshFor(layout, at, left.id) && FreshFor(layout, at, right.id) {
      UniqueHalves(layout, at, left, right);
    }
    if UniqueIds(target) {
      assert target[at].id != target[at + 1].id;
      forall i | 0 <= i < |layout| && i != at
        ensures layout[i].id != left.id && layout[i].id != right.id
      {
        var k := if i < at then i else i + 1;
        assert target[k] == layout[i];
      }
    }
  }

  lemma UniqueHalves(layout: Layout, at: nat, left: Entry, right: Entry)
    requires at < |layout| && UniqueIds(layout)
    requires left.id != right.id && FreshFor(layout, at, left.id) && FreshFor(layout, at, right.id)
    ensures UniqueIds(Halved(layout, at, left, right))
  {
    var target := Halved(layout, at, left, right);
    HalvedParts(layout, at, left, right);
    forall i, j | 0 <= i < j < |target|
      ensures target[i].id != target[j].id
    {
      if i < at {
        assert target[i] == layout[i];
        assert j > at + 1 ==> target[j] == layout[j - 1];
      } else if j > at + 1 {
        assert target[j] == layout[j - 1];
        assert i > at + 1 ==> target[i] == layout[i - 1];
      }
    }
  }

  // ----- The plan of a split

  /** What the command line of a split may say about its successors. */
  datatype SplitArgs = SplitArgs(left: Option<nat>, right: Option<nat>, leftEndpoint: Option<string>,
                                 rightEndpoint: Option<string>, generation: Option<nat>)

  /** Unless given, the left id of range 0 is 0 and that of any other range is new. */
  function LeftId(layout: Layout, at: nat, args: SplitArgs): (id: nat)
    requires at < |layout|
    ensures args.left.Some? ==> id == args.left.value
  {
    Given(args.left, if layout[at].id == 0 then 0 else NextRangeId(layout))
  }

  function RightId(layout: Layout, at: nat, args: SplitArgs): (id: nat)
    requires at < |layout|
    ensures args.right.Some? ==> id == args.right.value
  {
    Given(args.right, Max(NextRangeId(layout), NextU32(LeftId(layout, at, args))))
  }

  function LeftOf(tenant: string, layout: Layout, at: nat, boundary: Boundary, args: SplitArgs): (e: Entry)
    requires at < |layout|
    ensures e.id == LeftId(layout, at, args) && e.end == Some(boundary)
    ensures e.lifecycle == Serving && e.retirement == None
    ensures e.generation
            == if args.generation.Some? then args.generation.value
               else if layout[at].generation < 0xFFFF_FFFF_FFFF_FFFF then layout[at].generation + 1
               else 0xFFFF_FFFF_FFFF_FFFF
    ensures e.endpoint
            == if args.leftEndpoint.Some? then args.leftEndpoint.value
               else if e.id == layout[at].id then layout[at].endpoint else RangeEndpoint(tenant, e.id)
  {
    var id, source := LeftId(layout, at, args), layout[at];
    Entry(id, Some(boundary), Given(args.generation, NextGeneration(source.generation)),
          Given(args.leftEndpoint, if id == source.id then source.endpoint else RangeEndpoint(tenant, id)),
          Serving, None)
  }

  function RightOf(tenant: string, layout: Layout, at: nat, args: SplitArgs): (e: Entry)
    requires at < |layout|
    ensures e.id == RightId(layout, at, args) && e.end == layout[at].end
    ensures e.lifecycle == Serving && e.retirement == None
    ensures e.generation
            == if args.generation.Some? then args.generation.value
               else if layout[at].generation < 0xFFFF_FFFF_FFFF_FFFF then layout[at].generation + 1
               else 0xFFFF_FFFF_FFFF_FFFF
    ensures e.endpoint
            == if args.rightEndpoint.Some? then args.rightEndpoint.value else RangeEndpoint(tenant, e.id)
  {
    var id, source := RightId(layout, at, args), layout[at];
    Entry(id, source.end, Given(args.generation, NextGeneration(source.generation)),
          Given(args.rightEndpoint, RangeEndpoint(tenant, id)), Serving, None)
  }

  function SplitInTwo(tenant: string, layout: Layout, at: nat, boundary: Boundary, args: SplitArgs): Layout
    requires at < |layout|
  {
    Halved(layout, at, LeftOf(tenant, layout, at, boundary, args), RightOf(tenant, layout, at, args))
  }

  /** Room for the default ids of a split. */
  predicate HasRoom(layout: Layout, at: nat)
    requires at < |layout|
  {
    MaxId(layout) + (if layout[at].id == 0 then 1 else 2) <= U32_MAX
  }

  /** Default ids stay unique exactly while no id of the split saturates. */
  lemma {:induction false} SplitIds(tenant: string, layout: Layout, at: nat, boundary: Boundary, args: SplitArgs)
    requires args.left.None? && args.right.None?
    requires at < |layout| && UniqueIds(layout) && MaxId(layout) <= U32_MAX
    ensures UniqueIds(SplitInTwo(tenant, layout, at, boundary, args)) <==> HasRoom(layout, at)
  {
    HalvedIds(layout, at, LeftOf(tenant, layout, at, boundary, args), RightOf(tenant, layout, at, args));
    DefaultIds(layout, at, args);
  }

  /** One range with the largest id: its default successors get the same id. */
  lemma {:induction false} SaturatedSplit(tenant: string, range: Entry, boundary: Boundary, args: SplitArgs)
    requires range.id == U32_MAX && args.left.None? && args.right.None?
    ensures !HasRoom([range], 0) && !UniqueIds(SplitInTwo(tenant, [range], 0, boundary, args))
    ensures LeftId([range], 0, args) == RightId([range], 0, args) == U32_MAX
  {
    MaxIdIs([range]);
    SplitIds(tenant, [range], 0, boundary, args);
  }

  lemma DefaultIds(layout: Layout, at: nat, args: SplitArgs)
    requires args.left.None? && args.right.None?
    requires at < |layout| && UniqueIds(layout) && MaxId(layout) <= U32_MAX
    ensures FreshIds(layout, at, args) <==> HasRoom(layout, at)
  {
    MaxIdIs(layout);
    var left, right := LeftId(layout, at, args), RightId(layout, at, args);
    if !HasRoom(layout, at) && layout[at].id == 0 && left != right {
      var i :| 0 <= i < |layout| && layout[i].id == MaxId(layout);
      assert layout[i].id == right;
    }
  }

  lemma {:induction false} FindBound(layout: Layout, key: Boundary, from: nat, previous: Boundary)
    requires from <= |layout|
    ensures Find(layout, key, from, previous).Some? ==> Find(layout, key, from, previous).value < |layout|
    decreases |layout| - from
  {
    if from < |layout| {
      FindBound(layout, key, from + 1, if layout[from].end.Some? then layout[from].end.value else previous);
    }
  }

  // ----- Runs of moves and splits

  datatype Change = Move(at: nat, move: MoveArgs) | Split(at: nat, boundary: Boundary, split: SplitArgs)

  function U32s(change: Change): set<nat> {
    match change
    case Move(_, args) => {args.replacement}
    case Split(_, _, args) => {Given(args.left, 0), Given(args.right, 0)}
  }

  /** A move to a fresh id, or a split strictly inside its range whose ids, given or not, are fresh and distinct. */
  ghost predicate Allowed(layout: Layout, change: Change)
    requires WellFormed(layout)
  {
    && change.at < |layout|
    && (forall id :: id in U32s(change) ==> id <= U32_MAX)
    && match change
       case Move(_, args) => Fresh(layout, args.replacement)
       case Split(at, boundary, args) => Interior(layout, at, boundary) && FreshIds(layout, at, args)
  }

  /** The ids of a split: with default ones exactly when there is room for them. */
  ghost predicate FreshIds(layout: Layout, at: nat, args: SplitArgs)
    requires at < |layout|
  {
    var left, right := LeftId(layout, at, args), RightId(layout, at, args);
    left != right && FreshFor(layout, at, left) && FreshFor(layout, at, right)
  }

  function Changed(tenant: string, layout: Layout, change: Change): Layout
    requires change.at < |layout|
  {
    match change
    case Move(at, args) => Moved(layout, at, ReplacementOf(tenant, layout[at], args))
    case Split(at, boundary, args) => SplitInTwo(tenant, layout, at, boundary, args)
  }

  ghost predicate SmallIds(layout: Layout) {
    forall i :: 0 <= i < |layout| ==> layout[i].id <= U32_MAX
  }

  ghost predicate Sound(layout: Layout) {
    WellFormed(layout) && UniqueIds(layout) && SmallIds(layout)
  }

  lemma {:induction false} ChangeKeepsSound(tenant: string, layout: Layout, change: Change)
    requires Sound(layout) && Allowed(layout, change)
    ensures Sound(Changed(tenant, layout, change))
  {
    match change
    case Move(at, args) =>
      MoveKeeps(layout, at, ReplacementOf(tenant, layout[at], args));
    case Split(at, boundary, args) =>
      var left, right := LeftOf(tenant, layout, at, boundary, args), RightOf(tenant, layout, at, args);
      HalvedIsWellFormed(layout, at, boundary, left, right);
      HalvedIds(layout, at, left, right);
      SplitKeepsSmall(tenant, layout, at, boundary, args);
  }

  lemma SplitKeepsSmall(tenant: string, layout: Layout, at: nat, boundary: Boundary, args: SplitArgs)
    requires at < |layout| && SmallIds(layout) && Given(args.left, 0) <= U32_MAX && Given(args.right, 0) <= U32_MAX
    ensures SmallIds(SplitInTwo(tenant, layout, at, boundary, args))
  {
    MaxIdIs(layout);
    HalvedParts(layout, at, LeftOf(tenant, layout, at, boundary, args), RightOf(tenant, layout, at, args));
  }

  ghost predicate Runs(tenant: string, layout: Layout, changes: seq<Change>)
    decreases |changes|
  {
    changes == [] ||
    (&& WellFormed(layout) && Allowed(layout, changes[0])
     && Runs(tenant, Changed(tenant, layout, changes[0]), changes[1..]))
  }

  ghost function After(tenant: string, layout: Layout, changes: seq<Change>): Layout
    requires Runs(tenant, layout, changes)
    decreases |changes|
  {
    if changes == [] then layout else After(tenant, Changed(tenant, layout, changes[0]), changes[1..])
  }

  /** Keys in different ranges stay in different ranges, in the same order. */
  ghost predicate KeepsApart(layout: Layout, target: Layout) {
    forall a, b ::
      Route(layout, a).Some? && Route(layout, b).Some? && Route(layout, a).value < Route(layout, b).value ==>
        Route(target, a).Some? && Route(target, b).Some? && Route(target, a).value < Route(target, b).value
  }

  lemma {:induction false} ChangeKeepsApart(tenant: string, layout: Layout, change: Change)
    requires Sound(layout) && Allowed(layout, change)
    ensures KeepsApart(layout, Changed(tenant, layout, change))
  {
    match change
    case Move(at, args) =>
      MoveKeeps(layout, at, ReplacementOf(tenant, layout[at], args));
    case Split(at, boundary, args) =>
      forall key
        ensures Route(layout, key).Some?
        ensures Route(Changed(tenant, layout, change), key)
                == Some(Shifted(Route(layout, key).value, at, key, boundary))
      {
        var left, right := LeftOf(tenant, layout, at, boundary, args), RightOf(tenant, layout, at, args);
        SplitRoutes(layout, at, boundary, left, right, key);
      }
  }

  /**
    Any run of moves and interior splits keeps unique ids and a partition that routes every key, and
    never brings keys of different ranges together.
   */
  lemma {:induction false} RunKeepsSound(tenant: string, layout: Layout, changes: seq<Change>)
    requires Sound(layout) && Runs(tenant, layout, changes)
    ensures Sound(After(tenant, layout, changes))
    ensures forall key :: Route(After(tenant, layout, changes), key).Some?
    ensures KeepsApart(layout, After(tenant, layout, changes))
    decreases |changes|
  {
    if changes == [] {
      forall key
        ensures Route(layout, key).Some?
      {
        RouteFinds(layout, key);
      }
    } else {
      ChangeKeepsSound(tenant, layout, changes[0]);
      ChangeKeepsApart(tenant, layout, changes[0]);
      RunKeepsSound(tenant, Changed(tenant, layout, changes[0]), changes[1..]);
    }
  }

  // ----- Endpoints

  /** Every range is served where its id says. */
  ghost predicate NamedEndpoints(tenant: string, layout: Layout) {
    forall i :: 0 <= i < |layout| ==> layout[i].endpoint == RangeEndpoint(tenant, layout[i].id)
  }

  /** The change leaves the endpoints to their defaults. */
  predicate DefaultEndpoints(change: Change) {
    match change
    case Move(_, args) => args.endpoint.None?
    case Split(_, _, args) => args.leftEndpoint.None? && args.rightEndpoint.None?
  }

  lemma ChangeKeepsEndpoints(tenant: string, layout: Layout, change: Change)
    requires change.at < |layout| && NamedEndpoints(tenant, layout) && DefaultEndpoints(change)
    ensures NamedEndpoints(tenant, Changed(tenant, layout, change))
  {
    match change
    case Move(_, _) =>
    case Split(at, boundary, args) =>
      HalvedParts(layout, at, LeftOf(tenant, layout, at, boundary, args), RightOf(tenant, layout, at, args));
  }

  lemma {:induction false} EndpointExample()
    ensures RangeEndpoint("acme", 7) == "acme-gres-r7.gres.svc:5432"
  {
    assert Decimal(7) == "7";
  }

  lemma EndpointsDiffer(tenant: string, a: nat, b: nat)
    ensures RangeEndpoint(tenant, a) == RangeEndpoint(tenant, b) <==> a == b
  {
    var head, tail := tenant + "-gres-r", ".gres.svc:5432";
    if RangeEndpoint(tenant, a) == RangeEndpoint(tenant, b) {
      assert |Decimal(a)| == |RangeEndpoint(tenant, a)| - |head| - |tail| == |Decimal(b)|;
      assert Decimal(a) == RangeEndpoint(tenant, a)[|head|..|head| + |Decimal(a)|];
      assert Decimal(b) == RangeEndpoint(tenant, b)[|head|..|head| + |Decimal(b)|];
      ValueOfDecimal(a);
      ValueOfDecimal(b);
    }
  }

  /** In any run with default endpoints each range keeps an endpoint of its own. */
  lemma {:induction false} RunKeepsEndpoints(tenant: string, layout: Layout, changes: seq<Change>)
    requires Sound(layout) && Runs(tenant, layout, changes)
    requires NamedEndpoints(tenant, layout) && forall i :: 0 <= i < |changes| ==> DefaultEndpoints(changes[i])
    ensures var target := After(tenant, layout, changes);
            && NamedEndpoints(tenant, target)
            && forall i, j :: 0 <= i < j < |target| ==> target[i].endpoint != target[j].endpoint
    decreases |changes|
  {
    if changes == [] {
      forall i, j | 0 <= i < j < |layout|
        ensures layout[i].endpoint != layout[j].endpoint
      {
        EndpointsDiffer(tenant, layout[i].id, layout[j].id);
      }
    } else {
      ChangeKeepsSound(tenant, layout, changes[0]);
      ChangeKeepsEndpoints(tenant, layout, changes[0]);
      RunKeepsEndpoints(tenant, Changed(tenant, layout, changes[0]), changes[1..]);
    }
  }

  // ----- Lifecycles

  /** Any run: a range that was not there before serves, and is not retired. */
  lemma {:induction false} RunServes(tenant: string, layout: Layout, changes: seq<Change>, e: Entry)
    requires Runs(tenant, layout, changes) && e in After(tenant, layout, changes)
    ensures e in layout || (e.lifecycle == Serving && e.retirement == None)
    decreases |changes|
  {
    if changes != [] {
      var changed := Changed(tenant, layout, changes[0]);
      RunServes(tenant, changed, changes[1..], e);
      if e in changed {
        ChangeServes(tenant, layout, changes[0], e);
      }
    }
  }

  lemma ChangeServes(tenant: string, layout: Layout, change: Change, e: Entry)
    requires change.at < |layout| && e in Changed(tenant, layout, change)
    ensures e in layout || (e.lifecycle == Serving && e.retirement == None)
  {
    match change
    case Move(_, _) =>
    case Split(at, boundary, args) =>
      assert e in layout[..at] + [LeftOf(tenant, layout, at, boundary, args), RightOf(tenant, layout, at, args)]
                  + layout[at + 1..];
  }
}
