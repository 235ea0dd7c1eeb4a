/** The operations that moving and splitting a tenant's ranges begin. */
module RangePlans {
  import opened Wrappers
  import opened Naturals
  import opened RangeLayout

  /** What the registry holds of a tenant. */
  datatype TenantRecord = TenantRecord(name: string, version: nat, ranges: Layout, placements: seq<Placement>)

  datatype OperationPlan = OperationPlan(recordVersion: nat, mapEpoch: nat, table: nat, current: Layout, target: Layout)

  /** A sealed operation, with the range and generation that it replaces. */
  datatype Operation =
    | MoveOperation(tenant: string, id: string, source: nat, predecessor: nat, replacement: Entry, plan: OperationPlan)
    | SplitOperation(tenant: string, id: string, source: nat, predecessor: nat, left: Entry, right: Entry,
                     plan: OperationPlan)

  datatype Error =
    | UnknownRange | ReplacementNotFresh | NotCovered | NotInterior
    | BucketTooLarge | BucketMissing | BucketNotAllowed

  /** The index of the first range with `id`. */
  function Position(layout: Layout, id: nat): Option<nat> {
    if layout == [] then None
    else if layout[0].id == id then Some(0)
    else if Position(layout[1..], id).Some? then Some(Position(layout[1..], id).value + 1) else None
  }

  lemma {:induction false} PositionIs(layout: Layout, id: nat)
    ensures Position(layout, id).Some? ==>
              Position(layout, id).value < |layout| && layout[Position(layout, id).value].id == id
    ensures Position(layout, id).None? ==> forall i :: 0 <= i < |layout| ==> layout[i].id != id
  {
    if layout != [] {
      PositionIs(layout[1..], id);
      assert forall i :: 0 < i < |layout| ==> layout[i] == layout[1..][i - 1];
    }
  }

  function PlanFor(record: TenantRecord, table: nat, target: Layout): OperationPlan {
    OperationPlan(record.version, record.version, table, record.ranges, target)
  }

  // ----- Moves

  function MoveOf(record: TenantRecord, id: string, table: nat, at: nat, args: MoveArgs): Operation
    requires at < |record.ranges|
  {
    var source, replacement := record.ranges[at], ReplacementOf(record.name, record.ranges[at], args);
    MoveOperation(record.name, id, source.id, source.generation, replacement,
                  PlanFor(record, table, Moved(record.ranges, at, replacement)))
  }

  /**
    `build_move_operation`: planned exactly for a range that is there and a fresh replacement, and then
    a change that a run may make.
   */
  method PlanMove(record: TenantRecord, id: string, table: nat, args: MoveArgs) returns (r: Result<Operation, Error>)
    ensures Position(record.ranges, args.source).None? ==> r == Err(UnknownRange)
    ensures r.Ok? <==> Position(record.ranges, args.source).Some? && Position(record.ranges, args.replacement).None?
    ensures r.Ok? ==>
              var at := Position(record.ranges, args.source).value;
              && at < |record.ranges| && record.ranges[at].id == args.source
              && r.value == MoveOf(record, id, table, at, args)
              && r.value.tenant == record.name && r.value.id == id
              && r.value.source == args.source && r.value.predecessor == record.ranges[at].generation
              && r.value.plan.recordVersion == r.value.plan.mapEpoch == record.version
              && r.value.plan.table == table && r.value.plan.current == record.ranges
              && r.value.plan.target == Changed(record.name, record.ranges, Move(at, args))
              && (WellFormed(record.ranges) && args.replacement <= U32_MAX ==> Allowed(record.ranges, Move(at, args)))
  {
    var layout := record.ranges;
    var found := Position(layout, args.source);
    PositionIs(layout, args.source);
    PositionIs(layout, args.replacement);
    if found.None? {
      return Err(UnknownRange);
    }
    var at := found.value;
    var source := layout[at];
    if args.replacement == source.id || Position(layout, args.replacement).Some? {
      return Err(ReplacementNotFresh);
    }
    var replacement := Entry(args.replacement, source.end, Given(args.generation, NextGeneration(source.generation)),
                             Given(args.endpoint, RangeEndpoint(record.name, args.replacement)), Serving, None);
    var target := layout;
    target := target[at := replacement];
    return Ok(MoveOperation(record.name, id, source.id, source.generation, replacement,
                            PlanFor(record, table, target)));
  }

  // ----- Boundaries of a split

  /** A table whose rows are spread over hash buckets. */
  datatype Placement = Placement(table: nat, buckets: nat)

  function PlacementOf(placements: seq<Placement>, table: nat): Option<Placement> {
    if placements == [] then None
    else if placements[0].table == table then Some(placements[0])
    else PlacementOf(placements[1..], table)
  }

  /** `split_boundary`. */
  function SplitBoundary(placements: seq<Placement>, table: nat, bucket: Option<nat>, rowid: nat)
    : Result<Boundary, Error>
  {
    var placement := PlacementOf(placements, table);
    match (placement, bucket)
    case (Some(p), Some(b)) => if b < p.buckets then Ok(Boundary(table, Some(b), rowid)) else Err(BucketTooLarge)
    case (Some(_), None) => Err(BucketMissing)
    case (None, Some(_)) => Err(BucketNotAllowed)
    case (None, None) => Ok(Boundary(table, None, rowid))
  }

  /** Placement `i` is the first one of its table. */
  predicate FirstPlacement(placements: seq<Placement>, i: nat, table: nat) {
    i < |placements| && placements[i].table == table && forall j :: 0 <= j < i ==> placements[j].table != table
  }

  lemma {:induction false} PlacementIs(placements: seq<Placement>, table: nat)
    ensures PlacementOf(placements, table).None? ==> forall i: nat :: !FirstPlacement(placements, i, table)
    ensures PlacementOf(placements, table).Some? ==>
              exists i: nat ::
                FirstPlacement(placements, i, table) && placements[i] == PlacementOf(placements, table).value
  {
    if placements != [] && placements[0].table == table {
      assert FirstPlacement(placements, 0, table);
    } else if placements != [] {
      var rest := placements[1..];
      PlacementIs(rest, table);
      if PlacementOf(rest, table).Some? {
        var i: nat :| FirstPlacement(rest, i, table) && rest[i] == PlacementOf(rest, table).value;
        assert FirstPlacement(placements, i + 1, table);
      } else {
        forall i: nat | i < |placements|
          ensures !FirstPlacement(placements, i, table)
        {
          assert i > 0 ==> !FirstPlacement(rest, i - 1, table);
        }
      }
    }
  }

  /** A boundary has a bucket exactly in a placed table, below the bucket count of its first placement. */
  lemma {:induction false} SplitBoundaryExactly(placements: seq<Placement>, table: nat, bucket: Option<nat>, rowid: nat)
    ensures SplitBoundary(placements, table, bucket, rowid).Ok?
            <==> if bucket.None? then forall i: nat :: !FirstPlacement(placements, i, table)
                 else exists i: nat :: FirstPlacement(placements, i, table) && bucket.value < placements[i].buckets
    ensures SplitBoundary(placements, table, bucket, rowid).Ok? ==>
              SplitBoundary(placements, table, bucket, rowid).value == Boundary(table, bucket, rowid)
  {
    PlacementIs(placements, table);
    if PlacementOf(placements, table).Some? {
      var i: nat :| FirstPlacement(placements, i, table) && placements[i] == PlacementOf(placements, table).value;
      assert forall j: nat :: FirstPlacement(placements, j, table) ==> j == i;
    }
  }

  // ----- Splits

  /** Where the command line asks for a split. */
  datatype SplitPoint = SplitPoint(table: nat, bucket: Option<nat>, rowid: nat)

  function BoundaryFor(record: TenantRecord, point: SplitPoint): Result<Boundary, Error> {
    SplitBoundary(record.placements, point.table, point.bucket, point.rowid)
  }

  function SplitOf(record: TenantRecord, id: string, table: nat, at: nat, boundary: Boundary, args: SplitArgs)
    : Operation
    requires at < |record.ranges|
  {
    var source := record.ranges[at];
    var left := LeftOf(record.name, record.ranges, at, boundary, args);
    var right := RightOf(record.name, record.ranges, at, args);
    SplitOperation(record.name, id, source.id, source.generation, left, right,
                   PlanFor(record, table, Halved(record.ranges, at, left, right)))
  }

  /** The range of a key in a partition. */
  ghost function RouteOf(layout: Layout, key: Boundary): (i: nat)
    requires WellFormed(layout)
    ensures i < |layout| && Contains(layout, i, key)
  {
    RouteFinds(layout, key);
    Route(layout, key).value
  }

  lemma SplitIsAllowed(layout: Layout, boundary: Boundary, args: SplitArgs)
    requires WellFormed(layout) && Less(StartOf(layout, RouteOf(layout, boundary)), boundary)
    ensures Given(args.left, 0) <= U32_MAX && Given(args.right, 0) <= U32_MAX ==>
              var at := RouteOf(layout, boundary);
              Allowed(layout, Split(at, boundary, args)) <==> FreshIds(layout, at, args)
  {
  }

  /**
    `split_range`: planned in a partition exactly for an accepted boundary that is not its range's own
    start, and with fresh ids a change that a run may make.
   */
  method PlanSplit(record: TenantRecord, id: string, point: SplitPoint, args: SplitArgs)
    returns (r: Result<Operation, Error>)
    ensures BoundaryFor(record, point).Err? ==> r == Err(BoundaryFor(record, point).error)
    ensures r.Ok? ==>
              && BoundaryFor(record, point).Ok?
              && var boundary := BoundaryFor(record, point).value;
                 && Route(record.ranges, boundary).Some? && Route(record.ranges, boundary).value < |record.ranges|
                 && var at := Route(record.ranges, boundary).value;
                    && r.value == SplitOf(record, id, point.table, at, boundary, args)
                    && r.value.tenant == record.name && r.value.id == id
                    && r.value.source == record.ranges[at].id && r.value.predecessor == record.ranges[at].generation
                    && r.value.plan.recordVersion == r.value.plan.mapEpoch == record.version
                    && r.value.plan.table == point.table && r.value.plan.current == record.ranges
                    && r.value.plan.target == Changed(record.name, record.ranges, Split(at, boundary, args))
    ensures WellFormed(record.ranges) ==>
              (r.Ok? <==>
                 && BoundaryFor(record, point).Ok?
                 && var boundary := BoundaryFor(record, point).value;
                    Less(StartOf(record.ranges, RouteOf(record.ranges, boundary)), boundary))
    ensures WellFormed(record.ranges) && r.Ok? && Given(args.left, 0) <= U32_MAX && Given(args.right, 0) <= U32_MAX ==>
              var boundary := BoundaryFor(record, point).value;
              var at := RouteOf(record.ranges, boundary);
              Allowed(record.ranges, Split(at, boundary, args)) <==> FreshIds(record.ranges, at, args)
  {
    var boundary :- BoundaryFor(record, point);
    var layout := record.ranges;
    var found := SourceRangeForKey(layout, boundary);
    if found.None? {
      return Err(NotCovered);
    }
    var at := found.value;
    FindBound(layout, boundary, 0, START);
    if at > 0 && layout[at - 1].end.None? {
      return Err(NotInterior);
    }
    if !Less(StartOf(layout, at), boundary) {
      return Err(NotInterior);
    }
    if WellFormed(layout) {
      SplitIsAllowed(layout, boundary, args);
    }
    var source, first := layout[at], NextRangeId(layout);
    var leftId := Given(args.left, if source.id == 0 then 0 else first);
    var rightId := Given(args.right, Max(first, NextU32(leftId)));
    var leftDefault := if leftId == source.id then source.endpoint else RangeEndpoint(record.name, leftId);
    var leftEndpoint := Given(args.leftEndpoint, leftDefault);
    var rightEndpoint := Given(args.rightEndpoint, RangeEndpoint(record.name, rightId));
    var generation := Given(args.generation, NextGeneration(source.generation));
    var left := Entry(leftId, Some(boundary), generation, leftEndpoint, Serving, None);
    var right := Entry(rightId, source.end, generation, rightEndpoint, Serving, None);
    var target := layout[..at] + [left, right] + layout[at + 1..];
    return Ok(SplitOperation(record.name, id, source.id, source.generation, left, right,
                             PlanFor(record, point.table, target)));
  }
}
