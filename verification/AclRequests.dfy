/** The requests of an accepted ACL plan, which never fail to convert. */
module AclRequests {
  import opened Wrappers
  import opened Acls

  // ----- Requests

  datatype WirePattern = WireLiteral | WirePrefixed | WireMatch

  datatype WireOperation =
    | WireAll | WireRead | WireWrite | WireCreate | WireDelete | WireAlter | WireDescribe | WireClusterAction
    | WireDescribeConfigs | WireAlterConfigs | WireIdempotentWrite | WireTwoPhaseCommit | WireCreateTokens
    | WireDescribeTokens

  datatype Binding = Binding(kind: ResourceType, name: string, pattern: WirePattern, principal: string, host: string,
                             operation: WireOperation, permission: Permission)

  function OperationToWire(o: Operation): Result<WireOperation, Error> {
    match o
    case All => Ok(WireAll) case Read => Ok(WireRead) case Write => Ok(WireWrite) case Create => Ok(WireCreate)
    case Delete => Ok(WireDelete) case Alter => Ok(WireAlter) case Describe => Ok(WireDescribe)
    case ClusterAction => Ok(WireClusterAction) case DescribeConfigs => Ok(WireDescribeConfigs)
    case AlterConfigs => Ok(WireAlterConfigs) case IdempotentWrite => Ok(WireIdempotentWrite)
    case CreateTokens => Ok(WireCreateTokens) case DescribeTokens => Ok(WireDescribeTokens)
    case TwoPhaseCommit => Ok(WireTwoPhaseCommit)
    case Unknown => Err(NotConcrete) case AnyOperation => Err(NotConcrete)
  }

  function OperationFromWire(o: WireOperation): Operation {
    match o
    case WireAll => All case WireRead => Read case WireWrite => Write case WireCreate => Create
    case WireDelete => Delete case WireAlter => Alter case WireDescribe => Describe
    case WireClusterAction => ClusterAction case WireDescribeConfigs => DescribeConfigs
    case WireAlterConfigs => AlterConfigs case WireIdempotentWrite => IdempotentWrite
    case WireTwoPhaseCommit => TwoPhaseCommit case WireCreateTokens => CreateTokens
    case WireDescribeTokens => DescribeTokens
  }

  function PatternToWire(p: PatternType): Result<WirePattern, Error> {
    match p
    case Literal => Ok(WireLiteral)
    case Prefixed => Ok(WirePrefixed)
    case AnyPattern => Err(NotConcrete)
    case MatchPattern => Err(NotConcrete)
  }

  function PatternFromWire(p: WirePattern): PatternType {
    match p
    case WireLiteral => Literal
    case WirePrefixed => Prefixed
    case WireMatch => MatchPattern
  }

  /** `Entry::wire`. */
  function ToBinding(e: Entry, r: Resource): Result<Binding, Error> {
    var pattern :- PatternToWire(r.pattern);
    var operation :- OperationToWire(e.operation);
    Ok(Binding(r.kind, r.name, pattern, e.principal, e.host, operation, e.permission))
  }

  /** `binding`: what a binding that the broker returns stands for. */
  function FromBinding(b: Binding): (Resource, Entry) {
    (Resource(b.kind, b.name, PatternFromWire(b.pattern)),
     Entry(b.principal, b.host, OperationFromWire(b.operation), b.permission))
  }

  /** `add_steps`: the binding of every entry of every resource. */
  function AddSteps(acls: AclMap): Result<map<Resource, map<Entry, Binding>>, Error> {
    if exists r, e :: r in acls && e in acls[r] && ToBinding(e, r).Err? then Err(NotConcrete)
    else Ok(map r | r in acls :: map e | e in acls[r] :: ToBinding(e, r).value)
  }

  /** All the bindings that the steps send. */
  function Sent(steps: map<Resource, map<Entry, Binding>>): set<Binding> {
    set r, e | r in steps && e in steps[r] :: steps[r][e]
  }

  function Resources(bindings: set<Binding>): set<Resource> {
    set b | b in bindings :: FromBinding(b).0
  }

  /** What `--list` collects from the bindings that a broker returns. */
  function Listed(bindings: set<Binding>): AclMap {
    map r | r in Resources(bindings) :: set b | b in bindings && FromBinding(b).0 == r :: FromBinding(b).1
  }

  /** `AclEntryFilter`, where `None` matches anything. */
  datatype Filter = Filter(kind: Option<ResourceType>, name: Option<string>, pattern: Option<WirePattern>,
                           principal: Option<string>, host: Option<string>, operation: Option<WireOperation>,
                           permission: Option<Permission>)

  function PatternToFilter(p: PatternType): Option<WirePattern> {
    match p
    case AnyPattern => None
    case MatchPattern => Some(WireMatch)
    case Literal => Some(WireLiteral)
    case Prefixed => Some(WirePrefixed)
  }

  /** `Resource::wire_filter`. */
  function ResourceFilter(r: Resource): Filter {
    Filter(Some(r.kind), Some(r.name), PatternToFilter(r.pattern), None, None, None, None)
  }

  /** `Entry::wire_filter`. */
  function EntryFilter(e: Entry, base: Filter): Result<Filter, Error> {
    var operation :- OperationToWire(e.operation);
    Ok(base.(principal := Some(e.principal), host := Some(e.host),
             operation := Some(operation), permission := Some(e.permission)))
  }

  /** `remove_steps`: a filter for every entry, or one for the whole resource when it names none. */
  function RemoveSteps(acls: AclMap): Result<map<Resource, set<Filter>>, Error> {
    if exists r, e :: r in acls && e in acls[r] && EntryFilter(e, ResourceFilter(r)).Err? then Err(NotConcrete)
    else Ok(map r | r in acls ::
              if acls[r] == {} then {ResourceFilter(r)}
              else set e | e in acls[r] :: EntryFilter(e, ResourceFilter(r)).value)
  }

  /** The resource and entry that a filter names, if it names an entry. */
  function FromFilter(f: Filter): Option<(Resource, Entry)> {
    if f.kind.Some? && f.name.Some? && f.principal.Some? && f.host.Some? && f.operation.Some? && f.permission.Some? then
      Some((Resource(f.kind.value, f.name.value,
                     if f.pattern.Some? then PatternFromWire(f.pattern.value) else AnyPattern),
            Entry(f.principal.value, f.host.value, OperationFromWire(f.operation.value), f.permission.value)))
    else None
  }

  // ----- Every accepted plan converts

  lemma OperationInverse(o: Operation)
    ensures OperationToWire(o).Ok? <==> o != Unknown && o != AnyOperation
    ensures OperationToWire(o).Ok? ==> OperationFromWire(OperationToWire(o).value) == o
  {
  }

  lemma SupportedIsConcrete(kind: ResourceType, o: Operation)
    requires Supports(kind, o)
    ensures o != Unknown && o != AnyOperation
  {
  }

  lemma FiltersHavePattern(s: Selectors, idempotent: bool, pattern: PatternType, r: Resource)
    requires r in FiltersOf(s, idempotent, pattern)
    ensures r.pattern == pattern || r == CLUSTER
  {
  }

  lemma KeysAreFilters(who: Parties, filters: set<Resource>, operations: set<Operation>, idempotent: bool)
    ensures var r := ExplicitAcls(who, operations, filters); r.Ok? ==> r.value.Keys <= filters
    ensures var r := ProducerAcls(who, filters, idempotent); r.Ok? ==> r.value.Keys <= filters + {CLUSTER}
    ensures var r := ConsumerAcls(who, filters); r.Ok? ==> r.value.Keys <= filters
  {
  }

  lemma ResourcesHavePattern(args: Args, pattern: PatternType, r: Resource)
    requires Expansion(args, pattern).Ok? && r in Expansion(args, pattern).value
    ensures r.pattern == pattern || r == CLUSTER
  {
    var filters := FiltersOf(args.selectors, args.roles.idempotent, pattern);
    KeysAreFilters(args.parties, filters, Elements(OperationsOf(args)), args.roles.idempotent);
    if r != CLUSTER {
      FiltersHavePattern(args.selectors, args.roles.idempotent, pattern, r);
    }
  }

  lemma {:induction false} BindingInverse(e: Entry, r: Resource)
    requires Specific(r.pattern) && Supports(r.kind, e.operation)
    ensures ToBinding(e, r).Ok? && FromBinding(ToBinding(e, r).value) == (r, e)
  {
    SupportedIsConcrete(r.kind, e.operation);
    OperationInverse(e.operation);
  }

  lemma {:induction false} FilterInverse(e: Entry, r: Resource)
    requires Supports(r.kind, e.operation)
    ensures EntryFilter(e, ResourceFilter(r)).Ok?
    ensures FromFilter(EntryFilter(e, ResourceFilter(r)).value) == Some((r, e))
  {
    SupportedIsConcrete(r.kind, e.operation);
    OperationInverse(e.operation);
  }

  /** What a valid map of concrete resources sends, listed back, is that map. */
  lemma {:induction false} AddedListsBack(acls: AclMap)
    requires Valid(acls) && forall r :: r in acls ==> Specific(r.pattern) && acls[r] != {}
    ensures AddSteps(acls).Ok?
    ensures Listed(Sent(AddSteps(acls).value)) == acls
  {
    forall r, e | r in acls && e in acls[r]
      ensures ToBinding(e, r).Ok? && FromBinding(ToBinding(e, r).value) == (r, e)
    {
      BindingInverse(e, r);
    }
    var steps := AddSteps(acls).value;
    var bindings := Sent(steps);
    forall r, e
      ensures (exists b :: b in bindings && FromBinding(b) == (r, e)) <==> r in acls && e in acls[r]
    {
      if r in acls && e in acls[r] {
        assert steps[r][e] in bindings;
      }
    }
    ListedIs(bindings, acls);
  }

  lemma ListedIs(bindings: set<Binding>, acls: AclMap)
    requires forall r :: r in acls ==> acls[r] != {}
    requires forall r, e :: (exists b :: b in bindings && FromBinding(b) == (r, e)) <==> r in acls && e in acls[r]
    ensures Listed(bindings) == acls
  {
    var listed := Listed(bindings);
    forall r
      ensures r in listed <==> r in acls
    {
      if r in acls {
        var e :| e in acls[r];
        var b :| b in bindings && FromBinding(b) == (r, e);
        assert FromBinding(b).0 == r;
      }
      if r in listed {
        var b :| b in bindings && FromBinding(b).0 == r;
        assert FromBinding(b) == (r, FromBinding(b).1);
      }
    }
    forall r | r in acls
      ensures listed[r] == acls[r]
    {
      forall e
        ensures e in listed[r] <==> e in acls[r]
      {
        if e in listed[r] {
          var b :| b in bindings && FromBinding(b).0 == r && FromBinding(b).1 == e;
          assert FromBinding(b) == (r, e);
        }
        if e in acls[r] {
          var b :| b in bindings && FromBinding(b) == (r, e);
        }
      }
    }
  }

  /** The entries that the filters of a resource name: exactly those asked for, or all when none is. */
  ghost predicate RemovesExactly(filters: set<Filter>, r: Resource, entries: set<Entry>) {
    && filters != {}
    && (entries == {} ==> filters == {ResourceFilter(r)})
    && (entries != {} ==>
          && (forall f :: f in filters ==> exists e :: e in entries && FromFilter(f) == Some((r, e)))
          && (forall e :: e in entries ==> exists f :: f in filters && FromFilter(f) == Some((r, e))))
  }

  lemma {:induction false} RemoveNamesEntries(acls: AclMap)
    requires Valid(acls)
    ensures RemoveSteps(acls).Ok? && RemoveSteps(acls).value.Keys == acls.Keys
    ensures forall r :: r in acls ==> RemovesExactly(RemoveSteps(acls).value[r], r, acls[r])
  {
    forall r, e | r in acls && e in acls[r]
      ensures EntryFilter(e, ResourceFilter(r)).Ok?
      ensures FromFilter(EntryFilter(e, ResourceFilter(r)).value) == Some((r, e))
    {
      FilterInverse(e, r);
    }
    var steps := RemoveSteps(acls).value;
    forall r | r in acls
      ensures RemovesExactly(steps[r], r, acls[r])
    {
      forall e | e in acls[r]
        ensures exists f :: f in steps[r] && FromFilter(f) == Some((r, e))
      {
        assert EntryFilter(e, ResourceFilter(r)).value in steps[r];
      }
    }
  }

  /**
    A plan that the checks accept never fails later. What an add sends would be listed back as the
    plan itself, with an entry on every resource; the filters of a remove name exactly its entries.
   */
  lemma {:induction false} AcceptedPlansConvert(args: Args)
    requires PlanOf(args).Ok?
    ensures match PlanOf(args).value
            case Add(acls) =>
              && (forall r :: r in acls ==> acls[r] != {})
              && AddSteps(acls).Ok? && Listed(Sent(AddSteps(acls).value)) == acls
            case Remove(acls) =>
              RemoveSteps(acls).Ok? && forall r :: r in acls ==> RemovesExactly(RemoveSteps(acls).value[r], r, acls[r])
            case List(_) => true
  {
    var plan := PlanOf(args).value;
    if plan.Remove? {
      RemoveNamesEntries(plan.acls);
    } else if plan.Add? {
      var pattern := ParsePattern(args.pattern).value;
      forall r | r in plan.acls
        ensures Specific(r.pattern)
      {
        ResourcesHavePattern(args, pattern, r);
      }
      AddedListsBack(plan.acls);
    }
  }
}
